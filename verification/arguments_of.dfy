/**
  argumentsOf: given the source text of a callable, the ordered list of its
  declared parameters as `{name, rest}` descriptors. The text loses its `'\n'`
  characters; the enabled signature patterns are tried in the fixed order class
  constructor, arrow function, regular function, and the first non-empty trimmed
  capture wins; comments are stripped from it, it is split flat on `,`, and each
  trimmed piece is classified as rest, default-valued or plain.
*/
module ArgumentsOf {
  import opened Wrappers
  import opened Text
  import opened Patterns

  /** A parameter descriptor `{ name, rest }`. */
  datatype Param = Param(name: string, rest: bool)

  /** The three callable shapes, one signature pattern each. */
  datatype Shape = Constructor | Arrow | Regular

  /** Capture group 1 of the shape's pattern matched against the source text. */
  function ShapeGroup(body: string, shape: Shape): (g: Option<Group>)
    ensures g.Some? ==> InBounds(body, g.value)
  {
    match shape
    case Constructor => ConstructorGroup(body)
    case Arrow => ArrowGroup(body)
    case Regular => RegularGroup(body)
  }

  /** `matchInspector`: the trimmed capture group of a match, or null when there is none. */
  function MatchInspector(body: string, shape: Shape): (r: Option<string>)
    ensures r.Some? <==> ShapeGroup(body, shape).Some?
    ensures r.Some? ==> Trimmed(r.value)
  {
    match ShapeGroup(body, shape)
    case None => None
    case Some(g) => Some(Trim(body[g.lo..g.hi]))
  }

  /**
    The regular-function pattern matches only text that starts with `function`,
    and its capture, taken between a `(` and the next `)`, never holds a `)`.
  */
  lemma RegularCaptureShape(body: string)
    requires MatchInspector(body, Regular).Some?
    ensures StartsWith(body, "function")
    ensures ')' !in MatchInspector(body, Regular).value
  {
    var g := RegularGroup(body).value;
    assert ')' !in body[g.lo..g.hi];
  }

  /**
    The constructor pattern matches only text that starts with `class` and one
    white-space character, and its capture never holds a `)`.
  */
  lemma ConstructorCaptureShape(body: string)
    requires MatchInspector(body, Constructor).Some?
    ensures StartsWith(body, "class") && IsSpace(body[5])
    ensures ')' !in MatchInspector(body, Constructor).value
  {
    var g := ConstructorGroup(body).value;
    assert ')' !in body[g.lo..g.hi];
  }

  /**
    The arrow pattern matches only text that holds `=>`; in text without line
    terminators it matches exactly when the text holds `=>`.
  */
  lemma ArrowMatchesArrowToken(body: string)
    ensures MatchInspector(body, Arrow).Some? ==> exists i: nat :: HasAt(body, i, "=>")
    ensures NoLineTerminators(body) && (exists i: nat :: HasAt(body, i, "=>")) ==> MatchInspector(body, Arrow).Some?
  {
    if MatchInspector(body, Arrow).Some? {
      ArrowMatchHasArrowToken(body);
    }
    if NoLineTerminators(body) && exists i: nat :: HasAt(body, i, "=>") {
      var i: nat :| HasAt(body, i, "=>");
      ArrowTokenMatches(body, i);
    }
  }

  /** A match ends with white space and `=>`. */
  lemma ArrowMatchHasArrowToken(body: string)
    requires ArrowGroup(body).Some?
    ensures exists i: nat :: HasAt(body, i, "=>")
  {
    var c := ArrowGroup(body).value.hi;
    if ArrowFollows(body, c) {
      assert HasAt(body, SkipSpaces(body, c), "=>");
    } else {
      assert HasAt(body, SkipSpaces(body, c + 1), "=>");
    }
  }

  /** Without line terminators, the capture can always end at an `=>`, so the pattern matches. */
  lemma ArrowTokenMatches(body: string, i: nat)
    requires NoLineTerminators(body) && HasAt(body, i, "=>")
    ensures ArrowGroup(body).Some?
  {
    assert body[i] == body[i..i + 2][0] == '=';
    assert ArrowStart(body) <= i;
    assert SkipSpaces(body, i) == i;
    assert ArrowEndAt(body, i);
  }

  /** A parameter name the arrow pattern cannot cut short: no white space, parenthesis, `=` or line terminator. */
  predicate BareWord(a: string) {
    forall i :: 0 <= i < |a| ==> !IsSpace(a[i]) && a[i] != '(' && a[i] != ')' && a[i] != '='
  }

  lemma BareWordNoArrowEnd(s: string, o: nat, a: string, c: nat)
    requires BareWord(a) && o <= c < o + |a| && o + |a| <= |s| && s[o..o + |a|] == a
    ensures !ArrowEndAt(s, c)
  {
    assert s[c] == a[c - o];
    assert SkipSpaces(s, c) == c;
  }

  lemma {:induction false} SkipSpacesTo(s: string, i: nat, n: nat)
    requires i <= n < |s| && AllSpace(s[i..n]) && !IsSpace(s[n])
    ensures SkipSpaces(s, i) == n
    decreases n - i
  {
    if i < n {
      assert s[i..n][0] == s[i];
      assert s[i + 1..n] == s[i..n][1..];
      SkipSpacesTo(s, i + 1, n);
    }
  }

  /** A match's capture is the trimmed text of its group. */
  lemma InspectGroup(body: string, shape: Shape, g: Group, text: string)
    requires ShapeGroup(body, shape) == Some(g) && body[g.lo..g.hi] == text
    ensures MatchInspector(body, shape) == Some(Trim(text))
  {
  }

  /** The lazy capture of the arrow pattern ends right after the bare word `a` at `o`. */
  lemma ArrowEndsAfterWord(s: string, o: nat, a: string, n: nat)
    requires BareWord(a) && o == ArrowStart(s) && o + |a| + o <= n && HasAt(s, n, "=>")
    requires s[o..o + |a|] == a
    requires o == 1 ==> s[o + |a|] == ')'
    requires AllSpace(s[o + |a| + o..n])
    ensures ArrowEndAt(s, o + |a|)
    ensures forall c: nat :: c < o + |a| ==> !ArrowEndAt(s, c)
  {
    var e := o + |a|;
    assert s[n] == s[n..n + 2][0];
    SkipSpacesTo(s, e + o, n);
    assert AllDots(s, o, e) by {
      forall m | o <= m < e ensures IsDot(s[m]) {
        assert s[m] == a[m - o];
      }
    }
    forall c: nat | c < e ensures !ArrowEndAt(s, c) {
      if o <= c {
        BareWordNoArrowEnd(s, o, a, c);
      }
    }
  }

  /**
    The arrow pattern captures the bare word `a` at `o` (`o == 1` when a `(` opens
    it, and then a `)` closes it) when white space and `=>` follow.
  */
  lemma ArrowCaptureAt(s: string, o: nat, a: string, n: nat)
    requires BareWord(a) && o == ArrowStart(s) && o + |a| + o <= n && HasAt(s, n, "=>")
    requires s[o..o + |a|] == a
    requires o == 1 ==> s[o + |a|] == ')'
    requires AllSpace(s[o + |a| + o..n])
    ensures MatchInspector(s, Arrow) == Some(a)
  {
    ArrowEndsAfterWord(s, o, a, n);
    ArrowGroupAt(s, o + |a|);
    InspectGroup(s, Arrow, Group(o, o + |a|), a);
    TrimTrimmed(a);
  }

  lemma ArrowBareCapture(a: string, sp: string, body: string)
    requires BareWord(a) && AllSpace(sp)
    ensures MatchInspector(a + sp + "=>" + body, Arrow) == Some(a)
  {
    var s := a + sp + "=>" + body;
    var n := |a| + |sp|;
    assert s[..|a|] == a;
    assert s[|a|..n] == sp;
    assert s[n..n + 2] == "=>";
    assert ArrowStart(s) == 0 by {
      if |a| > 0 {
        assert s[0] == a[0];
      } else if |sp| > 0 {
        assert s[0] == sp[0];
      } else {
        assert s[0] == '=';
      }
    }
    ArrowCaptureAt(s, 0, a, n);
  }

  lemma ArrowParenCapture(a: string, sp: string, body: string)
    requires BareWord(a) && AllSpace(sp)
    ensures MatchInspector("(" + a + ")" + sp + "=>" + body, Arrow) == Some(a)
  {
    var s := "(" + a + ")" + sp + "=>" + body;
    var n := |a| + 2 + |sp|;
    assert s[1..1 + |a|] == a;
    assert s[1 + |a|] == ')';
    assert s[2 + |a|..n] == sp;
    assert s[n..n + 2] == "=>";
    ArrowCaptureAt(s, 1, a, n);
  }

  /**
    The parentheses around a single arrow-function parameter are optional:
    `a => …` and `(a) => …` both capture `a`.
  */
  lemma ArrowParensOptional(a: string, sp: string, body: string)
    requires BareWord(a) && AllSpace(sp)
    ensures MatchInspector(a + sp + "=>" + body, Arrow) == Some(a)
    ensures MatchInspector("(" + a + ")" + sp + "=>" + body, Arrow) == Some(a)
  {
    ArrowBareCapture(a, sp, body);
    ArrowParenCapture(a, sp, body);
  }

  /**
    Where the regular-function pattern finds its parameters: the first `(` the
    lazy `.*?` reaches is at `p`, and `q` is the first `)` after it.
  */
  ghost predicate RegularLayout(s: string, p: nat, q: nat) {
    && RegularPrefix(s) && RegularBodyStart(s) <= p < q < |s|
    && s[p] == '(' && AllDots(s, RegularBodyStart(s), p)
    && (forall m :: RegularBodyStart(s) <= m < p ==> s[m] != '(')
    && s[q] == ')' && ')' !in s[p + 1..q]
  }

  /** The regular-function pattern's group under `RegularLayout`. */
  lemma RegularGroupFound(s: string, p: nat, q: nat)
    requires RegularLayout(s, p, q)
    ensures RegularGroup(s) == Some(Group(p + 1, q))
  {
    FirstInDotRunAt(s, '(', RegularBodyStart(s), p);
    FindFromAt(s, ')', p + 1, q);
  }

  lemma RegularCaptureFound(s: string, p: nat, q: nat, params: string)
    requires RegularLayout(s, p, q) && s[p + 1..q] == params
    ensures MatchInspector(s, Regular) == Some(Trim(params))
  {
    RegularGroupFound(s, p, q);
    InspectGroup(s, Regular, Group(p + 1, q), params);
  }

  /** A regular function text assembled from its parts has the layout the pattern needs. */
  lemma RegularDeclarationLayout(name: string, params: string, rest: string)
    requires '(' !in name && NoLineTerminators(name) && ')' !in params
    ensures var s := "function " + name + "(" + params + ")" + rest; var p := 9 + |name|;
      RegularLayout(s, p, p + 1 + |params|) && s[p + 1..p + 1 + |params|] == params
  {
    var s := "function " + name + "(" + params + ")" + rest;
    var p := 9 + |name|;
    var q := p + 1 + |params|;
    assert s[..8] == "function" && s[8] == ' ';
    assert s[9..p] == name && s[p] == '(' && s[p + 1..q] == params && s[q] == ')';
    assert RegularBodyStart(s) == 9;
    forall m | 9 <= m < p ensures IsDot(s[m]) && s[m] != '(' {
      assert s[m] == name[m - 9];
    }
  }

  /**
    A regular function declaration `function name(params)…` captures its trimmed
    parameter text, when the name holds no `(` and no line terminator and the
    parameters hold no `)`.
  */
  lemma RegularDeclarationCapture(name: string, params: string, rest: string)
    requires '(' !in name && NoLineTerminators(name) && ')' !in params
    ensures MatchInspector("function " + name + "(" + params + ")" + rest, Regular) == Some(Trim(params))
  {
    var s := "function " + name + "(" + params + ")" + rest;
    var p := 9 + |name|;
    RegularDeclarationLayout(name, params, rest);
    RegularCaptureFound(s, p, p + 1 + |params|, params);
  }

  /** Inside parentheses without `)` or `>`, the lazy arrow capture cannot end. */
  lemma NoArrowEndInside(s: string, e: nat, c: nat)
    requires 1 <= c < e < |s| && s[e] == ')'
    requires ')' !in s[1..e] && '>' !in s[1..e]
    ensures !ArrowEndAt(s, c)
  {
    assert s[c] == s[1..e][c - 1];
    var j := SkipSpaces(s, c);
    assert j <= e;
    assert j < e ==> s[j + 1] != '>' by {
      if j + 1 < e {
        assert s[j + 1] == s[1..e][j];
      }
    }
    if j + 2 <= |s| {
      assert s[j..j + 2][0] == s[j] && s[j..j + 2][1] == s[j + 1];
    }
  }

  /**
    An arrow function `(params) => …` captures its trimmed parameter text, when
    the parameters hold no `)`, no `>` and no line terminator.
  */
  lemma ArrowDeclarationCapture(params: string, sp: string, body: string)
    requires ')' !in params && '>' !in params && NoLineTerminators(params) && AllSpace(sp)
    ensures MatchInspector("(" + params + ")" + sp + "=>" + body, Arrow) == Some(Trim(params))
  {
    var s := "(" + params + ")" + sp + "=>" + body;
    var e := 1 + |params|;
    var n := e + 1 + |sp|;
    assert s[1..e] == params && s[e] == ')' && s[e + 1..n] == sp && s[n..n + 2] == "=>";
    assert ArrowStart(s) == 1;
    SkipSpacesTo(s, e + 1, n);
    assert AllDots(s, 1, e) by {
      forall m | 1 <= m < e ensures IsDot(s[m]) {
        assert s[m] == params[m - 1];
      }
    }
    assert ArrowEndAt(s, e);
    forall c: nat | 1 <= c < e ensures !ArrowEndAt(s, c) {
      NoArrowEndInside(s, e, c);
    }
    assert ArrowGroup(s) == Some(Group(1, e));
  }

  /** The word `constructor` does not overlap itself. */
  lemma ConstructorNoOverlap(s: string, k0: nat, k: nat)
    requires HasAt(s, k0, "constructor") && k0 < k < k0 + 11
    ensures !HasAt(s, k, "constructor")
  {
    var w := "constructor";
    assert forall m :: k0 <= m < k0 + 11 ==> s[m] == w[m - k0];
    if k + 11 <= |s| {
      if k - k0 == 7 {
        assert s[k..k + 11][1] == s[k + 1] == 't';
      } else {
        assert s[k..k + 11][0] == s[k] != 'c';
      }
    }
  }

  /** Under `ConstructorLayout`, the greedy `.*` stops at `k0`. */
  lemma ConstructorAnchorAt(s: string, k0: nat, j: nat, q: nat)
    requires ConstructorPrefix(s) && 6 <= k0 && k0 + 11 <= j < q < |s|
    requires AllDots(s, 6, k0) && HasAt(s, k0, "constructor")
    requires AllSpace(s[k0 + 11..j]) && s[j] == '(' && s[q] == ')'
    requires forall k: nat :: j < k ==> !HasAt(s, k, "constructor")
    ensures SkipSpaces(s, k0 + 11) == j
    ensures ConstructorAnchor(s) == Some(k0)
  {
    SkipSpacesTo(s, k0 + 11, j);
    assert ')' in s[j + 1..] by {
      assert s[j + 1..][q - j - 1] == ')';
    }
    assert ConstructorAt(s, k0);
    LastConstructor(s, k0, j);
    AnchorIsLastConstructor(s, k0);
  }

  /** The greedy `.*` stops at the last `constructor` that can complete a match. */
  lemma AnchorIsLastConstructor(s: string, k0: nat)
    requires ConstructorAt(s, k0) && forall k: nat :: k0 < k ==> !HasAt(s, k, "constructor")
    ensures ConstructorAnchor(s) == Some(k0)
  {
  }

  /** No `constructor` follows the one at `k0` when only white space separates it from `j`. */
  lemma LastConstructor(s: string, k0: nat, j: nat)
    requires k0 + 11 <= j < |s| && HasAt(s, k0, "constructor") && AllSpace(s[k0 + 11..j]) && s[j] == '('
    requires forall k: nat :: j < k ==> !HasAt(s, k, "constructor")
    ensures forall k: nat :: k0 < k ==> !HasAt(s, k, "constructor")
  {
    forall k: nat | k0 < k ensures !HasAt(s, k, "constructor") {
      if k < k0 + 11 {
        ConstructorNoOverlap(s, k0, k);
      } else if k <= j && k + 11 <= |s| {
        assert k < j ==> s[k] == s[k0 + 11..j][k - k0 - 11];
        assert s[k..k + 11][0] == s[k] != 'c';
      }
    }
  }

  /**
    Where the constructor pattern finds its parameters: the last `constructor` of
    the text is at `k0`, white space runs from it to the `(` at `j`, and `q` is the
    first `)` after that.
  */
  ghost predicate ConstructorLayout(s: string, k0: nat, j: nat, q: nat) {
    && ConstructorPrefix(s) && 6 <= k0 && k0 + 11 <= j < q < |s|
    && AllDots(s, 6, k0) && HasAt(s, k0, "constructor")
    && AllSpace(s[k0 + 11..j]) && s[j] == '(' && s[q] == ')' && ')' !in s[j + 1..q]
    && (forall k: nat :: j < k ==> !HasAt(s, k, "constructor"))
  }

  /** The constructor pattern's group and capture under `ConstructorLayout`. */
  lemma ConstructorGroupFound(s: string, k0: nat, j: nat, q: nat)
    requires ConstructorLayout(s, k0, j, q)
    ensures ConstructorGroup(s) == Some(Group(j + 1, q))
  {
    ConstructorAnchorAt(s, k0, j, q);
    FindFromAt(s, ')', j + 1, q);
    ConstructorGroupAt(s, k0, j, q);
  }

  lemma ConstructorCaptureFound(s: string, k0: nat, j: nat, q: nat, params: string)
    requires ConstructorLayout(s, k0, j, q) && s[j + 1..q] == params
    ensures MatchInspector(s, Constructor) == Some(Trim(params))
  {
    ConstructorGroupFound(s, k0, j, q);
    InspectGroup(s, Constructor, Group(j + 1, q), params);
  }

  /** A class text assembled from its parts has the layout the constructor pattern needs. */
  lemma ConstructorDeclarationLayout(w: char, mid: string, sp: string, params: string, rest: string)
    requires IsSpace(w) && NoLineTerminators(mid) && AllSpace(sp) && ')' !in params
    requires forall k: nat :: !HasAt(params + ")" + rest, k, "constructor")
    ensures var s := "class" + [w] + mid + "constructor" + sp + "(" + params + ")" + rest;
      var j := 6 + |mid| + 11 + |sp|;
      ConstructorLayout(s, 6 + |mid|, j, j + 1 + |params|) && s[j + 1..j + 1 + |params|] == params
  {
    var head := "class" + [w] + mid + "constructor" + sp;
    var tail := params + ")" + rest;
    var s := head + "(" + params + ")" + rest;
    var k0 := 6 + |mid|;
    var j := k0 + 11 + |sp|;
    var q := j + 1 + |params|;
    ClassHead(w, mid, sp);
    assert s[j] == '(' && s[j + 1..] == tail && s[j + 1..q] == params && s[q] == ')';
    HeadSlice(head, "(" + tail, 0, 5);
    HeadSlice(head, "(" + tail, 6, k0);
    HeadSlice(head, "(" + tail, k0, k0 + 11);
    HeadSlice(head, "(" + tail, k0 + 11, j);
    assert s == head + ("(" + tail);
    assert s[5] == head[5];
    assert AllDots(s, 6, k0) by {
      forall m | 6 <= m < k0 ensures IsDot(s[m]) {
        assert s[m] == s[6..k0][m - 6] == mid[m - 6];
      }
    }
    NoConstructorInTail(s, j, tail);
  }

  /** The parts of a class text up to the constructor's `(`. */
  lemma ClassHead(w: char, mid: string, sp: string)
    ensures var head := "class" + [w] + mid + "constructor" + sp; var k0 := 6 + |mid|;
      && |head| == k0 + 11 + |sp| && head[..5] == "class" && head[5] == w
      && head[6..k0] == mid && head[k0..k0 + 11] == "constructor" && head[k0 + 11..] == sp
  {
  }

  /** A slice inside the first part of a concatenation. */
  lemma HeadSlice(head: string, tail: string, a: nat, b: nat)
    requires a <= b <= |head|
    ensures (head + tail)[a..b] == head[a..b]
  {
  }

  /** A text whose tail after `j` never holds `constructor` has none after `j`. */
  lemma NoConstructorInTail(s: string, j: nat, tail: string)
    requires j < |s| && s[j + 1..] == tail
    requires forall k: nat :: !HasAt(tail, k, "constructor")
    ensures forall k: nat :: j < k ==> !HasAt(s, k, "constructor")
  {
    forall k: nat | j < k ensures !HasAt(s, k, "constructor") {
      if k + 11 <= |s| {
        assert s[k..k + 11] == tail[k - j - 1..k - j - 1 + 11];
        assert !HasAt(tail, k - j - 1, "constructor");
      }
    }
  }

  /**
    A class whose text is `class` and one white-space character, then text
    without line terminators, then `constructor(params)` and a rest in which the
    word `constructor` does not occur, captures the trimmed constructor parameters.
  */
  lemma ConstructorDeclarationCapture(w: char, mid: string, sp: string, params: string, rest: string)
    requires IsSpace(w) && NoLineTerminators(mid) && AllSpace(sp) && ')' !in params
    requires forall k: nat :: !HasAt(params + ")" + rest, k, "constructor")
    ensures MatchInspector("class" + [w] + mid + "constructor" + sp + "(" + params + ")" + rest, Constructor)
      == Some(Trim(params))
  {
    var s := "class" + [w] + mid + "constructor" + sp + "(" + params + ")" + rest;
    var j := 6 + |mid| + 11 + |sp|;
    ConstructorDeclarationLayout(w, mid, sp, params, rest);
    ConstructorCaptureFound(s, 6 + |mid|, j, j + 1 + |params|, params);
  }

  // ---------------------------------------------------------------------------
  // Token classification

  /** `restStrategy`'s test: the first character is `.` (the rest marker is `...`). */
  predicate IsRestToken(value: string) {
    |value| > 0 && value[0] == '.'
  }

  /**
    The classification of one comma-separated piece, as a decision table tried in
    order: a rest token drops its first three characters (and keeps any `= default`);
    otherwise a token with `=` is named by the trimmed text before its first `=`;
    otherwise the trimmed token is the name.
  */
  function ClassifyToken(arg: string): (p: Param)
    ensures p.rest <==> IsRestToken(Trim(arg))
    ensures p.rest ==> p.name == Substr(Trim(arg), 3)
    ensures !p.rest ==> p.name == Trim(Trim(arg)[..IndexOrLength(Trim(arg), '=')])
    ensures !p.rest ==> Trimmed(p.name) && '=' !in p.name
  {
    var value := Trim(arg);
    if IsRestToken(value) then Param(Substr(value, 3), true)
    else if '=' in value then
      NameBeforeEquals(value);
      Param(Trim(Split(value, '=')[0]), false)
    else
      NameWithoutEquals(arg);
      Param(value, false)
  }

  /** `split('=')[0]` is the text before the first `=`, and its trim holds no `=`. */
  lemma NameBeforeEquals(value: string)
    ensures Trim(Split(value, '=')[0]) == Trim(value[..IndexOrLength(value, '=')])
    ensures '=' !in Trim(Split(value, '=')[0])
  {
    SplitHead(value, '=');
  }

  /** A trimmed token without `=` is its own name. */
  lemma NameWithoutEquals(arg: string)
    requires '=' !in Trim(arg)
    ensures Trim(arg) == Trim(Trim(arg)[..IndexOrLength(Trim(arg), '=')])
    ensures Trimmed(Trim(arg))
  {
    var value := Trim(arg);
    assert value[..IndexOrLength(value, '=')] == value;
    TrimIdempotent(arg);
  }

  /** A token with neither the rest marker nor `=` is named by itself, trimmed. */
  lemma ClassifyPlain(arg: string)
    requires !IsRestToken(Trim(arg)) && '=' !in Trim(arg)
    ensures ClassifyToken(arg) == Param(Trim(arg), false)
  {
    assert Trim(arg)[..|Trim(arg)|] == Trim(arg);
    TrimIdempotent(arg);
  }

  /** A rest token is named by its text after the first three characters. */
  lemma ClassifyRest(arg: string, value: string)
    requires Trim(arg) == value && IsRestToken(value)
    ensures ClassifyToken(arg) == Param(Substr(value, 3), true)
  {
  }

  /**
    The rest test runs first, so a rest token with a default keeps its `=` part:
    `...args = []` is named `args = []`.
  */
  lemma ClassifyRestKeepsDefault(arg: string)
    requires IsRestToken(Trim(arg)) && |Trim(arg)| >= 3 && '=' in Trim(arg)[3..]
    ensures ClassifyToken(arg).rest && '=' in ClassifyToken(arg).name
  {
  }

  /** The mutable `context` record the strategies fill in: `{ name, rest }`. */
  class Context {
    var name: string
    var rest: bool

    constructor (value: string)
      ensures name == value && !rest
    {
      name := value;
      rest := false;
    }
  }

  /** `restStrategy`: on a rest token, mark the context as rest and drop three characters. */
  method RestStrategy(context: Context, value: string) returns (applied: bool)
    modifies context
    ensures applied <==> IsRestToken(value)
    ensures applied ==> context.rest && context.name == Substr(value, 3)
    ensures !applied ==> unchanged(context)
  {
    applied := IsRestToken(value);
    if applied {
      context.rest := true;
      context.name := Substr(value, 3);
    }
  }

  /** `assignmentStrategy`: on a token with `=`, name the context by the trimmed text before it. */
  method AssignmentStrategy(context: Context, value: string) returns (applied: bool)
    modifies context
    ensures applied <==> '=' in value
    ensures applied ==> context.name == Trim(Split(value, '=')[0]) && context.rest == old(context.rest)
    ensures !applied ==> unchanged(context)
  {
    applied := '=' in value;
    if applied {
      context.name := Trim(Split(value, '=')[0]);
    }
  }

  /**
    The callback of `buildTokens`' `map`: a fresh `{name: value, rest: false}`
    record, then `restStrategy(...) || assignmentStrategy(...)`.
  */
  method Classify(arg: string) returns (p: Param)
    ensures p == ClassifyToken(arg)
  {
    var value := Trim(arg);
    var result := new Context(value);
    var applied := RestStrategy(result, value);
    if !applied {
      applied := AssignmentStrategy(result, value);
    }
    p := Param(result.name, result.rest);
  }

  // ---------------------------------------------------------------------------
  // buildTokens

  /** JavaScript falsiness of the captured text: null, undefined or the empty string. */
  predicate Falsy(argsStr: Option<string>) {
    argsStr.None? || argsStr.value == ""
  }

  /**
    `buildTokens`: a falsy capture gives no descriptors; otherwise there is one
    descriptor per comma-separated piece of the comment-stripped text, in order,
    empty pieces included (`filter(Boolean)` keeps every descriptor, since each is
    an object and objects are truthy).
  */
  function BuildTokens(argsStr: Option<string>): (tokens: seq<Param>)
    ensures Falsy(argsStr) ==> tokens == []
    ensures !Falsy(argsStr) ==> |tokens| == Count(StripComments(argsStr.value), ',') + 1
    ensures !Falsy(argsStr) ==> forall i :: 0 <= i < |tokens| ==>
      tokens[i] == ClassifyToken(Split(StripComments(argsStr.value), ',')[i])
  {
    if Falsy(argsStr) then []
    else
      var pieces := Split(StripComments(argsStr.value), ',');
      seq(|pieces|, i requires 0 <= i < |pieces| => ClassifyToken(pieces[i]))
  }

  /**
    The descriptors of a capture are the classified pieces between its commas:
    for pieces without commas or comment openers, joined by commas, each piece
    gives one descriptor, in order.
  */
  lemma {:induction false} BuildTokensOfJoin(pieces: seq<string>)
    requires |pieces| >= 1 && Join(pieces, ',') != ""
    requires forall i :: 0 <= i < |pieces| ==> ',' !in pieces[i] && '/' !in pieces[i]
    ensures BuildTokens(Some(Join(pieces, ','))) == seq(|pieces|, i requires 0 <= i < |pieces| => ClassifyToken(pieces[i]))
  {
    var text := Join(pieces, ',');
    JoinWithout(pieces, ',', '/');
    StripCommentsNoSlash(text);
    SplitJoin(pieces, ',');
  }

  lemma {:induction false} JoinWithout(pieces: seq<string>, sep: char, c: char)
    requires sep != c
    requires forall i :: 0 <= i < |pieces| ==> c !in pieces[i]
    ensures c !in Join(pieces, sep)
  {
    if |pieces| > 1 {
      JoinWithout(pieces[1..], sep, c);
    }
  }

  /** Text without `/` holds no comment to strip. */
  lemma {:induction false} StripCommentsNoSlash(s: string)
    requires '/' !in s
    ensures StripComments(s) == s
  {
    assert NoCommentIn(s);
    StripCommentsIdentity(s);
  }

  // ---------------------------------------------------------------------------
  // create(config) and the extractor it returns

  /** The configuration object passed to `create`; `None` is a key left undefined. */
  datatype Options = Options(arrow: Option<bool>, clazz: Option<bool>, regular: Option<bool>)

  /** The three flags the extractor closes over. */
  datatype Config = Config(arrow: bool, clazz: bool, regular: bool)

  /**
    `create`'s parameter defaults: with no configuration object every shape is
    enabled (`defaultOptions`); with one, each flag it leaves undefined is off.
  */
  function Create(options: Option<Options>): (cfg: Config)
    ensures options.None? ==> cfg.arrow && cfg.clazz && cfg.regular
    ensures options.Some? ==> (cfg.arrow <==> options.value.arrow == Some(true))
    ensures options.Some? ==> (cfg.clazz <==> options.value.clazz == Some(true))
    ensures options.Some? ==> (cfg.regular <==> options.value.regular == Some(true))
  {
    match options
    case None => Config(true, true, true)
    case Some(o) => Config(o.arrow == Some(true), o.clazz == Some(true), o.regular == Some(true))
  }

  /** The module's default export: the extractor built with no configuration. */
  function DefaultConfig(): (cfg: Config)
    ensures cfg.arrow && cfg.clazz && cfg.regular
  {
    Create(None)
  }

  /**
    What each guarded step of the extractor would produce, in priority order:
    constructor, arrow, regular; a disabled shape leaves `argsStr` undefined.
  */
  function Attempts(cfg: Config, body: string): (a: seq<Option<string>>)
    ensures |a| == 3
  {
    [ if cfg.clazz then MatchInspector(body, Constructor) else None,
      if cfg.arrow then MatchInspector(body, Arrow) else None,
      if cfg.regular then MatchInspector(body, Regular) else None ]
  }

  /** The index of the first attempt that is not falsy. */
  function FirstTruthy(attempts: seq<Option<string>>): (r: Option<nat>)
    ensures r.Some? ==> r.value < |attempts| && !Falsy(attempts[r.value])
    ensures r.Some? ==> forall j :: 0 <= j < r.value ==> Falsy(attempts[j])
    ensures r.None? ==> forall j :: 0 <= j < |attempts| ==> Falsy(attempts[j])
  {
    if attempts == [] then None
    else if !Falsy(attempts[0]) then Some(0)
    else
      match FirstTruthy(attempts[1..])
      case None => None
      case Some(i) => Some(i + 1)
  }

  /**
    The capture the extractor works on: that of the first enabled shape, in
    priority order, whose capture is non-empty.
  */
  function SelectCapture(cfg: Config, body: string): (r: Option<string>)
    ensures r.Some? ==> r.value != ""
  {
    var attempts := Attempts(cfg, body);
    match FirstTruthy(attempts)
    case None => None
    case Some(i) => attempts[i]
  }

  lemma FirstTruthyOfThree(a: seq<Option<string>>)
    requires |a| == 3
    ensures FirstTruthy(a) ==
      if !Falsy(a[0]) then Some(0) else if !Falsy(a[1]) then Some(1) else if !Falsy(a[2]) then Some(2) else None
  {
  }

  /**
    Priority: the constructor capture when that shape is enabled and its capture
    is non-empty, else the arrow capture under the same condition, else the
    regular-function capture, else nothing.
  */
  lemma SelectCapturePriority(cfg: Config, body: string)
    ensures SelectCapture(cfg, body) ==
      if cfg.clazz && !Falsy(MatchInspector(body, Constructor)) then MatchInspector(body, Constructor)
      else if cfg.arrow && !Falsy(MatchInspector(body, Arrow)) then MatchInspector(body, Arrow)
      else if cfg.regular && !Falsy(MatchInspector(body, Regular)) then MatchInspector(body, Regular)
      else None
  {
    FirstTruthyOfThree(Attempts(cfg, body));
  }

  /**
    The extractor returned by `create`: strip the `'\n'` characters, run the
    enabled patterns through three guarded steps (each only while the capture so
    far is falsy), and build the descriptors of the result.
  */
  method Extract(cfg: Config, source: string) returns (params: seq<Param>)
    ensures params == BuildTokens(SelectCapture(cfg, RemoveNewlines(source)))
    ensures !cfg.arrow && !cfg.clazz && !cfg.regular ==> params == []
  {
    var fnBody := RemoveNewlines(source);
    SelectCapturePriority(cfg, fnBody);
    var argsStr: Option<string> := None;
    if cfg.clazz {
      argsStr := MatchInspector(fnBody, Constructor);
    }
    if Falsy(argsStr) && cfg.arrow {
      argsStr := MatchInspector(fnBody, Arrow);
    }
    if Falsy(argsStr) && cfg.regular {
      argsStr := MatchInspector(fnBody, Regular);
    }
    params := BuildTokens(argsStr);
  }

  /** With only `arrow` set, text without `=>` gives no descriptors. */
  lemma ArrowOnlyIgnoresOtherShapes(body: string)
    requires forall i: nat :: !HasAt(body, i, "=>")
    ensures BuildTokens(SelectCapture(Create(Some(Options(Some(true), None, None))), body)) == []
  {
    ArrowMatchesArrowToken(body);
    SelectCapturePriority(Create(Some(Options(Some(true), None, None))), body);
  }

  /** With only `regular` set, text that does not start with `function` gives no descriptors. */
  lemma RegularOnlyIgnoresOtherShapes(body: string)
    requires !StartsWith(body, "function")
    ensures BuildTokens(SelectCapture(Create(Some(Options(None, None, Some(true)))), body)) == []
  {
    if MatchInspector(body, Regular).Some? {
      RegularCaptureShape(body);
    }
    SelectCapturePriority(Create(Some(Options(None, None, Some(true)))), body);
  }

  /** With only `class` set, text that does not start with `class` and white space gives no descriptors. */
  lemma ClassOnlyIgnoresOtherShapes(body: string)
    requires !(StartsWith(body, "class") && |body| > 5 && IsSpace(body[5]))
    ensures BuildTokens(SelectCapture(Create(Some(Options(None, Some(true), None))), body)) == []
  {
    SelectCapturePriority(Create(Some(Options(None, Some(true), None))), body);
  }
}
