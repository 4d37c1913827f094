/**
  The four regular expressions of argumentsOf.js, hand-coded as scanners over the
  source text (after its `'\n'` removal):

    ARROW_FN_MATCHER       /^\(?(.*?)\)?\s*?=>/
    CONSTRUCTOR_MATCHER    /^class\s.*constructor\s*?\(([^)]*?)\)/
    INLINE_COMMENT_MATCHER /\/\*.*\*\//g
    REGULAR_FN_MATCHER     /^function\s?.*?\(([^)]*?)\)/

  For each one a predicate says declaratively where a match can be anchored, and
  a search function picks the anchor that the backtracking order of ECMAScript
  regular expressions picks: the first for a lazy quantifier, the last for a
  greedy one. A match's capture group 1 is a `Group`, the range `s[lo..hi]`.
*/
module Patterns {
  import opened Wrappers
  import opened Text

  datatype Group = Group(lo: nat, hi: nat)

  predicate InBounds(s: string, g: Group) {
    g.lo <= g.hi <= |s|
  }

  /** `s[lo..hi]` is a run that `.*` can cross: no line terminator in it. */
  predicate AllDots(s: string, lo: nat, hi: nat)
    requires lo <= hi <= |s|
  {
    forall m :: lo <= m < hi ==> IsDot(s[m])
  }

  /** The end of the longest dot run from `i`: how far a greedy `.*` reaches. */
  function DotRunEnd(s: string, i: nat): (e: nat)
    requires i <= |s|
    ensures i <= e <= |s| && AllDots(s, i, e)
    ensures e < |s| ==> !IsDot(s[e])
    decreases |s| - i
  {
    if i < |s| && IsDot(s[i]) then DotRunEnd(s, i + 1) else i
  }

  /** Where a run of `\s` from `i` stops. */
  function SkipSpaces(s: string, i: nat): (j: nat)
    requires i <= |s|
    ensures i <= j <= |s| && AllSpace(s[i..j])
    ensures j < |s| ==> !IsSpace(s[j])
    decreases |s| - i
  {
    if i < |s| && IsSpace(s[i]) then SkipSpaces(s, i + 1) else i
  }

  /** The first `c` at or after `i`: where a lazy `[^c]*?` followed by `c` stops. */
  function FindFrom(s: string, c: char, i: nat): (r: Option<nat>)
    requires i <= |s|
    ensures r.Some? ==> i <= r.value < |s| && s[r.value] == c && c !in s[i..r.value]
    ensures r.None? ==> c !in s[i..]
    decreases |s| - i
  {
    if i == |s| then None
    else if s[i] == c then Some(i)
    else
      var r := FindFrom(s, c, i + 1);
      assert s[i..] == [s[i]] + s[i + 1..];
      assert r.Some? ==> s[i..r.value] == [s[i]] + s[i + 1..r.value];
      r
  }

  lemma NotInSuffix(s: string, c: char, i: nat)
    requires i <= |s| && c !in s[i..]
    ensures forall j :: i <= j <= |s| ==> c !in s[j..]
  {
    forall j | i <= j <= |s| ensures c !in s[j..] {
      assert s[j..] == s[i..][j - i..];
    }
  }

  /** `FindFrom` stops at the first `c` from `i`. */
  lemma FindFromAt(s: string, c: char, i: nat, q: nat)
    requires i <= q < |s| && s[q] == c && c !in s[i..q]
    ensures FindFrom(s, c, i) == Some(q)
  {
    var r := FindFrom(s, c, i);
    assert s[i..][q - i] == c;
    assert forall m :: i <= m < q ==> s[m] != c by {
      forall m | i <= m < q ensures s[m] != c {
        assert s[i..q][m - i] == s[m];
      }
    }
    assert forall m :: i <= m < r.value ==> s[m] != c by {
      forall m | i <= m < r.value ensures s[m] != c {
        assert s[i..r.value][m - i] == s[m];
      }
    }
  }

  /** `s[hi]` is the first `)` from `lo`: the `([^)]*?)\)` tail of two of the patterns. */
  predicate IsNextClose(s: string, lo: nat, hi: nat) {
    lo <= hi < |s| && s[hi] == ')' && ')' !in s[lo..hi]
  }

  // ---------------------------------------------------------------------------
  // REGULAR_FN_MATCHER  /^function\s?.*?\(([^)]*?)\)/

  predicate RegularPrefix(s: string) {
    StartsWith(s, "function")
  }

  /**
    Where `.*?` starts. The greedy `\s?` takes a white-space character at index 8
    when there is one; backtracking to the empty `\s?` never finds another match,
    since a white-space character is not `(` and a line terminator is not a dot.
  */
  function RegularBodyStart(s: string): nat
    requires RegularPrefix(s)
  {
    if |s| > 8 && IsSpace(s[8]) then 9 else 8
  }

  /** A `(` at `p` that the lazy `.*?` of the regular-function pattern can reach. */
  predicate RegularOpenAt(s: string, p: nat) {
    && RegularPrefix(s)
    && RegularBodyStart(s) <= p < |s|
    && s[p] == '('
    && AllDots(s, RegularBodyStart(s), p)
  }

  /** The first `c` at or after `i` that a run of dots reaches. */
  function FirstInDotRun(s: string, c: char, i: nat): (r: Option<nat>)
    requires i <= |s|
    ensures r.Some? ==> i <= r.value < |s| && s[r.value] == c && AllDots(s, i, r.value)
    ensures r.Some? ==> forall p :: i <= p < r.value ==> s[p] != c
    ensures r.None? ==> forall p :: i <= p < |s| && s[p] == c ==> !AllDots(s, i, p)
    decreases |s| - i
  {
    if i == |s| then None
    else if s[i] == c then Some(i)
    else if !IsDot(s[i]) then None
    else
      var r := FirstInDotRun(s, c, i + 1);
      assert forall p :: i + 1 <= p < |s| && AllDots(s, i, p) ==> AllDots(s, i + 1, p);
      r
  }

  /** The first `c` of a dot run starting at `i`. */
  lemma FirstInDotRunAt(s: string, c: char, i: nat, p: nat)
    requires i <= p < |s| && s[p] == c && AllDots(s, i, p)
    requires forall m :: i <= m < p ==> s[m] != c
    ensures FirstInDotRun(s, c, i) == Some(p)
  {
  }

  /**
    The capture group of REGULAR_FN_MATCHER: the text after the leftmost reachable
    `(` up to the first `)` after it. When that `(` has no `)` after it no later
    `(` has one either, so there is no match at all.
  */
  function RegularGroup(s: string): (g: Option<Group>)
    ensures g.Some? ==> 1 <= g.value.lo && RegularOpenAt(s, g.value.lo - 1) && IsNextClose(s, g.value.lo, g.value.hi)
    ensures g.Some? ==> forall p :: RegularOpenAt(s, p) ==> g.value.lo - 1 <= p
    ensures g.None? ==> forall p :: RegularOpenAt(s, p) ==> ')' !in s[p + 1..]
  {
    if !RegularPrefix(s) then None
    else
      match FirstInDotRun(s, '(', RegularBodyStart(s))
      case None => None
      case Some(p) =>
        match FindFrom(s, ')', p + 1)
        case None =>
          NotInSuffix(s, ')', p + 1);
          None
        case Some(q) => Some(Group(p + 1, q))
  }

  // ---------------------------------------------------------------------------
  // CONSTRUCTOR_MATCHER  /^class\s.*constructor\s*?\(([^)]*?)\)/

  predicate ConstructorPrefix(s: string) {
    StartsWith(s, "class") && |s| > 5 && IsSpace(s[5])
  }

  /**
    The word `constructor` at `k` can end the `.*` of the constructor pattern: the
    dots reach it from index 6, and after it come white space, `(` and, somewhere
    later, a `)`.
  */
  predicate ConstructorAt(s: string, k: nat) {
    && ConstructorPrefix(s)
    && 6 <= k && k + 11 <= |s|
    && AllDots(s, 6, k)
    && HasAt(s, k, "constructor")
    && var j := SkipSpaces(s, k + 11);
       j < |s| && s[j] == '(' && ')' in s[j + 1..]
  }

  /** The last `k'` in `[6, k]` with `ConstructorAt(s, k')`. */
  function LastConstructorUpTo(s: string, k: nat): (r: Option<nat>)
    ensures r.Some? ==> 6 <= r.value <= k && ConstructorAt(s, r.value)
    ensures r.Some? ==> forall k' :: r.value < k' <= k ==> !ConstructorAt(s, k')
    ensures r.None? ==> forall k': nat :: k' <= k ==> !ConstructorAt(s, k')
    decreases k
  {
    if k < 6 then None
    else if ConstructorAt(s, k) then Some(k)
    else LastConstructorUpTo(s, k - 1)
  }

  /**
    Where the greedy `.*` stops: it first runs to the end of the dot run and then
    backs off one character at a time, so the last `constructor` that can be
    completed wins.
  */
  function ConstructorAnchor(s: string): (r: Option<nat>)
    ensures r.Some? ==> ConstructorAt(s, r.value)
    ensures r.Some? ==> forall k :: r.value < k ==> !ConstructorAt(s, k)
    ensures r.None? ==> forall k :: !ConstructorAt(s, k)
  {
    if !ConstructorPrefix(s) then None
    else
      var e := DotRunEnd(s, 6);
      assert forall k :: e < k && 6 <= k <= |s| ==> !AllDots(s, 6, k);
      LastConstructorUpTo(s, e)
  }

  /** The capture group of CONSTRUCTOR_MATCHER. */
  function ConstructorGroup(s: string): (g: Option<Group>)
    ensures g.Some? ==> ConstructorPrefix(s) && IsNextClose(s, g.value.lo, g.value.hi)
    ensures g.None? ==> forall k :: !ConstructorAt(s, k)
  {
    match ConstructorAnchor(s)
    case None => None
    case Some(k) =>
      var j := SkipSpaces(s, k + 11);
      match FindFrom(s, ')', j + 1)
      case None => assert false; None
      case Some(q) => Some(Group(j + 1, q))
  }

  lemma ConstructorGroupAt(s: string, k0: nat, j: nat, q: nat)
    requires ConstructorAnchor(s) == Some(k0) && SkipSpaces(s, k0 + 11) == j
    requires j < |s| && FindFrom(s, ')', j + 1) == Some(q)
    ensures ConstructorGroup(s) == Some(Group(j + 1, q))
  {
  }

  /**
    The constructor pattern matches exactly when some `constructor` can be
    completed, and its capture then starts just after the `(` that follows the
    last completable one and its white space.
  */
  lemma ConstructorGroupStart(s: string)
    ensures ConstructorGroup(s).Some? <==> exists k: nat :: ConstructorAt(s, k)
    ensures ConstructorGroup(s).Some? ==> exists k: nat ::
      && ConstructorAt(s, k)
      && (forall k' :: k < k' ==> !ConstructorAt(s, k'))
      && ConstructorGroup(s).value.lo == SkipSpaces(s, k + 11) + 1
  {
    if k0: nat :| ConstructorAt(s, k0) {
      var k := ConstructorAnchor(s).value;
      assert ConstructorAt(s, k);
    }
  }

  // ---------------------------------------------------------------------------
  // ARROW_FN_MATCHER  /^\(?(.*?)\)?\s*?=>/

  /**
    Where the capture starts. The greedy `\(?` takes a leading `(`; backtracking to
    the empty `\(?` never finds a match the first attempt missed, since `(` is a dot
    and is neither `)`, white space nor `=`.
  */
  function ArrowStart(s: string): nat {
    if |s| > 0 && s[0] == '(' then 1 else 0
  }

  /** `\s*?=>` matches from `i`: after the white space comes `=>`. */
  predicate ArrowFollows(s: string, i: nat)
    requires i <= |s|
  {
    HasAt(s, SkipSpaces(s, i), "=>")
  }

  /** The lazy capture `(.*?)` can end at `c`: then an optional `)`, white space and `=>`. */
  predicate ArrowEndAt(s: string, c: nat) {
    && ArrowStart(s) <= c <= |s|
    && AllDots(s, ArrowStart(s), c)
    && (ArrowFollows(s, c) || (c < |s| && s[c] == ')' && ArrowFollows(s, c + 1)))
  }

  /** The first `c' >= c` where the lazy capture can end. */
  function FirstArrowEnd(s: string, c: nat): (r: Option<nat>)
    requires ArrowStart(s) <= c <= |s| && AllDots(s, ArrowStart(s), c)
    ensures r.Some? ==> c <= r.value && ArrowEndAt(s, r.value)
    ensures r.Some? ==> forall c' :: c <= c' < r.value ==> !ArrowEndAt(s, c')
    ensures r.None? ==> forall c' :: c <= c' ==> !ArrowEndAt(s, c')
    decreases |s| - c
  {
    if ArrowEndAt(s, c) then Some(c)
    else if c < |s| && IsDot(s[c]) then FirstArrowEnd(s, c + 1)
    else None
  }

  /** The capture group of ARROW_FN_MATCHER: the shortest capture that can end. */
  function ArrowGroup(s: string): (g: Option<Group>)
    ensures g.Some? ==> g.value.lo == ArrowStart(s) && ArrowEndAt(s, g.value.hi)
    ensures g.Some? ==> forall c: nat :: c < g.value.hi ==> !ArrowEndAt(s, c)
    ensures g.None? ==> forall c :: !ArrowEndAt(s, c)
  {
    match FirstArrowEnd(s, ArrowStart(s))
    case None => None
    case Some(c) => Some(Group(ArrowStart(s), c))
  }

  /** The arrow capture ends at the first place where it can end. */
  lemma ArrowGroupAt(s: string, e: nat)
    requires ArrowEndAt(s, e) && forall c: nat :: c < e ==> !ArrowEndAt(s, c)
    ensures ArrowGroup(s) == Some(Group(ArrowStart(s), e))
  {
  }

  // ---------------------------------------------------------------------------
  // INLINE_COMMENT_MATCHER  /\/\*.*\*\//g
  // Below, an opener is the two characters slash-star and a closer is star-slash.

  /** A match of the comment pattern at the start of `s` can end with the closer at `k`. */
  predicate CommentCloseAt(s: string, k: nat) {
    && StartsWith(s, "/*")
    && 2 <= k && k + 2 <= |s|
    && AllDots(s, 2, k)
    && s[k] == '*' && s[k + 1] == '/'
  }

  /** The last `k'` in `[2, k]` with `CommentCloseAt(s, k')`. */
  function LastCommentCloseUpTo(s: string, k: nat): (r: Option<nat>)
    ensures r.Some? ==> 2 <= r.value <= k && CommentCloseAt(s, r.value)
    ensures r.Some? ==> forall k' :: r.value < k' <= k ==> !CommentCloseAt(s, k')
    ensures r.None? ==> forall k': nat :: k' <= k ==> !CommentCloseAt(s, k')
    decreases k
  {
    if k < 2 then None
    else if CommentCloseAt(s, k) then Some(k)
    else LastCommentCloseUpTo(s, k - 1)
  }

  /**
    The end of the comment match at the start of `s`, if one is there. The greedy
    `.*` makes it end at the last closer of the dot run, not the first.
  */
  function CommentEnd(s: string): (r: Option<nat>)
    ensures r.Some? ==> 4 <= r.value <= |s| && CommentCloseAt(s, r.value - 2)
    ensures r.Some? ==> forall k :: r.value - 2 < k ==> !CommentCloseAt(s, k)
    ensures r.None? ==> forall k :: !CommentCloseAt(s, k)
  {
    if !StartsWith(s, "/*") then None
    else
      var e := DotRunEnd(s, 2);
      assert forall k :: e < k && 2 <= k <= |s| ==> !AllDots(s, 2, k);
      match LastCommentCloseUpTo(s, e)
      case None => None
      case Some(k) => Some(k + 2)
  }

  /**
    `replace(INLINE_COMMENT_MATCHER, '')`: the global replace scans left to right,
    deletes each match and resumes after it; a character where no match starts is kept.
  */
  function StripComments(s: string): (r: string)
    ensures |r| <= |s|
    ensures forall c | c in r :: c in s
    decreases |s|
  {
    if s == [] then ""
    else
      match CommentEnd(s)
      case Some(e) =>
        var r := StripComments(s[e..]);
        assert forall c | c in r :: c in s by {
          forall c | c in r ensures c in s {
            var i :| 0 <= i < |s[e..]| && s[e..][i] == c;
            assert s[e + i] == c;
          }
        }
        r
      case None =>
        var r := StripComments(s[1..]);
        assert forall c | c in r :: c in s by {
          forall c | c in r ensures c in s {
            var i :| 0 <= i < |s[1..]| && s[1..][i] == c;
            assert s[1 + i] == c;
          }
        }
        [s[0]] + r
  }

  /** No match of the comment pattern starts anywhere in `s`. */
  predicate NoCommentIn(s: string) {
    forall i :: 0 <= i < |s| ==> CommentEnd(s[i..]).None?
  }

  predicate NoLineTerminators(s: string) {
    forall i :: 0 <= i < |s| ==> IsDot(s[i])
  }

  /** Where no comment match starts, stripping changes nothing. */
  lemma {:induction false} StripCommentsIdentity(s: string)
    requires NoCommentIn(s)
    ensures StripComments(s) == s
  {
    if s != [] {
      assert s[0..] == s;
      forall i | 0 <= i < |s[1..]| ensures CommentEnd(s[1..][i..]).None? {
        assert s[1..][i..] == s[i + 1..];
      }
      StripCommentsIdentity(s[1..]);
      assert [s[0]] + s[1..] == s;
    }
  }

  lemma HasAtShift(s: string, j: nat, p: string)
    requires |s| > 0
    ensures HasAt(s[1..], j, p) <==> HasAt(s, j + 1, p)
  {
    if j + 1 + |p| <= |s| {
      assert s[1..][j..j + |p|] == s[j + 1..j + 1 + |p|];
    }
  }

  /** A comment match at `j` ends with a closer of `s` at least two characters after `j`. */
  lemma CommentMatchHasCloser(s: string, j: nat)
    requires j < |s|
    ensures CommentEnd(s[j..]).Some? ==> HasAt(s, j, "/*")
    ensures CommentEnd(s[j..]).Some? ==> HasAt(s, j + CommentEnd(s[j..]).value - 2, "*/")
  {
    var t := s[j..];
    if CommentEnd(t).Some? {
      var k := CommentEnd(t).value - 2;
      assert t[..2] == s[j..j + 2];
      assert s[j + k..j + k + 2] == [t[k], t[k + 1]];
    }
  }

  /**
    In text without line terminators, when no closer comes two or more characters
    after an opener, stripping comments changes nothing.
  */
  lemma StripCommentsNoPair(s: string)
    requires NoLineTerminators(s)
    requires forall i: nat, k: nat :: HasAt(s, i, "/*") && HasAt(s, k, "*/") ==> k < i + 2
    ensures StripComments(s) == s
  {
    forall j | 0 <= j < |s| ensures CommentEnd(s[j..]).None? {
      CommentMatchHasCloser(s, j);
    }
    StripCommentsIdentity(s);
  }

  /**
    In text without line terminators, stripping comments removes one span: from
    the first opener to the end of the last closer, because the `.*` of the pattern is
    greedy.
  */
  lemma {:induction false} StripCommentsSpan(s: string, i: nat, k: nat)
    requires NoLineTerminators(s)
    requires HasAt(s, i, "/*") && forall j: nat :: j < i ==> !HasAt(s, j, "/*")
    requires i + 2 <= k && HasAt(s, k, "*/") && forall j: nat :: k < j ==> !HasAt(s, j, "*/")
    ensures StripComments(s) == s[..i] + s[k + 2..]
  {
    if i == 0 {
      StripCommentsAtStart(s, k);
      assert s[..i] + s[k + 2..] == s[k + 2..];
    } else {
      SpanShift(s, i, k);
      StripCommentsSpan(s[1..], i - 1, k - 1);
      assert !HasAt(s, 0, "/*");
      StripCommentsKeepsFirst(s);
      SpanConcat(s, i, k, StripComments(s[1..]));
    }
  }

  /** Putting back the first character of `s` in front of the kept span of `s[1..]`. */
  lemma SpanConcat(s: string, i: nat, k: nat, r: string)
    requires 0 < i <= k && k + 2 <= |s|
    requires r == s[1..][..i - 1] + s[1..][k + 1..]
    ensures [s[0]] + r == s[..i] + s[k + 2..]
  {
    var u := s[1..];
    assert s[..i] == [s[0]] + u[..i - 1];
    assert s[k + 2..] == u[k + 1..];
  }

  /** The conditions of `StripCommentsSpan` carry over to the text after its first character. */
  lemma SpanShift(s: string, i: nat, k: nat)
    requires NoLineTerminators(s) && 0 < i
    requires HasAt(s, i, "/*") && forall j: nat :: j < i ==> !HasAt(s, j, "/*")
    requires i + 2 <= k && HasAt(s, k, "*/") && forall j: nat :: k < j ==> !HasAt(s, j, "*/")
    ensures NoLineTerminators(s[1..])
    ensures HasAt(s[1..], i - 1, "/*") && forall j: nat :: j < i - 1 ==> !HasAt(s[1..], j, "/*")
    ensures HasAt(s[1..], k - 1, "*/") && forall j: nat :: k - 1 < j ==> !HasAt(s[1..], j, "*/")
  {
    var u := s[1..];
    assert NoLineTerminators(u);
    HasAtShift(s, i - 1, "/*");
    HasAtShift(s, k - 1, "*/");
    forall j: nat | j < i - 1 ensures !HasAt(u, j, "/*") {
      HasAtShift(s, j, "/*");
    }
    forall j: nat | k - 1 < j ensures !HasAt(u, j, "*/") {
      HasAtShift(s, j, "*/");
    }
  }

  /** A character where no comment match starts is kept. */
  lemma StripCommentsKeepsFirst(s: string)
    requires s != [] && !HasAt(s, 0, "/*")
    ensures StripComments(s) == [s[0]] + StripComments(s[1..])
  {
    assert CommentEnd(s).None?;
  }

  /** A comment match at the start of `s` runs to the end of its last closer. */
  lemma CommentEndAtLastCloser(s: string, k: nat)
    requires NoLineTerminators(s) && HasAt(s, 0, "/*")
    requires 2 <= k && HasAt(s, k, "*/") && forall j: nat :: k < j ==> !HasAt(s, j, "*/")
    ensures CommentEnd(s) == Some(k + 2)
  {
    assert CommentCloseAt(s, k) by {
      assert s[k] == s[k..k + 2][0] && s[k + 1] == s[k..k + 2][1];
    }
    forall k': nat | k < k' ensures !CommentCloseAt(s, k') {
      if k' + 2 <= |s| {
        assert !HasAt(s, k', "*/");
        assert s[k'..k' + 2][0] == s[k'] && s[k'..k' + 2][1] == s[k' + 1];
      }
    }
  }

  /** After the last closer no comment match can start. */
  lemma NoCommentAfterLastCloser(s: string, k: nat)
    requires k + 2 <= |s| && forall j: nat :: k < j ==> !HasAt(s, j, "*/")
    ensures NoCommentIn(s[k + 2..])
  {
    var t := s[k + 2..];
    forall j | 0 <= j < |t| ensures CommentEnd(t[j..]).None? {
      assert t[j..] == s[k + 2 + j..];
      CommentMatchHasCloser(s, k + 2 + j);
    }
  }

  lemma StripCommentsAtStart(s: string, k: nat)
    requires NoLineTerminators(s) && HasAt(s, 0, "/*")
    requires 2 <= k && HasAt(s, k, "*/") && forall j: nat :: k < j ==> !HasAt(s, j, "*/")
    ensures StripComments(s) == s[k + 2..]
  {
    CommentEndAtLastCloser(s, k);
    NoCommentAfterLastCloser(s, k);
    StripCommentsIdentity(s[k + 2..]);
  }
}
