/**
  The cases of argumentsOf.test.js, restated on the source texts after their
  `'\n'` removal (function bodies shortened; the signatures are those of the tests).
  Each text is written as the concatenation of the parts of its signature.
*/
module Examples {
  import opened Wrappers
  import opened Text
  import opened Patterns
  import opened ArgumentsOf

  /**
    What the extractor configured by `cfg` returns for a source text: the value
    that `ArgumentsOf.Extract` is proved to return, as a function the lemmas can use.
  */
  function Inspect(cfg: Config, source: string): (params: seq<Param>)
    ensures !cfg.arrow && !cfg.clazz && !cfg.regular ==> params == []
  {
    SelectCapturePriority(cfg, RemoveNewlines(source));
    BuildTokens(SelectCapture(cfg, RemoveNewlines(source)))
  }

  /** A text without `'\n'` reaches the patterns unchanged. */
  lemma InspectOneLine(cfg: Config, source: string, capture: Option<string>)
    requires '\n' !in source && SelectCapture(cfg, source) == capture
    ensures Inspect(cfg, source) == BuildTokens(capture)
  {
  }

  // ---------------------------------------------------------------------------
  // Helpers on literal texts

  lemma NoWordWithoutItsFirstChar(s: string, w: string)
    requires |w| > 0 && w[0] !in s
    ensures forall k: nat :: !HasAt(s, k, w)
  {
    forall k: nat ensures !HasAt(s, k, w) {
      if k + |w| <= |s| {
        assert s[k..k + |w|][0] == s[k];
      }
    }
  }

  lemma NoArrowToken(s: string)
    requires '>' !in s
    ensures forall k: nat :: !HasAt(s, k, "=>")
  {
    forall k: nat ensures !HasAt(s, k, "=>") {
      if k + 2 <= |s| {
        assert s[k..k + 2][1] == s[k + 1];
      }
    }
  }

  /** Text without `>` is not an arrow function. */
  lemma NoArrow(s: string)
    requires '>' !in s
    ensures MatchInspector(s, Arrow) == None
  {
    NoArrowToken(s);
    ArrowMatchesArrowToken(s);
  }

  lemma FirstOfPrefix(s: string, p: string)
    requires |p| > 0 && StartsWith(s, p)
    ensures s[0] == p[0]
  {
    assert s[..|p|][0] == s[0];
  }

  /** Text that does not start with `c` is not a class. */
  lemma NotAClass(s: string)
    requires |s| == 0 || s[0] != 'c'
    ensures MatchInspector(s, Constructor) == None
  {
    if MatchInspector(s, Constructor).Some? {
      ConstructorCaptureShape(s);
      FirstOfPrefix(s, "class");
    }
  }

  /** Text that does not start with `f` is not a regular function. */
  lemma NotARegularFunction(s: string)
    requires |s| == 0 || s[0] != 'f'
    ensures MatchInspector(s, Regular) == None
  {
    if MatchInspector(s, Regular).Some? {
      RegularCaptureShape(s);
      FirstOfPrefix(s, "function");
    }
  }

  lemma IndexOrLengthAt(s: string, c: char, i: nat)
    requires i < |s| && s[i] == c && c !in s[..i]
    ensures IndexOrLength(s, c) == i
  {
  }

  // ---------------------------------------------------------------------------
  // Which pattern wins

  lemma ClassSelected(cfg: Config, s: string, c: string)
    requires cfg.clazz && MatchInspector(s, Constructor) == Some(c) && c != ""
    ensures SelectCapture(cfg, s) == Some(c)
  {
    SelectCapturePriority(cfg, s);
  }

  lemma ArrowSelected(cfg: Config, s: string, c: string)
    requires cfg.arrow && (|s| == 0 || s[0] != 'c')
    requires MatchInspector(s, Arrow) == Some(c) && c != ""
    ensures SelectCapture(cfg, s) == Some(c)
  {
    NotAClass(s);
    SelectCapturePriority(cfg, s);
  }

  lemma RegularSelected(cfg: Config, s: string, c: string)
    requires cfg.regular && (|s| == 0 || s[0] != 'c') && '>' !in s
    requires MatchInspector(s, Regular) == Some(c) && c != ""
    ensures SelectCapture(cfg, s) == Some(c)
  {
    NotAClass(s);
    NoArrow(s);
    SelectCapturePriority(cfg, s);
  }

  /** An empty capture is falsy, so the next pattern is tried. */
  lemma EmptyClassFallsThrough(cfg: Config, s: string)
    requires MatchInspector(s, Constructor) == Some("") && '>' !in s
    ensures SelectCapture(cfg, s) == None
  {
    ConstructorCaptureShape(s);
    FirstOfPrefix(s, "class");
    NoArrow(s);
    NotARegularFunction(s);
    SelectCapturePriority(cfg, s);
  }

  lemma EmptyArrowFallsThrough(cfg: Config, s: string)
    requires MatchInspector(s, Arrow) == Some("") && |s| > 0 && s[0] != 'c' && s[0] != 'f'
    ensures SelectCapture(cfg, s) == None
  {
    NotAClass(s);
    NotARegularFunction(s);
    SelectCapturePriority(cfg, s);
  }

  lemma EmptyRegularFallsThrough(cfg: Config, s: string)
    requires MatchInspector(s, Regular) == Some("") && |s| > 0 && s[0] != 'c' && '>' !in s
    ensures SelectCapture(cfg, s) == None
  {
    NotAClass(s);
    NoArrow(s);
    SelectCapturePriority(cfg, s);
  }

  // ---------------------------------------------------------------------------
  // Descriptors of the captures

  lemma PlainName(p: string, w: string)
    requires AllSpace(p) && Trimmed(w) && |w| > 0 && w[0] != '.' && '=' !in w
    ensures ClassifyToken(p + w) == Param(w, false)
  {
    TrimPadded(p, w, []);
    assert p + w + [] == p + w;
    ClassifyPlain(p + w);
  }

  lemma NameA()
    ensures ClassifyToken("a") == Param("a", false)
  {
    PlainName([], "a");
    assert [] + "a" == "a";
  }

  lemma NameB()
    ensures ClassifyToken(" " + "b") == Param("b", false)
  {
    PlainName(" ", "b");
  }

  /** A token `n = d` is named `n`. */
  lemma DefaultedName(n: string, d: string)
    requires Trimmed(n) && |n| > 0 && n[0] != '.' && '=' !in n && |d| > 0 && !IsSpace(d[|d| - 1])
    ensures ClassifyToken(n + " " + "=" + d) == Param(n, false)
  {
    DefaultedLayout(n, d);
    ClassifyNamed(n + " " + "=" + d, |n| + 1, n);
  }

  lemma DefaultedLayout(n: string, d: string)
    requires Trimmed(n) && |n| > 0 && '=' !in n && |d| > 0 && !IsSpace(d[|d| - 1])
    ensures var v := n + " " + "=" + d;
      && Trimmed(v) && v[0] == n[0] && v[..|n| + 1] == n + " "
      && v[|n| + 1] == '=' && '=' !in v[..|n| + 1] && Trim(v[..|n| + 1]) == n
  {
    var v := n + " " + "=" + d;
    assert v[0] == n[0] && v[|v| - 1] == d[|d| - 1];
    assert v[..|n| + 1] == n + " ";
    TrimPadded([], n, " ");
    assert [] + n + " " == n + " ";
  }

  /** A trimmed token whose first `=` is at `i` is named by the trimmed text before it. */
  lemma ClassifyNamed(v: string, i: nat, name: string)
    requires Trimmed(v) && !IsRestToken(v) && i < |v| && v[i] == '=' && '=' !in v[..i]
    requires Trim(v[..i]) == name
    ensures ClassifyToken(v) == Param(name, false)
  {
    TrimTrimmed(v);
    IndexOrLengthAt(v, '=', i);
  }

  lemma DefaultedA()
    ensures ClassifyToken(DEFAULTED_A) == Param("a", false)
  {
    DefaultedName("a", " 1");
  }

  /** A token starting with `.` is a rest parameter named after its first three characters. */
  lemma RestToken(p: string, w: string)
    requires AllSpace(p) && Trimmed(w) && |w| >= 3 && w[0] == '.'
    ensures ClassifyToken(p + w) == Param(w[3..], true)
  {
    TrimPadded(p, w, []);
    assert p + w + [] == p + w;
    assert Substr(w, 3) == w[3..];
    ClassifyRest(p + w, w);
  }

  lemma RestName()
    ensures ClassifyToken(" " + ("..." + "rest")) == Param("rest", true)
  {
    RestToken(" ", "..." + "rest");
    assert ("..." + "rest")[3..] == "rest";
  }

  lemma OnePiece(a: string)
    requires a != "" && ',' !in a && '/' !in a
    ensures BuildTokens(Some(a)) == [ClassifyToken(a)]
  {
    assert Join([a], ',') == a;
    BuildTokensOfJoin([a]);
  }

  lemma TwoPieces(a: string, b: string)
    requires ',' !in a && '/' !in a && ',' !in b && '/' !in b
    ensures BuildTokens(Some(a + "," + b)) == [ClassifyToken(a), ClassifyToken(b)]
  {
    var pieces := [a, b];
    assert Join(pieces, ',') == a + "," + b;
    BuildTokensOfJoin(pieces);
  }

  lemma TokensA()
    ensures BuildTokens(Some("a")) == [Param("a", false)]
  {
    OnePiece("a");
    NameA();
  }

  lemma JoinedAB()
    ensures "a" + "," + (" " + "b") == "a, b"
  {
  }

  lemma TokensAB()
    ensures BuildTokens(Some("a, b")) == [Param("a", false), Param("b", false)]
  {
    TwoPieces("a", " " + "b");
    NameA();
    NameB();
    JoinedAB();
  }

  const DEFAULTED_A := "a" + " " + "=" + " 1"

  lemma JoinedDefaultB()
    ensures DEFAULTED_A + "," + (" " + "b") == "a = 1, b"
  {
  }

  lemma TokensDefaultB()
    ensures BuildTokens(Some("a = 1, b")) == [Param("a", false), Param("b", false)]
  {
    TwoPieces(DEFAULTED_A, " " + "b");
    DefaultedA();
    NameB();
    JoinedDefaultB();
  }

  lemma JoinedRest()
    ensures "a" + "," + (" " + ("..." + "rest")) == "a, ...rest"
  {
  }

  lemma TokensRest()
    ensures BuildTokens(Some("a, ...rest")) == [Param("a", false), Param("rest", true)]
  {
    TwoPieces("a", " " + ("..." + "rest"));
    NameA();
    RestName();
    JoinedRest();
  }

  lemma TrimAB()
    ensures Trim("a, b") == "a, b"
  {
    assert Trimmed("a, b") by {
      assert !IsSpace('a') && !IsSpace('b');
    }
    TrimTrimmed("a, b");
  }

  lemma TrimDefaultB()
    ensures Trim("a = 1, b") == "a = 1, b"
  {
    assert Trimmed("a = 1, b") by {
      assert !IsSpace('a') && !IsSpace('b');
    }
    TrimTrimmed("a = 1, b");
  }

  lemma TrimRest()
    ensures Trim("a, ...rest") == "a, ...rest"
  {
    assert Trimmed("a, ...rest") by {
      assert !IsSpace('a') && !IsSpace('t');
    }
    TrimTrimmed("a, ...rest");
  }

  lemma NoConstructorIn(tail: string)
    requires 'c' !in tail
    ensures forall k: nat :: !HasAt(tail, k, "constructor")
  {
    NoWordWithoutItsFirstChar(tail, "constructor");
  }

  // ---------------------------------------------------------------------------
  // "Should parse arguments of"

  const SUM_REGULAR := "function " + "sum" + "(" + "a = 1, b" + ")" + " {  return a + b;}"

  lemma SumRegularLine()
    ensures '\n' !in SUM_REGULAR && SUM_REGULAR[0] == 'f' && '>' !in SUM_REGULAR
  {
  }

  lemma SumRegularCapture()
    ensures MatchInspector(SUM_REGULAR, Regular) == Some("a = 1, b")
  {
    RegularDeclarationCapture("sum", "a = 1, b", " {  return a + b;}");
    TrimDefaultB();
  }

  lemma ParsesRegularFunction()
    ensures Inspect(DefaultConfig(), SUM_REGULAR) == [Param("a", false), Param("b", false)]
  {
    SumRegularLine();
    SumRegularCapture();
    RegularSelected(DefaultConfig(), SUM_REGULAR, "a = 1, b");
    InspectOneLine(DefaultConfig(), SUM_REGULAR, Some("a = 1, b"));
    TokensDefaultB();
  }

  const SUM_ARROW := "(" + "a, b" + ")" + " " + "=>" + " {  return a + b;}"

  lemma SumArrowLine()
    ensures '\n' !in SUM_ARROW && SUM_ARROW[0] == '('
  {
  }

  lemma SumArrowCapture()
    ensures MatchInspector(SUM_ARROW, Arrow) == Some("a, b")
  {
    ArrowDeclarationCapture("a, b", " ", " {  return a + b;}");
    TrimAB();
  }

  lemma ParsesArrowFunction()
    ensures Inspect(DefaultConfig(), SUM_ARROW) == [Param("a", false), Param("b", false)]
  {
    SumArrowLine();
    SumArrowCapture();
    ArrowSelected(DefaultConfig(), SUM_ARROW, "a, b");
    InspectOneLine(DefaultConfig(), SUM_ARROW, Some("a, b"));
    TokensAB();
  }

  const SUM_CLASS := "class" + [' '] + "Sum {  " + "constructor" + "" + "(" + "a, b" + ")" + " {    return a + b;  }}"

  lemma SumClassLine()
    ensures '\n' !in SUM_CLASS && SUM_CLASS[0] == 'c' && '>' !in SUM_CLASS
  {
  }

  lemma SumClassCapture()
    ensures MatchInspector(SUM_CLASS, Constructor) == Some("a, b")
  {
    NoConstructorIn("a, b" + ")" + " {    return a + b;  }}");
    ConstructorDeclarationCapture(' ', "Sum {  ", "", "a, b", " {    return a + b;  }}");
    TrimAB();
  }

  /** The constructor parameters of a class are found after the `constructor` keyword. */
  lemma ParsesClassConstructor()
    ensures Inspect(DefaultConfig(), SUM_CLASS) == [Param("a", false), Param("b", false)]
  {
    SumClassLine();
    SumClassCapture();
    ClassSelected(DefaultConfig(), SUM_CLASS, "a, b");
    InspectOneLine(DefaultConfig(), SUM_CLASS, Some("a, b"));
    TokensAB();
  }

  // ---------------------------------------------------------------------------
  // "Should parse rest argument of"

  const REST_REGULAR := "function " + "sum" + "(" + "a, ...rest" + ")" + " {  return rest;}"

  lemma RestRegularLine()
    ensures '\n' !in REST_REGULAR && REST_REGULAR[0] == 'f' && '>' !in REST_REGULAR
  {
  }

  lemma RestRegularCapture()
    ensures MatchInspector(REST_REGULAR, Regular) == Some("a, ...rest")
  {
    RegularDeclarationCapture("sum", "a, ...rest", " {  return rest;}");
    TrimRest();
  }

  /** A parameter written `...rest` is a rest parameter named `rest`. */
  lemma ParsesRestOfRegularFunction()
    ensures Inspect(DefaultConfig(), REST_REGULAR) == [Param("a", false), Param("rest", true)]
  {
    RestRegularLine();
    RestRegularCapture();
    RegularSelected(DefaultConfig(), REST_REGULAR, "a, ...rest");
    InspectOneLine(DefaultConfig(), REST_REGULAR, Some("a, ...rest"));
    TokensRest();
  }

  const REST_ARROW := "(" + "a, ...rest" + ")" + " " + "=>" + " {  return rest;}"

  lemma RestArrowLine()
    ensures '\n' !in REST_ARROW && REST_ARROW[0] == '('
  {
  }

  lemma RestArrowCapture()
    ensures MatchInspector(REST_ARROW, Arrow) == Some("a, ...rest")
  {
    ArrowDeclarationCapture("a, ...rest", " ", " {  return rest;}");
    TrimRest();
  }

  /** The rest parameter of an arrow function. */
  lemma ParsesRestOfArrowFunction()
    ensures Inspect(DefaultConfig(), REST_ARROW) == [Param("a", false), Param("rest", true)]
  {
    RestArrowLine();
    RestArrowCapture();
    ArrowSelected(DefaultConfig(), REST_ARROW, "a, ...rest");
    InspectOneLine(DefaultConfig(), REST_ARROW, Some("a, ...rest"));
    TokensRest();
  }

  const REST_CLASS := "class" + [' '] + "Sum {  " + "constructor" + "" + "(" + "a, ...rest" + ")" + " {    return rest;  }}"

  lemma RestClassLine()
    ensures '\n' !in REST_CLASS && REST_CLASS[0] == 'c' && '>' !in REST_CLASS
  {
  }

  lemma RestClassCapture()
    ensures MatchInspector(REST_CLASS, Constructor) == Some("a, ...rest")
  {
    NoConstructorIn("a, ...rest" + ")" + " {    return rest;  }}");
    ConstructorDeclarationCapture(' ', "Sum {  ", "", "a, ...rest", " {    return rest;  }}");
    TrimRest();
  }

  /** The rest parameter of a class constructor. */
  lemma ParsesRestOfClassConstructor()
    ensures Inspect(DefaultConfig(), REST_CLASS) == [Param("a", false), Param("rest", true)]
  {
    RestClassLine();
    RestClassCapture();
    ClassSelected(DefaultConfig(), REST_CLASS, "a, ...rest");
    InspectOneLine(DefaultConfig(), REST_CLASS, Some("a, ...rest"));
    TokensRest();
  }

  // ---------------------------------------------------------------------------
  // "Should parse empty arguments of": the empty capture is falsy, every later
  // pattern fails, and no capture gives no descriptors

  const EMPTY_REGULAR := "function " + "sum" + "(" + "" + ")" + " {  return 1 + 2;}"

  lemma EmptyRegularLine()
    ensures '\n' !in EMPTY_REGULAR && EMPTY_REGULAR[0] == 'f' && '>' !in EMPTY_REGULAR
  {
  }

  lemma EmptyRegularCapture()
    ensures MatchInspector(EMPTY_REGULAR, Regular) == Some("")
  {
    RegularDeclarationCapture("sum", "", " {  return 1 + 2;}");
  }

  /** A regular function without parameters has no descriptors. */
  lemma ParsesEmptyRegularFunction()
    ensures Inspect(DefaultConfig(), EMPTY_REGULAR) == []
  {
    EmptyRegularLine();
    EmptyRegularCapture();
    EmptyRegularFallsThrough(DefaultConfig(), EMPTY_REGULAR);
    InspectOneLine(DefaultConfig(), EMPTY_REGULAR, None);
  }

  const EMPTY_ARROW := "(" + "" + ")" + " " + "=>" + " {  return 1 + 2;}"

  lemma EmptyArrowLine()
    ensures '\n' !in EMPTY_ARROW && EMPTY_ARROW[0] == '('
  {
  }

  lemma EmptyArrowCapture()
    ensures MatchInspector(EMPTY_ARROW, Arrow) == Some("")
  {
    ArrowDeclarationCapture("", " ", " {  return 1 + 2;}");
  }

  /** An arrow function without parameters has no descriptors. */
  lemma ParsesEmptyArrowFunction()
    ensures Inspect(DefaultConfig(), EMPTY_ARROW) == []
  {
    EmptyArrowLine();
    EmptyArrowCapture();
    EmptyArrowFallsThrough(DefaultConfig(), EMPTY_ARROW);
    InspectOneLine(DefaultConfig(), EMPTY_ARROW, None);
  }

  const EMPTY_CLASS := "class" + [' '] + "Sum {  " + "constructor" + "" + "(" + "" + ")" + " {  }}"

  lemma EmptyClassLine()
    ensures '\n' !in EMPTY_CLASS && EMPTY_CLASS[0] == 'c' && '>' !in EMPTY_CLASS
  {
  }

  lemma EmptyClassCapture()
    ensures MatchInspector(EMPTY_CLASS, Constructor) == Some("")
  {
    NoConstructorIn("" + ")" + " {  }}");
    ConstructorDeclarationCapture(' ', "Sum {  ", "", "", " {  }}");
  }

  /** A constructor without parameters has no descriptors. */
  lemma ParsesEmptyClassConstructor()
    ensures Inspect(DefaultConfig(), EMPTY_CLASS) == []
  {
    EmptyClassLine();
    EmptyClassCapture();
    EmptyClassFallsThrough(DefaultConfig(), EMPTY_CLASS);
    InspectOneLine(DefaultConfig(), EMPTY_CLASS, None);
  }

  // ---------------------------------------------------------------------------
  // "Config"

  const ARROW_ONLY := Create(Some(Options(Some(true), None, None)))
  const REGULAR_ONLY := Create(Some(Options(None, None, Some(true))))
  const CLASS_ONLY := Create(Some(Options(None, Some(true), None)))

  lemma NotStartingWith(s: string, p: string)
    requires |p| > 0 && |s| > 0 && s[0] != p[0]
    ensures !StartsWith(s, p)
  {
    if StartsWith(s, p) {
      FirstOfPrefix(s, p);
    }
  }

  const CONFIG_ARROW := "(" + "a, b" + ")" + " " + "=>" + " a + b"

  lemma ConfigArrowLine()
    ensures '\n' !in CONFIG_ARROW && CONFIG_ARROW[0] == '('
  {
  }

  lemma ConfigArrowCapture()
    ensures MatchInspector(CONFIG_ARROW, Arrow) == Some("a, b")
  {
    ArrowDeclarationCapture("a, b", " ", " a + b");
    TrimAB();
  }

  /** The default export parses the arrow function of the configuration cases. */
  lemma DefaultParsesConfigArrow()
    ensures Inspect(DefaultConfig(), CONFIG_ARROW) == [Param("a", false), Param("b", false)]
  {
    ConfigArrowLine();
    ConfigArrowCapture();
    ArrowSelected(DefaultConfig(), CONFIG_ARROW, "a, b");
    InspectOneLine(DefaultConfig(), CONFIG_ARROW, Some("a, b"));
    TokensAB();
  }

  const CONFIG_CLASS := "class" + [' '] + "Sum {" + "constructor" + "" + "(" + "a, b" + ")" + " {return a + b;}}"

  lemma ConfigClassLine()
    ensures '\n' !in CONFIG_CLASS && CONFIG_CLASS[0] == 'c' && '>' !in CONFIG_CLASS
  {
  }

  lemma ConfigClassCapture()
    ensures MatchInspector(CONFIG_CLASS, Constructor) == Some("a, b")
  {
    NoConstructorIn("a, b" + ")" + " {return a + b;}}");
    ConstructorDeclarationCapture(' ', "Sum {", "", "a, b", " {return a + b;}}");
    TrimAB();
  }

  /** The default export parses the class of the configuration cases. */
  lemma DefaultParsesConfigClass()
    ensures Inspect(DefaultConfig(), CONFIG_CLASS) == [Param("a", false), Param("b", false)]
  {
    ConfigClassLine();
    ConfigClassCapture();
    ClassSelected(DefaultConfig(), CONFIG_CLASS, "a, b");
    InspectOneLine(DefaultConfig(), CONFIG_CLASS, Some("a, b"));
    TokensAB();
  }

  const CONFIG_REGULAR := "function " + "sumRegular" + "(" + "a, b" + ")" + " {return a + b;}"

  lemma ConfigRegularLine()
    ensures '\n' !in CONFIG_REGULAR && CONFIG_REGULAR[0] == 'f' && '>' !in CONFIG_REGULAR
  {
  }

  lemma ConfigRegularCapture()
    ensures MatchInspector(CONFIG_REGULAR, Regular) == Some("a, b")
  {
    RegularDeclarationCapture("sumRegular", "a, b", " {return a + b;}");
    TrimAB();
  }

  /** The default export parses the regular function of the configuration cases. */
  lemma DefaultParsesConfigRegular()
    ensures Inspect(DefaultConfig(), CONFIG_REGULAR) == [Param("a", false), Param("b", false)]
  {
    ConfigRegularLine();
    ConfigRegularCapture();
    RegularSelected(DefaultConfig(), CONFIG_REGULAR, "a, b");
    InspectOneLine(DefaultConfig(), CONFIG_REGULAR, Some("a, b"));
    TokensAB();
  }

  /** `create({ arrow: true })` reads the arrow function and ignores the other two. */
  lemma ArrowOnly()
    ensures Inspect(ARROW_ONLY, CONFIG_ARROW) == [Param("a", false), Param("b", false)]
    ensures Inspect(ARROW_ONLY, CONFIG_REGULAR) == []
    ensures Inspect(ARROW_ONLY, CONFIG_CLASS) == []
  {
    ConfigArrowLine();
    ConfigArrowCapture();
    ArrowSelected(ARROW_ONLY, CONFIG_ARROW, "a, b");
    InspectOneLine(ARROW_ONLY, CONFIG_ARROW, Some("a, b"));
    TokensAB();
    ConfigRegularLine();
    NoArrowToken(CONFIG_REGULAR);
    ArrowOnlyIgnoresOtherShapes(CONFIG_REGULAR);
    InspectOneLine(ARROW_ONLY, CONFIG_REGULAR, SelectCapture(ARROW_ONLY, CONFIG_REGULAR));
    ConfigClassLine();
    NoArrowToken(CONFIG_CLASS);
    ArrowOnlyIgnoresOtherShapes(CONFIG_CLASS);
    InspectOneLine(ARROW_ONLY, CONFIG_CLASS, SelectCapture(ARROW_ONLY, CONFIG_CLASS));
  }

  /** `create({ regular: true })` reads the regular function and ignores the other two. */
  lemma RegularOnly()
    ensures Inspect(REGULAR_ONLY, CONFIG_REGULAR) == [Param("a", false), Param("b", false)]
    ensures Inspect(REGULAR_ONLY, CONFIG_ARROW) == []
    ensures Inspect(REGULAR_ONLY, CONFIG_CLASS) == []
  {
    ConfigRegularLine();
    ConfigRegularCapture();
    RegularSelected(REGULAR_ONLY, CONFIG_REGULAR, "a, b");
    InspectOneLine(REGULAR_ONLY, CONFIG_REGULAR, Some("a, b"));
    TokensAB();
    ConfigArrowLine();
    NotStartingWith(CONFIG_ARROW, "function");
    RegularOnlyIgnoresOtherShapes(CONFIG_ARROW);
    InspectOneLine(REGULAR_ONLY, CONFIG_ARROW, SelectCapture(REGULAR_ONLY, CONFIG_ARROW));
    ConfigClassLine();
    NotStartingWith(CONFIG_CLASS, "function");
    RegularOnlyIgnoresOtherShapes(CONFIG_CLASS);
    InspectOneLine(REGULAR_ONLY, CONFIG_CLASS, SelectCapture(REGULAR_ONLY, CONFIG_CLASS));
  }

  /** `create({ class: true })` reads the class constructor and ignores the other two. */
  lemma ClassOnly()
    ensures Inspect(CLASS_ONLY, CONFIG_CLASS) == [Param("a", false), Param("b", false)]
    ensures Inspect(CLASS_ONLY, CONFIG_ARROW) == []
    ensures Inspect(CLASS_ONLY, CONFIG_REGULAR) == []
  {
    ConfigClassLine();
    ConfigClassCapture();
    ClassSelected(CLASS_ONLY, CONFIG_CLASS, "a, b");
    InspectOneLine(CLASS_ONLY, CONFIG_CLASS, Some("a, b"));
    TokensAB();
    ConfigArrowLine();
    NotStartingWith(CONFIG_ARROW, "class");
    ClassOnlyIgnoresOtherShapes(CONFIG_ARROW);
    InspectOneLine(CLASS_ONLY, CONFIG_ARROW, SelectCapture(CLASS_ONLY, CONFIG_ARROW));
    ConfigRegularLine();
    NotStartingWith(CONFIG_REGULAR, "class");
    ClassOnlyIgnoresOtherShapes(CONFIG_REGULAR);
    InspectOneLine(CLASS_ONLY, CONFIG_REGULAR, SelectCapture(CLASS_ONLY, CONFIG_REGULAR));
  }

  // ---------------------------------------------------------------------------
  // A single parameter without parentheses

  const PLUS_ONE := "a" + " " + "=>" + " {  return 1 + a;}"

  lemma PlusOneLine()
    ensures '\n' !in PLUS_ONE && PLUS_ONE[0] == 'a'
  {
  }

  lemma PlusOneCapture()
    ensures MatchInspector(PLUS_ONE, Arrow) == Some("a")
  {
    ArrowParensOptional("a", " ", " {  return 1 + a;}");
  }

  /** An arrow function with one parameter and no parentheses. */
  lemma ParsesBareArrowParameter()
    ensures Inspect(DefaultConfig(), PLUS_ONE) == [Param("a", false)]
  {
    PlusOneLine();
    PlusOneCapture();
    ArrowSelected(DefaultConfig(), PLUS_ONE, "a");
    InspectOneLine(DefaultConfig(), PLUS_ONE, Some("a"));
    TokensA();
  }
}
