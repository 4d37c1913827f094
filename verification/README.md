# argumentsOf in Dafny

A model of `argumentsOf.js`. This module takes the source text of a JavaScript
callable (`func.toString()`) and returns the callable's declared parameters, in
order, as `{ name, rest }` descriptors. It works in four steps:

1. It removes every `'\n'` from the source text.
2. It tries up to three signature patterns in a fixed order: class constructor,
   arrow function, regular function. A `create(config)` option switches each
   pattern on or off. The first pattern that gives a non-empty trimmed capture wins.
3. It deletes inline `/* … */` comments from that capture and splits it on every `,`.
4. It trims each piece and classifies it:
   - a rest parameter drops its first three characters;
   - a defaulted parameter is named by the trimmed text before its first `=`;
   - any other piece is named by itself.

The project has five modules:

- `Wrappers` holds the `Option` type.
- `Text` holds the JavaScript string primitives the module relies on:
  - the `.` and `\s` character classes;
  - `trim`, `split` on one character and `substr(start)`;
  - the `'\n'` removal.
- `Patterns` hand-codes the four regular expressions as scanners. Each one has:
  - a declarative predicate saying where a match can be anchored;
  - a search that picks the anchor ECMAScript backtracking picks: the first for a
    lazy quantifier, the last for a greedy one.
- `ArgumentsOf` holds:
  - `matchInspector`;
  - the two strategies, which update a mutable `Context` object in place;
  - `buildTokens`, `create` and the extractor closure `create` returns.
- `Examples` restates the cases of `argumentsOf.test.js` and proves each one.

Two behaviours of the code are easy to miss:

- Empty pieces keep their descriptor. `filter(Boolean)` removes nothing, because
  every descriptor is an object, and objects are truthy.
- The arrow pattern matches exactly the texts that contain `=>` only when the text
  has no line terminator. The `'\n'` removal leaves `'\r'`, U+2028 and U+2029 in
  place, and `.` does not match them.

## Model

| member | source | states |
|---|---|---|
| Text.Trim | argumentsOf.js:17 | The trim has no white space at either end. It is empty exactly when the input is all white space. Each of its characters comes from the input. |
| Text.TrimPadded | argumentsOf.js:60 | Trimming removes exactly the surrounding white space: any white-space padding around a string with no white space at its ends trims back to that string. |
| Text.TrimIdempotent | argumentsOf.js:37 | Trimming twice gives the same result as trimming once. |
| Text.Substr | argumentsOf.js:25 | `substr(start)` gives the suffix that begins at index `start`, or the empty string when `start` is past the end. |
| Text.Split | argumentsOf.js:57 | `split(sep)` gives one more piece than there are separators, empty pieces included. No piece holds the separator. Joining the pieces gives back the string. The first piece is the prefix before the first separator. |
| Text.SplitJoin | argumentsOf.js:57 | Splitting the join of separator-free pieces gives the pieces back. |
| Text.SplitHead | argumentsOf.js:37 | `split('=')[0]` is the text before the first `=`, or the whole text when it has no `=`. |
| Text.RemoveNewlines | argumentsOf.js:82 | The result has no `'\n'`. It is shorter than the input by the number of `'\n'` removed, and equals the input when it had none. |
| Text.RemoveNewlinesLineFeed | argumentsOf.js:82 | A lone `'\n'` is removed entirely. |
| Text.RemoveNewlinesAppend | argumentsOf.js:82 | The removal works character by character: the result for `a + b` is the result for `a` followed by the result for `b`. Together with the identity on text without `'\n'`, every other character is kept, in order. |
| Patterns.FindFrom | argumentsOf.js:3 | A lazy `[^c]*?c` stops at the first `c` at or after `i`. When it finds none, no `c` occurs there. |
| Patterns.FirstInDotRun | argumentsOf.js:7 | The first `c` that a lazy `.*?` from `i` can reach, crossing only non-line-terminators. |
| Patterns.RegularGroup | argumentsOf.js:7 | The regular-function pattern captures from just after the leftmost `(` reachable after `function` and an optional space, up to the next `)`. The capture holds no `)`. When that `(` has no later `)`, no reachable `(` has one, and nothing matches. |
| Patterns.LastConstructorUpTo | argumentsOf.js:3 | The last `constructor` up to `k` that the greedy `.*` can reach and that is followed by white space, `(` and a later `)`. |
| Patterns.ConstructorAnchor | argumentsOf.js:3 | The greedy `.*` anchors on the last completable `constructor`; no later one can be completed. It is None exactly when none can be completed. |
| Patterns.ConstructorGroup | argumentsOf.js:3 | A constructor capture exists only in text that starts with `class` and one white-space character. It ends at the first `)` after its start, so it holds no `)`. When there is none, no `constructor` can be completed. |
| Patterns.ConstructorGroupStart | argumentsOf.js:3 | The constructor pattern matches exactly when some `constructor` can be completed. The capture then starts just after the `(` that follows the last completable `constructor` and its white space. |
| Patterns.ConstructorGroupAt | argumentsOf.js:3 | The capture starts after the `(` that follows the anchor and its white space, and ends at the next `)`. |
| Patterns.FirstArrowEnd | argumentsOf.js:1 | The first place at or after `c` where the lazy `(.*?)` can stop: an optional `)`, then white space, then `=>`. |
| Patterns.ArrowGroup | argumentsOf.js:1 | The arrow capture starts after an optional leading `(` and ends at the first place where the rest of the pattern matches. When no such place exists, there is no match. |
| Patterns.ArrowGroupAt | argumentsOf.js:1 | The arrow capture ends at the first position where it can end. |
| Patterns.LastCommentCloseUpTo | argumentsOf.js:5 | The last `*/` up to `k` that the comment pattern's `.*` can reach from a `/*` at the start. |
| Patterns.CommentEnd | argumentsOf.js:5 | A comment match at the start of the text ends after the LAST reachable `*/`, not the first. There is no match when no `*/` is reachable. |
| Patterns.StripComments | argumentsOf.js:56 | The global replace never lengthens the text and adds no new characters. |
| Patterns.StripCommentsIdentity | argumentsOf.js:56 | Where no comment match starts, the replace changes nothing. |
| Patterns.StripCommentsNoPair | argumentsOf.js:56 | In text without line terminators, the replace changes nothing when no `*/` comes at least two characters after a `/*`. |
| Patterns.StripCommentsSpan | argumentsOf.js:56 | In text without line terminators, the replace deletes the single span from the first `/*` to the end of the last `*/`. |
| ArgumentsOf.ShapeGroup | argumentsOf.js:15 | Each shape's capture group lies within the text. |
| ArgumentsOf.MatchInspector | argumentsOf.js:14-18 | `matchInspector` gives a value exactly when the pattern matches, and null otherwise. The value has no white space at either end. |
| ArgumentsOf.InspectGroup | argumentsOf.js:14-18 | The value is the trim of the capture group's text. |
| ArgumentsOf.RegularCaptureShape | argumentsOf.js:7 | A regular-function match needs text that starts with `function`. Its capture never holds `)`. |
| ArgumentsOf.ConstructorCaptureShape | argumentsOf.js:3 | A constructor match needs text that starts with `class` and one white-space character. Its capture never holds `)`. |
| ArgumentsOf.ArrowMatchesArrowToken | argumentsOf.js:1 | The arrow pattern matches only text that contains `=>`. In text without line terminators it matches whenever the text contains `=>`. |
| ArgumentsOf.ArrowMatchHasArrowToken | argumentsOf.js:1 | An arrow match implies the text contains `=>`. |
| ArgumentsOf.ArrowTokenMatches | argumentsOf.js:1 | In text without line terminators, a `=>` anywhere gives an arrow match. |
| ArgumentsOf.ArrowBareCapture | argumentsOf.js:1 | `a => …` captures `a` when `a` is a bare word. |
| ArgumentsOf.ArrowParenCapture | argumentsOf.js:1 | `(a) => …` captures `a` when `a` is a bare word. |
| ArgumentsOf.ArrowParensOptional | argumentsOf.js:1 | Parentheses around a single bare arrow parameter make no difference to the capture. |
| ArgumentsOf.ArrowDeclarationCapture | argumentsOf.js:1 | `(params) => …` captures the trimmed `params` when they hold no `)`, no `>` and no line terminator. |
| ArgumentsOf.RegularGroupFound | argumentsOf.js:7 | With the first reachable `(` at `p` and the next `)` at `q`, the group is `(p+1, q)`. |
| ArgumentsOf.RegularCaptureFound | argumentsOf.js:7 | The same layout gives the trimmed text between `p` and `q`. |
| ArgumentsOf.RegularDeclarationCapture | argumentsOf.js:7 | `function name(params)…` captures the trimmed `params` when the name holds no `(` and no line terminator and `params` holds no `)`. |
| ArgumentsOf.ConstructorAnchorAt | argumentsOf.js:3 | A completable `constructor` with no later `constructor` is the anchor of the greedy `.*`. |
| ArgumentsOf.ConstructorGroupFound | argumentsOf.js:3 | A class text with that layout has its group between the `(` after `constructor` and the next `)`. |
| ArgumentsOf.ConstructorCaptureFound | argumentsOf.js:3 | The same layout gives the trimmed constructor parameters. |
| ArgumentsOf.ConstructorDeclarationCapture | argumentsOf.js:3 | `class␣…constructor (params)…` captures the trimmed `params` when `params` holds no `)` and no later `constructor` occurs. |
| ArgumentsOf.ClassifyToken | argumentsOf.js:58-69 | A piece is a rest token exactly when its trim starts with `.`; it is then named by the trim from index 3 on. Otherwise it is named by the trimmed text before its first `=`, and that name has no `=` and no white space at its ends. |
| ArgumentsOf.NameBeforeEquals | argumentsOf.js:37 | `split('=')[0].trim()` is the trim of the text before the first `=`, and it holds no `=`. |
| ArgumentsOf.ClassifyPlain | argumentsOf.js:60-66 | A piece with neither the rest marker nor `=` is named by its trim, with `rest` false. |
| ArgumentsOf.ClassifyRest | argumentsOf.js:20-31 | A rest piece is named by its trim after the first three characters, with `rest` true. |
| ArgumentsOf.ClassifyRestKeepsDefault | argumentsOf.js:66 | The rest test runs first, so a rest piece with a default keeps its `=` in the name. |
| ArgumentsOf.Context.constructor | argumentsOf.js:61-64 | A fresh descriptor is named by the trimmed piece, with `rest` false. |
| ArgumentsOf.RestStrategy | argumentsOf.js:20-31 | The strategy applies exactly when the value starts with `.`. It then sets `rest` and names the descriptor by `substr(3)`. Otherwise it leaves the descriptor unchanged. |
| ArgumentsOf.AssignmentStrategy | argumentsOf.js:33-43 | The strategy applies exactly when the value holds `=`. It then names the descriptor by `split('=')[0].trim()` and keeps `rest`. Otherwise it leaves the descriptor unchanged. |
| ArgumentsOf.Classify | argumentsOf.js:58-69 | The `map` callback, which mutates a record through the two strategies, yields exactly the decision table `ClassifyToken`. |
| ArgumentsOf.BuildTokens | argumentsOf.js:50-71 | A falsy capture gives `[]`. Otherwise there is one descriptor per comma-separated piece of the comment-stripped capture, empty pieces included, in order, each the classification of its piece. |
| ArgumentsOf.BuildTokensOfJoin | argumentsOf.js:55-70 | For pieces with no `,` and no `/`, joined by commas, the descriptors are the classified pieces, one each, in order. |
| ArgumentsOf.StripCommentsNoSlash | argumentsOf.js:56 | Text without `/` is left unchanged by the comment replace. |
| ArgumentsOf.Create | argumentsOf.js:73-75 | No configuration enables all three shapes. A configuration object enables exactly the shapes it sets to true; a missing key means off. |
| ArgumentsOf.DefaultConfig | argumentsOf.js:103 | The default export has all three shapes enabled. |
| ArgumentsOf.FirstTruthy | argumentsOf.js:84-97 | Gives the first attempt that is not null, undefined or empty, with every earlier attempt falsy. Gives none when all are falsy. |
| ArgumentsOf.SelectCapture | argumentsOf.js:84-97 | A selected capture is never empty. |
| ArgumentsOf.SelectCapturePriority | argumentsOf.js:84-97 | Priority order: the constructor capture if that shape is enabled and the capture is non-empty, else the arrow capture under the same test, else the regular one, else nothing. |
| ArgumentsOf.Extract | argumentsOf.js:80-100 | The closure's three guarded steps give the descriptors of the selected capture of the `'\n'`-free text. With every shape disabled it gives `[]`. |
| ArgumentsOf.ArrowOnlyIgnoresOtherShapes | argumentsOf.js:90-92 | With only `arrow` set, text without `=>` gives no descriptors. |
| ArgumentsOf.RegularOnlyIgnoresOtherShapes | argumentsOf.js:95-97 | With only `regular` set, text not starting with `function` gives no descriptors. |
| ArgumentsOf.ClassOnlyIgnoresOtherShapes | argumentsOf.js:85-87 | With only `class` set, text not starting with `class` and white space gives no descriptors. |
| Examples.InspectOneLine | argumentsOf.js:82 | Source text without `'\n'` reaches the patterns unchanged. |
| Examples.ParsesRegularFunction | argumentsOf.test.js:13-21 | `function sum(a = 1, b)` gives `a`, `b`. |
| Examples.ParsesArrowFunction | argumentsOf.test.js:23-31 | `(a, b) => …` gives `a`, `b`. |
| Examples.ParsesClassConstructor | argumentsOf.test.js:33-43 | A class with `constructor(a, b)` gives `a`, `b`. |
| Examples.ParsesRestOfRegularFunction | argumentsOf.test.js:55-63 | `function sum(a, ...rest)` gives `a` and the rest parameter `rest`. |
| Examples.ParsesRestOfArrowFunction | argumentsOf.test.js:65-73 | `(a, ...rest) => …` gives `a` and the rest parameter `rest`. |
| Examples.ParsesRestOfClassConstructor | argumentsOf.test.js:75-85 | `constructor(a, ...rest)` gives `a` and the rest parameter `rest`. |
| Examples.ParsesEmptyRegularFunction | argumentsOf.test.js:91-99 | A regular function without parameters gives `[]`. |
| Examples.ParsesEmptyArrowFunction | argumentsOf.test.js:101-109 | An arrow function without parameters gives `[]`. |
| Examples.ParsesEmptyClassConstructor | argumentsOf.test.js:111-121 | A constructor without parameters gives `[]`. |
| Examples.DefaultParsesConfigArrow | argumentsOf.test.js:191-199 | The default export reads the arrow function of the configuration cases. |
| Examples.DefaultParsesConfigClass | argumentsOf.test.js:191-199 | The default export reads the class of the configuration cases. |
| Examples.DefaultParsesConfigRegular | argumentsOf.test.js:191-199 | The default export reads the regular function of the configuration cases. |
| Examples.ArrowOnly | argumentsOf.test.js:129-143 | `create({ arrow: true })` reads the arrow function and gives `[]` for the regular function and the class. |
| Examples.RegularOnly | argumentsOf.test.js:145-159 | `create({ regular: true })` reads the regular function and gives `[]` for the other two. |
| Examples.ClassOnly | argumentsOf.test.js:161-175 | `create({ class: true })` reads the constructor and gives `[]` for the other two. |
| Examples.ParsesBareArrowParameter | argumentsOf.test.js:178-189 | `a => …` gives the single parameter `a`. |

## Left out

- `func.toString()`: the extractor takes the source text as a parameter. How a JavaScript engine prints a function is not part of this model.
- Regular expressions in general: only the four patterns of the module are modelled, each as a hand-written scanner that follows ECMAScript's backtracking order.
- The ES module wrapper (`export`, `export default`) and the Jest test runner. The default export is `DefaultConfig`.
- The example texts are one-line versions of the test sources with shortened bodies. The test suite's multi-line templates reach the patterns only after their `'\n'` removal, and their signatures are unchanged.
- `filter(Boolean)`: this step removes nothing, because every descriptor is an object. `BuildTokens` keeps every descriptor.
- Context: the descriptor object is modelled only where the source uses it, inside the `map` callback (`Classify`). Its fields are not observed after the descriptor is returned, so `BuildTokens` uses the value `Param`.
- ArgumentsOf.MatchInspector: the contract does not state that the capture's characters come from the text. The capture lemmas pin the exact capture for each declaration shape instead.
- ArgumentsOf.ArrowMatchesArrowToken: the converse direction (a `=>` implies a match) is stated only for text without line terminators. In other text it fails, because `.` does not cross `'\r'`, U+2028 or U+2029.
- ArgumentsOf.Create: option values are booleans, with `None` for a key left undefined. The source enables a shape for any truthy value (`create({ arrow: 1 })`), which the model does not represent. `create(null)`, which throws a TypeError because the `defaultOptions` default applies only to `undefined`, is not modelled.
- Strings are sequences of Unicode scalar values. JavaScript's UTF-16 code units (lone surrogates, and `substr` counting code units) are not modelled.
