# rrnntt/pdf core in Dafny

This project models the logic under the PDF output of a small LaTeX-to-PDF
system:

- the string-parser contract and its four primitive matchers;
- the LaTeX command matcher built on them;
- 2D points and axis-aligned rectangles over exact reals;
- the non-rendering part of the document tree: leaf text, paragraph text,
  child lists, the union of child rects, `refit` and the title style.

Everything is an immutable value. A source parser records
`(hasMatch, start, size)` inside itself when `match` runs. Here, `match`
returns that state, or the exception it would have raised, as a
`Result<MatchState>`. The source's exceptions are the constructors of
`Outcomes.Fault`.

Modules follow the source files:

- `Outcomes`: `Option`, `Result`, `Fault`.
- `Points`: point.py.
- `Rects`: rect.py.
- `Parsers`: string_parser.py.
- `Latex`: latex_parser.py.
- `Documents`: document.py.

Assumptions where the needed code is not part of this model:

- `SeqParser` and `AlphaParser`, used by `CommandParser`, are not part of
  this model. A command is taken to be `\` followed by the maximal non-empty
  run of ASCII letters inside the searched range.
- `Rect.translate` and `Rect.unite` are not part of this model.
  - A translation moves both corners.
  - A union is the smallest normalised rectangle (p0 the minimum corner,
    p1 the maximum) that covers both rectangles.
  - `getUnionRect` starts from the zero rect at the origin. Uniting into
    that fresh rect is taken to adopt the other rect rather than to cover
    the origin too, so the accumulator is an `Option<Rect>` that is `None`
    while no present child has been seen.
- A child is a leaf text item, a `MultiItem` or a paragraph. A bare
  `DocItem` or an `InlineMathBlock` cannot be a child here.
- Unmeasured items have no `rect` attribute in the source. Here an item's
  rect is an `Option<Rect>`, and reading a missing one is
  `Err(MissingRect)`.
- `Paragraph` and `Title` are not `MultiItem`s in the source. They have
  `writePDF` but no `appendItem` or `refit`. Calling one of those gives
  `Err(NoSuchMethod(..))`, and so does calling `writePDF` on a `MultiItem`.

`refit` moves every present child by one vector: the item's p0 minus the
union's p0, both taken before anything moves. So "move a parent, then
refit" moves the whole subtree rigidly if the subtree was already fitted
(`Documents.Fitted`) and no item, `Rect` or `Point` object is reachable twice in it. A successful refit always leaves it fitted. Both facts
are proved; the converse of the first (an unfitted subtree does not move
rigidly) is not.

## Model

| member | source | states |
|---|---|---|
| Points.Make | point.py:8-22 | `Point()` is the origin; `Point(x)` puts y at 0; `Point(x, y)` takes both; `Point(p)` copies p and ignores y |
| Points.Set | point.py:32-35 | `set(x, y)` yields exactly the new coordinates |
| Points.Translate | point.py:37-43 | `translate(dx, dy)` is `+= Point(dx, dy)` and `translate(P)` is `+= P` |
| Points.Add | point.py:72-87 | `p + o` differs from p by o in each coordinate; a scalar is added to both |
| Points.Sub | point.py:89-104 | `p - o` differs from p by minus o in each coordinate; a scalar is subtracted from both |
| Points.Eq | point.py:45-49 | `==` holds exactly when the two points are the same value |
| Points.Ne | point.py:51-56 | `!=` holds exactly when the two points differ |
| Points.IsNear | point.py:58-62 | near iff each coordinate lies in the interval of its tolerance around the other point's; the y tolerance defaults to the x tolerance |
| Points.IsNearZero | point.py:64-66 | near zero iff each coordinate lies within its tolerance of 0 |
| Points.ConstructorDefaults | point.py:8-22 | the constructor's defaults and copy, for all arguments |
| Points.IsNearFacts | point.py:58-62 | zero tolerance is equality; nearness is symmetric; y tolerance defaults to x tolerance |
| Points.IsNearZeroBounds | point.py:64-66 | near zero iff each absolute coordinate is within its tolerance |
| Points.NearExamples | point_test.py:46-61 | 1e-16 is within the default tolerance and 1e-14 is not, on either axis |
| Points.AddSubInverse | point.py:72-104 | subtracting what was added gives the point back, and the reverse |
| Points.AddScalarIsAddPoint | point.py:72-87 | adding scalar f is adding the point (f, f); point addition commutes |
| Rects.Corner | rect.py:29-31 | one corner from two arguments: a point is copied; two numbers are its coordinates; anything else fails |
| Rects.MakeRect | rect.py:18-44 | accepts 0, 4 numbers, 2 points or 1 rect, keeping corners unsorted; with 4 arguments each corner is built as `Point(a, b)` (a point copied, anything else not a number failing), and the call fails iff a corner does; 3 or more than 4 arguments is a count error; other 1- or 2-argument forms are a type error |
| Rects.XSpan | rect.py:58-60 | adding the x span to p0's x gives p1's x |
| Rects.YSpan | rect.py:62-64 | adding the y span to p0's y gives p1's y |
| Rects.IsEmpty | rect.py:74-76 | empty iff the extent in x or in y is within the tolerance |
| Rects.Width | rect.py:66-68 | width is non-negative and equals the x span up to sign |
| Rects.Height | rect.py:70-72 | height is non-negative and equals the y span up to sign |
| Rects.Center | rect.py:78-80 | the centre is equally far from p0 and from p1 |
| Rects.MoveCenter | rect.py:82-86 | after the move the centre is the target, and both spans (signs included) are unchanged |
| Rects.Translate | document.py:35 | p0 moves by the vector and both spans are unchanged |
| Rects.Unite | document.py:43 | the union is normalised, covers both rects, and lies inside every rect that covers both |
| Rects.ConstructionErrors | rect.py:32-41 | one number, two numbers and three numbers are refused; two points are kept unsorted |
| Rects.SizeIsExtent | rect.py:58-72 | width and height are the distances between opposite borders |
| Rects.SpanExample | rect.py:58-64 | a span keeps its sign while the size does not |
| Rects.EmptyExamples | rect.py:74-76 | empty iff a size is within the tolerance, on the test cases |
| Rects.ConstructionFormsAgree | rect.py:18-44 | a rect, its two corners and its four coordinates all construct the same rect, for every rect |
| Rects.EmptinessIgnoresPosition | rect.py:74-76 | moving the centre or translating never changes whether a rect is empty |
| Rects.MoveCenterFacts | rect.py:82-86 | moving the centre to itself is a no-op; two moves equal the last one |
| Rects.UniteTranslate | document.py:38-44 | translating both rects translates their union |
| Rects.UniteNormalisedSelf | document.py:40-43 | a normalised rect united with itself is unchanged |
| Parsers.Classify | string_parser.py:37-51 | empty request iff the string is empty, n is 0 or i is past the end; otherwise the range starts at i and has length in 1..len(s)-i, with n clamped |
| Parsers.Record | string_parser.py:52-59 | a found size larger than the range is the only fault; otherwise it records found, start and size, with size 0 on failure |
| Parsers.NewCharParser | string_parser.py:104-112 | refuses an empty character list |
| Parsers.NewNotCharParser | string_parser.py:133-141 | refuses an empty character list |
| Parsers.NewStringParser | string_parser.py:162-170 | refuses an empty literal |
| Parsers.NewNotStringParser | string_parser.py:193-201 | refuses an empty delimiter |
| Parsers.Find | string_parser.py:207 | `find` returns the first start at which the delimiter lies wholly inside the window, or none if there is no such start |
| Parsers.Test | string_parser.py:114-216 | char tests match size 1 iff s[i] is (not) in the list; a literal matches with its length iff it occurs at i; up-to matches the whole range, or up to the first delimiter inside it, and fails exactly when that delimiter fits and sits at i |
| Parsers.Match | string_parser.py:31-61 | an empty request records canMatchEmpty at i+n with size 0; otherwise it records start i and a size at most the range, 0 without a match, and fails only on a wrong size from the test |
| Parsers.PySlice | string_parser.py:97 | Python slicing: an in-range slice is the subsequence, and equal bounds give the empty string |
| Parsers.GetMatch | string_parser.py:86-97 | fails with no match, or when start is past the end or start+size overruns; otherwise returns exactly s[start:start+size] |
| Parsers.MatchThenGetMatch | string_parser.py:86-97 | after a successful non-empty-request match, getMatch on the same string returns the matched characters |
| Parsers.LiteralExamples | string_parser_test.py:34-64 | a literal matches at 0 and at an offset but not at a non-matching index 0; getMatch returns it |
| Parsers.AlwaysMatchingTestMayMatchEmpty | string_parser_test.py:52-72 | an always-succeeding test may record an empty match at an offset, which getMatch returns as "" |
| Parsers.EmptyRequestStart | string_parser.py:41-46 | the shortcut records start i+n, which can be negative, and then getMatch still gives "" |
| Parsers.UpToExamples | string_parser.py:203-216 | text before the delimiter; failure with the delimiter first; the whole range when the delimiter does not fit |
| Parsers.LiteralPastRangeIsFatal | string_parser.py:172-180 | a literal that is present but reaches past the range makes match raise the wrong-size error |
| Parsers.CheckedLiteralTest | string_parser.py:78-81 | the literal test with the length check: found iff the literal lies inside the range, and the size never exceeds the range |
| Parsers.CheckedLiteralNeverFatal | string_parser.py:52-59 | with the length check, matching a literal never raises, and it agrees with the unchecked test when the literal fits |
| Latex.LetterRun | latex_parser.py:12-14 | the letter run from a position is maximal inside the range |
| Latex.MaximalRunUnique | latex_parser.py:12-14 | there is only one maximal run from a position |
| Latex.ScanName | latex_parser.py:20-24 | yields a name iff `\` and a non-empty maximal letter run follow at the start |
| Latex.CommandNameUnique | latex_parser.py:20-26 | two names recognised at the same place are equal |
| Latex.CommandTest | latex_parser.py:20-32 | found iff a recognised name is in the fixed case-sensitive list; the size is then 1 plus the name's length; size 0 on failure |
| Latex.Match | latex_parser.py:20-32 | the parser contract holds, matching a command never raises, and the outcome is the command test on the clamped range |
| Latex.CommandExamples | latex_parser_test.py:8-19 | `\alpha \beta` matches `\alpha` without the space; `\Alpha \beta` does not match |
| Latex.UnknownCommandFails | latex_parser.py:26-29 | a well-formed command whose name is not listed records no match with size 0 |
| Latex.CommandAtPrefix | latex_parser.py:12-14 | a non-empty run of letters after `\` at the start, not followed by a letter, is the command recognised there |
| Latex.ListedCommandsMatch | latex_parser.py:5 | each of the listed names after `\`, not followed by a letter, matches in full with size 1 plus its length |
| Documents.GetText | document.py:166-178 | a word yields its text verbatim; a symbol yields its table entry, or an unknown-symbol error when the table lacks it |
| Documents.NewWord | document.py:160-167 | a new word is unmeasured, has the given style (default 'body'), and its text is the given text under every symbol table |
| Documents.NewSymbol | document.py:170-177 | a new symbol is unmeasured, has the given style (default 'symbol'), and its text is the table entry for its name, failing iff the name is missing |
| Documents.NewMathVariable | document.py:180-183 | a math variable is an unmeasured word in the 'math-var' style with the given text |
| Documents.NewMathSign | document.py:187-192 | a math sign is an unmeasured word in the 'math-symbol' style; `-` reads as U+2212 and any other sign as given |
| Documents.WritePDF | document.py:136-142 | a leaf writes its text; a paragraph succeeds iff every present child can be written; a MultiItem has no writePDF |
| Documents.WriteFrom | document.py:250-256 | the paragraph loop succeeds iff every present child from the position on can be written |
| Documents.AppendItem | document.py:18-20 | only a MultiItem appends: one more child, at the end, with earlier children and the rect unchanged |
| Documents.Include | document.py:40-43 | the accumulated union is normalised and covers both the new rect and what came before |
| Documents.UnionRect | document.py:38-44 | fails iff a present child has no rect; none iff no child is present; otherwise normalised and covering every present child |
| Documents.MoveAndRefit | document.py:33-36 | a moved child has its rect moved by the vector, its subtree's shape and sizes unchanged, and fails without a rect or as a paragraph |
| Documents.RefitFrom | document.py:33-36 | every present child is moved by the same vector, refitted, and keeps its shape and sizes; empty slots stay empty |
| Documents.RefitBody | document.py:31-36 | succeeds iff the union and all child refits do; each present child then moves by the one vector computed before anything moved |
| Documents.Vector | document.py:31-32 | the refit vector carries the union's p0 onto the item's new p0 |
| Documents.Refit | document.py:156-158 | a leaf's refit changes nothing; a paragraph has none; a MultiItem keeps its rect and sizes and needs a rect |
| Documents.TitleStyle | document.py:340-342 | every present leaf child gets the 'title' style and nothing else about the children changes |
| Documents.DeepTranslate | document.py:22-30 | the rigid move of a whole subtree keeps its shape and sizes and moves its rect |
| Documents.LeafTexts | document.py:161-192 | Word/Symbol/MathVariable/MathSign texts and default styles; `-` is stored as U+2212 and other signs as given |
| Documents.ParagraphExample | document.py:250-256 | child texts each followed by one space, empty slots skipped; the first unwritable child's error wins |
| Documents.WriteFromAppend | document.py:250-256 | appending a child appends its text and a space to the paragraph's text, or its error |
| Documents.TitleKeepsText | document.py:340-342 | the title style never changes what a paragraph writes |
| Documents.RestyleKeepsText | document.py:340-342 | restyling a slot keeps it present or empty and never changes what its item writes |
| Documents.TitleStyleIdempotent | document.py:340-342 | applying the title style twice equals applying it once |
| Documents.AppendThenUnion | document.py:18-44 | after appending a measured child, the union is the old union grown to cover it |
| Documents.UnionIsSmallest | document.py:38-44 | the union lies inside every rect that covers all present children |
| Documents.UnionOfMoved | document.py:38-44 | moving every present child by d moves the union by d |
| Documents.IncludeShift | document.py:40-43 | growing the union accumulator by a moved rect is the moved result of growing it by the rect |
| Documents.MoveAndRefitFits | document.py:33-36 | a successful refit of a moved child leaves it fitted |
| Documents.RefitBodyFits | document.py:22-36 | after a successful refit, the children's union starts at the item's p0 at every depth |
| Documents.RefitFromFitted | document.py:33-36 | children that are already fitted are each moved rigidly by the vector |
| Documents.MoveAndRefitFitted | document.py:33-36 | moving a fitted child and refitting it moves its whole subtree by the same vector |
| Documents.RefitBodyFitted | document.py:31-36 | when a fitted item's rect moves by d, the refit vector is d and the result is the rigid move by d |
| Documents.RefitAfterMove | document.py:22-36 | after a fitted MultiItem's rect is translated by d, refit moves every rect beneath it by exactly d and changes nothing else |
| Documents.RefitFits | document.py:22-44 | a successful refit leaves the MultiItem fitted |
| Documents.RefitIdempotent | document.py:22-44 | refitting a freshly refitted MultiItem changes nothing |

## Left out

- `Parser.clone`, `CommandParser.clone` and `hasMatch`: a parser here is an immutable configuration and its match state a returned value. A clone is the configuration itself, a new parser's state is `Parsers.Fresh`, and `hasMatch` is the `hasMatch` field of the state.
- Negative start indices `i` for `match`: the index is a natural number. The negative start recorded by the empty-request shortcut (`i + n`) is modelled.
- Python's Unicode `isalpha`: a command name is a run of ASCII letters.
- Python 2's split between byte strings and unicode strings: every string here is a sequence of characters. The implicit ASCII decode when a paragraph concatenates a non-ASCII byte-string word with a unicode symbol or sign, and the `UnicodeDecodeError` it raises, are not modelled; `Documents.WritePDF` succeeds there.
- Object identity, sharing and aliasing: items and points are values. In the source, a child object appended twice to a `MultiItem` is moved twice by one refit (document.py:33-36); so is a `Rect` or `Point` object shared between two items, or between a child and its parent, and `p2 = p1` makes a later `p2.set` visible through `p1` (point_test.py:78-81). The refit theorems hold for trees in which no item, `Rect` or `Point` object is reachable twice.
- `SeqParser`, `AlphaParser`, `ListParser`, `WordParser` and the other combinators are not part of this model.
- Float conversion of strings and the `ValueError` of a non-numeric coordinate. A non-point, non-number argument to the rectangle constructor is `Err(NotANumber)`.
- `translate(dx)` with no `dy` raises a type error in the source. The model always takes both components.
- `__str__` of points and rects, and IEEE rounding: coordinates are exact reals.
- `Rect.vertex`/`setVertex`, `adjust`, the alignment helpers and `Rect.translate`/`unite` are not part of this model; `Rects.Translate` and `Rects.Unite` are the stated assumptions.
- All FPDF measuring and drawing: `initPDF`, `setFontPDF`, every `resizePDF`/`cellPDF`, `Document.setPDF`/`outputPDF`, paragraph line fitting and the `InlineMathBlock` layout. They depend on font metrics and a PDF library.
- `Document.appendItem`: `Document` never initialises its child list, so the method can only fail. Paragraph children are likewise taken as a given sequence, since `Paragraph` never initialises `items` either.
- The contents of the symbol table and the style presets: the table is a parameter `SymbolTable`, and styles are names.
- Documents.TitleStyle: the source also sets a `style` attribute on present children that are not leaves. Only leaves carry a style here; only the measuring and drawing code reads it on other items, and both are left out.
- Documents.RefitAfterMove: requires the tree to be fitted before the move. Without that, refit moves the children to the parent's p0, not by the parent's displacement.

## Findings

| source | as written | input that shows it | evidently intended | confidence | as-written member | corrected member |
|---|---|---|---|---|---|---|
| string_parser.py:172-180 | StringParser's test compares the literal with `s` from `i` without looking at the searched length `n`, so a literal that is present but extends past the range reports a size larger than `n`, and `match` raises its wrong-size error | `StringParser('ABC').match('ABC', 0, 2)` | the base class requires every test to check that `n` is big enough for it (string_parser.py:78-81): the literal is simply not matched in the range | high; not executed | Parsers.LiteralPastRangeIsFatal | Parsers.CheckedLiteralTest |

`Parsers.Match` keeps the as-written literal test, so that it describes the
program as it is. Nothing else in the model depends on the literal matcher.
`Parsers.CheckedLiteralNeverFatal` proves the corrected test never raises
and agrees with the original whenever the literal fits the range.
