# WiParser core in Dafny

A model of the parser-combinator engine of WiParser (`src/parser.cpp`) and
of the helpers it uses (`src/utilities.cpp`, `lib/utilities.hpp`), with
proofs of what each parser promises.

A parse state (`ParseState.State`) holds the target text, an index into it,
the last result and an optional error; it is failed exactly when the error
is present. The source passes states by value and its setters act on a copy,
so a state is a datatype and a setter is a field update.

A parser (`Engine.Parser`) is a tree of combinators:

- primitives: literal string, choice of literal strings, one character of a
  class, one-or-more and zero-or-more characters of a class;
- structural combinators: sequence, ordered choice, many, many1, between,
  separated-by;
- transforms: map, chain, flatten, lazy, do-nothing.

`Engine.Run(arena, p, s, fuel)` is the meaning of `parser_t::run`. A lazy
parser names a slot of an arena of parsers, which is how recursive grammars
are tied. Each parser call and each round of the many and separated-by loops
costs one unit of fuel, because those loops never end when their child
succeeds without consuming input. A run ends with `Done(state)`,
`OutOfFuel`, or `Unbound(slot)` for a lazy slot outside the arena.

The loops of the source are kept as imperative methods in module `Exec`.
They reassign the current state and append to a results sequence, and each
is proved to end exactly as `Engine.Run` says. Many over a single-character
parser always consumes a character per round, so the character runs use a
fuel-free loop (`Primitives.CharLoop`), and
`CombinatorLaws.ManyOfCharIsCharLoop` proves it equal to the general many
loop.

Behaviours of the source that the model keeps as written:

- The literal parser reports "Unexpected end of string" only when the whole
  target is empty. At the end of a non-empty target it reports "Couldn't
  match".
- An empty literal succeeds without moving whenever the target is non-empty
  and the index is at most the target's length.
- A failing many1, and the separated-by parser with a missing child, return
  a fresh default state: empty target, index 0.
- Separated-by keeps a separator it consumed when the value after it fails.
- Sequence keeps running its children after one fails. The result is still
  the failing child's state, because every parser passes a failed state
  through (`EngineLaws.SequenceLoopAfterFailure`).

Modules, one file each:

- `wrappers.dfy` — Option and Result.
- `values.dfy` — result values and `flatten_vector`.
- `utilities.dfy` — `string_starts_with`, `string_at_most`, `any_to_string`,
  `vector_to_string`.
- `state.dfy` — the state and its transforms.
- `primitives.dfy` — the primitive parsers.
- `engine.dfy` — `Run`.
- `exec.dfy` — the loops of the source as methods.
- `engine_laws.dfy` — failure propagation, success bounds, fuel
  monotonicity.
- `combinator_laws.dfy` — what each combinator does with its children.
- `examples.dfy` — concrete runs of small grammars.

## Model

| member | source | states |
|---|---|---|
| Values.IsSmartString | src/utilities.cpp:60-65 | true exactly for the string kinds; false for an int, a list and any other kind |
| Values.SmartStringCast | src/utilities.cpp:60-76 | the three string kinds give their text; any other kind gives "??" |
| Values.FlattenVector | src/utilities.cpp:40-58 | the loop with recursion computes `Flatten`; a non-list gives the one-element list holding it |
| Values.FlattenItemsAppend | src/utilities.cpp:47-57 | flattening distributes over concatenation of element lists |
| Values.FlattenCons | src/utilities.cpp:47-57 | a list flattens to its first element's flattening followed by the rest's |
| Values.FlattenIsFlat | src/utilities.cpp:40-58 | a flattened value holds no nested list |
| Values.FlattenItemsOfFlat | src/utilities.cpp:47-57 | flattening a list without nested lists returns it unchanged |
| Values.FlattenIdempotent | src/utilities.cpp:40-58 | flattening twice is flattening once |
| Utilities.StringStartsWith | src/utilities.cpp:29-38 | true iff index + \|prefix\| <= \|s\| and the slice of s at index equals prefix; for an empty prefix, iff index <= \|s\| |
| Utilities.AtMost | lib/utilities.hpp:87-105 | "" when at_most is 0 or from is at or past the end; without ellipsis, the min(at_most, \|s\| - from) characters of s from `from`; with ellipsis, that snippet followed by "..." when at_most > 0 and from + at_most < \|s\|, and that snippet alone otherwise |
| Utilities.StringAtMost | lib/utilities.hpp:87-105 | the counting loop computes `AtMost`; it starts with s[from]; with ellipsis and at_most > 0, "..." is appended iff from + at_most < \|s\| |
| Utilities.NatToDecimalDigits | lib/utilities.hpp:66-67 | the decimal text of a natural is non-empty, all digits, and reads back as the number |
| Utilities.IntToDecimalRoundTrip | lib/utilities.hpp:66-67 | reading back the decimal rendering of an int gives the int |
| Utilities.AnyToString | lib/utilities.hpp:53-72 | the case dispatch computes `Render` (lists, strings quoted iff asked, ints, error otherwise) |
| Utilities.VectorToString | lib/utilities.hpp:74-85 | the stream loop computes `RenderList` |
| Utilities.RenderSucceedsIff | lib/utilities.hpp:53-72 | rendering succeeds iff the value holds no kind outside strings, ints and lists |
| Utilities.RenderListSucceedsIff | lib/utilities.hpp:74-85 | a list renders iff each element renders |
| Utilities.RenderSeparatedSucceedsIff | lib/utilities.hpp:79-82 | the text written by the loop exists iff each element renders |
| Utilities.RenderSeparatedFailure | lib/utilities.hpp:79-84 | a failure in the first k elements is the list's failure |
| Utilities.JoinSnoc | lib/utilities.hpp:79-84 | joining with one more part appends the separator and the part |
| Utilities.RenderListIsJoin | lib/utilities.hpp:74-85 | a non-empty renderable list renders as "[" + the renderings joined by ", " + "]", in order |
| Utilities.RenderSeparatedIsJoin | lib/utilities.hpp:79-82 | the loop writes each rendering followed by ", ", in order |
| Utilities.Renderings | lib/utilities.hpp:79-84 | one rendering per element |
| ParseState.Default | src/parser.cpp:29-34 | an ok state with empty target, index 0 and result "" |
| ParseState.Initial | src/parser.cpp:36-42 | an ok state on the given target at index 0 with result "" |
| ParseState.MapResult | src/parser.cpp:95-101 | target, index and error unchanged; the result becomes f(result) only for an ok state |
| ParseState.MapError | src/parser.cpp:103-109 | target, index and result unchanged; the error becomes f(error) only for a failed state |
| ParseState.MapNested | src/parser.cpp:111-126 | a list keeps its top-level length (the shape at every depth is `MapNestedShape`) |
| ParseState.MapNestedInPlace | src/parser.cpp:111-126 | overwriting list elements in place computes `MapNested` |
| ParseState.MapNestedResult | src/parser.cpp:111-126 | only the result changes, and only for an ok state, where it becomes `MapNested` of the old result |
| ParseState.MapNestedIdentity | src/parser.cpp:111-126 | mapping each string leaf back to itself gives the same value |
| ParseState.MapNestedShape | src/parser.cpp:115-124 | when f yields no lists, the mapped value has the same nesting shape as the original at every depth |
| ParseState.MapNestedLeaves | src/parser.cpp:115-124 | when f yields no lists, the flattened leaves of the mapped value are f of the original's flattened leaves, one for one and in order |
| ParseState.FlattenOfStrLeaves | src/parser.cpp:111-126 | a value with only string leaves flattens to strings |
| ParseState.FlattenResult | src/parser.cpp:136-142 | an ok state's result becomes the list `Flatten` of the old result, which holds no nested list; a failed state keeps its result; target, index and error unchanged |
| Primitives.RunLiteral | src/parser.cpp:524-545 | a failed input passes through; success iff the target is non-empty and the literal occurs at the index; success gives a fresh state past the literal with the literal as result; failure keeps target and index with result ""; an empty target gives "Unexpected end of string" |
| Primitives.WordsFirstMatch | src/parser.cpp:565-581 | choice of strings succeeds iff some word matches at the index, and then with the state of the first word that matches; otherwise the input state fails with result "" |
| Primitives.RunChar | src/parser.cpp:591-615 | success iff the index is inside the target and the character there is in the class; success moves by one with that character as result; failure keeps target and index with result "" |
| Primitives.CharValues | src/parser.cpp:603-607 | one value per character |
| Primitives.CharLoopStops | src/parser.cpp:373-389 | the loop of many over a char parser ends at the end of the longest run of matching characters |
| Primitives.CharLoopSpec | src/parser.cpp:373-389 | that loop collects one value per character of that run, in order |
| Primitives.ConcatCharValues | src/parser.cpp:643-650 | joining the one-character values gives back the text |
| Primitives.ManyChars | src/parser.cpp:373-389 | many over a char parser never fails on an ok input and stops at the end of the longest matching run |
| Primitives.Many1Check | src/parser.cpp:395-407 | fails iff many failed or its list is empty; an empty list gives a fresh state with empty target and index 0; otherwise many's state unchanged |
| Primitives.RunChars | src/parser.cpp:637-652 | success iff the character at the index is in the class; success keeps the target, moves past the longest matching run and has that run as result; failure gives empty target and index 0 |
| Primitives.RunMaybeChars | src/parser.cpp:674-686 | never fails on an ok input; moves past the longest matching run, possibly empty, with that run as result |
| Engine.Run | src/parser.cpp:202-205 | a run stops at an unbound lazy parser only when its slot lies outside the arena |
| Engine.SequenceRun | src/parser.cpp:319-334 | an ok result is a list with one value per child |
| Engine.SequenceLoop | src/parser.cpp:324-333 | an ok result starts with the values already collected and adds one per remaining child |
| Engine.ChoiceLoop | src/parser.cpp:354-362 | a failed result is the input state with result "" and the choice error |
| Engine.ManyRun | src/parser.cpp:373-389 | fails exactly when its input did; on an ok input the result is a list and there is no error |
| Engine.ManyLoop | src/parser.cpp:380-388 | never fails; the list starts with the values already collected |
| Engine.SepByLoop | src/parser.cpp:483-497 | never fails; the list starts with the values already collected |
| Exec.Execute | src/parser.cpp:173-686 | the dispatch over parser kinds ends exactly as `Run` |
| Exec.ExecTransform | src/parser.cpp:202-299 | the runs of lazy, map, chain and flatten, each wrapping one child, end exactly as `Run` |
| Exec.ExecSequence | src/parser.cpp:319-334 | the loop over the children ends exactly as `SequenceRun` |
| Exec.ExecChoice | src/parser.cpp:349-363 | the loop over the alternatives ends exactly as `ChoiceLoop` |
| Exec.ExecMany | src/parser.cpp:373-389 | the do-while loop ends exactly as `ManyRun` |
| Exec.ExecSepBy | src/parser.cpp:483-497 | the loop of values and separators ends exactly as `SepByLoop` |
| Exec.ExecWords | src/parser.cpp:565-581 | the loop over the words ends exactly as the choice of strings |
| Exec.ExecManyChars | src/parser.cpp:373-389 | the loop of many over a char parser ends exactly as `ManyChars` |
| Exec.JoinStrings | src/parser.cpp:643-650 | the concatenation loop gives the strings of the list joined in order |
| Exec.ExecChars | src/parser.cpp:637-652 | ends exactly as `RunChars`, or `RunMaybeChars` for maybe-chars |
| EngineLaws.FailurePropagates | src/parser.cpp:321-322 | every parser returns an already failed state unchanged |
| EngineLaws.SequenceLoopAfterFailure | src/parser.cpp:325-331 | after a failed child the sequence returns that child's state |
| EngineLaws.SuccessBounds | src/parser.cpp:524-545 | on success the target is kept and the index neither moves back nor passes the end of the target |
| EngineLaws.FuelMonotone | src/parser.cpp:380-386 | once some fuel decides an outcome, any larger fuel decides the same |
| CombinatorLaws.SequenceEmpty | src/parser.cpp:319-334 | a sequence with no children keeps the state and gives an empty list |
| CombinatorLaws.SequenceLoopShift | src/parser.cpp:324-333 | values collected earlier end up in front of the list |
| CombinatorLaws.SequenceCons | src/parser.cpp:319-334 | a sequence runs its first child, then the rest on that child's state, with the first result heading the list; a failing first child's state is the sequence's |
| CombinatorLaws.BetweenParts | src/parser.cpp:431-447 | between succeeds iff left, content and right succeed in turn; it ends where right ended, with the content's result |
| CombinatorLaws.ChoiceLoopFirst | src/parser.cpp:354-357 | the first succeeding alternative after failing ones decides the choice |
| CombinatorLaws.ChoiceLoopAllFail | src/parser.cpp:360-362 | when all alternatives fail the input state fails with result "" |
| CombinatorLaws.ChoiceLoopWitness | src/parser.cpp:354-357 | a success is the run of one of the alternatives |
| CombinatorLaws.ChoiceOrdered | src/parser.cpp:349-363 | the three facts above for the choice parser: each alternative runs on the same input state |
| CombinatorLaws.ManyLoopShift | src/parser.cpp:380-388 | values collected earlier end up in front of the list |
| CombinatorLaws.ManyStep | src/parser.cpp:373-389 | a failing child gives an empty list at the input index; a succeeding child's result heads the list many collects from where it stopped |
| CombinatorLaws.ManyNeverFails | src/parser.cpp:373-389 | many never fails on an ok input and gives a list |
| CombinatorLaws.Many1VsMany | src/parser.cpp:395-407 | many1 is many's state when the list is non-empty, and a failed fresh state otherwise |
| CombinatorLaws.ManyOfDoNothingDiverges | src/parser.cpp:380-386 | many over a parser that succeeds without consuming never ends |
| CombinatorLaws.ManyOfCharIsCharLoop | src/parser.cpp:373-389 | the many loop over a char parser equals the fuel-free char loop given enough fuel |
| CombinatorLaws.CharsIsMany1OfChar | src/parser.cpp:637-639 | chars runs many1 over the char parser |
| CombinatorLaws.SepByLoopShift | src/parser.cpp:485-495 | values collected earlier end up in front of the list |
| CombinatorLaws.SepByStep | src/parser.cpp:468-498 | one round: a failing value gives an empty list at the input index; a value then a failing separator gives that value, just after it; a value then a separator heads the list collected after the separator, which stays consumed |
| CombinatorLaws.SeparatedByOutcomes | src/parser.cpp:468-498 | a missing separator or value parser gives a fresh failed state with its message; with both set it never fails and gives a list |
| CombinatorLaws.MapIdentity | src/parser.cpp:227-233 | mapping with the identity changes nothing |
| CombinatorLaws.MapFusion | src/parser.cpp:227-233 | two maps are one map with the composed function |
| CombinatorLaws.FlattenTwice | src/parser.cpp:293-299 | flattening twice is flattening once |
| CombinatorLaws.ChainLeftIdentity | src/parser.cpp:261-267 | chaining from do-nothing runs the chosen parser on the input |
| CombinatorLaws.ChainRightIdentity | src/parser.cpp:128-134 | chaining into do-nothing is the child alone |
| Examples.ParenthesisedNumber | src/parser.cpp:431-447 | between "(" and ")" over digits parses "(42)" to "42" at index 4 |
| Examples.ThreeNumbers | src/parser.cpp:468-498 | digits separated by "," parse "1,2,3" to the three numbers at index 5 |
| Examples.NoNumbers | src/parser.cpp:468-498 | the same parser gives an empty list on "" |
| Examples.TrailingSeparator | src/parser.cpp:491-494 | on "1,2," it gives the two numbers and stops at index 4, past the last comma |

## Left out

- Engine.Run: the arena and the fuel bound are the model's. A run that would not end in the source is `OutOfFuel` here, and a lazy parser without a target (a null pointer dereference in the source) is `Unbound`. `EngineLaws.FuelMonotone` shows that fuel never changes a decided outcome.
- Engine.Run: between requires its left, right and content parsers, and flatten its child. The source's constructors can leave all three between children null (src/parser.cpp:411-421), and running a null child is a crash, so the model has no null. The separated-by children are `Option`s, because the source checks them.
- Utilities.AnyToString: the throw on an unknown kind is the `Failure` of a `Result`.
- ParseState.MapNestedResult: a leaf that is not a string makes `std::any_cast` throw in the source; here every leaf must be a string (`StrLeaves`). The chars lambdas meet the same condition (`Primitives.Concat`).
- ParseState.MapNestedResult: `std::any_cast<std::string>` also throws on a `char*` or `const char*` leaf, such as the `""` a fresh state or a failure stores. `Str` merges the three string kinds, so `StrLeaves` admits such a leaf, and the model maps it with f where the source throws `bad_any_cast`.
- A Dafny `char` stands for one byte of the `std::string`, so indices and lengths count bytes, and a multi-byte character is several `char`s.
- Values.Value: the three string kinds (`std::string`, `char*`, `const char*`) are one `Str`. So a failure's result `""` (a `const char*`) and a parsed string compare equal here. Int is a 32-bit range; any kind the renderer does not know is `Other` with its type name.
- `std::regex` is replaced by `Primitives.CharClass`: letters `[A-Za-z]`, digits `[0-9]`, whitespace (space, tab, line feed, vertical tab, form feed, carriage return), or a custom set.
- `parser_state_t::chain` (src/parser.cpp:128-134) runs a parser, so it is part of the chained case of `Engine.Run` rather than a separate function.
- The state setters (src/parser.cpp:44-72) act on copies, so they are field updates of the datatype and not methods.
- `parser_state_t::to_string` (src/parser.cpp:145-167) is debug output and is not modelled.
- `parser_t::run` of the base class throws and is never reached; the `throw -1` in between is unreachable because its sequence always has three values.
- `size_t` overflow in `index + prefix.size()` cannot arise with unbounded indices.
- test.cpp (a sample grammar with a floating-point evaluator and console output) is not part of this model.
- lib/parser.hpp is not part of this model. It disagrees with src/parser.cpp on the error field and on the literal parser's class name, and the model follows src/parser.cpp.
