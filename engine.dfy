/** The parsers of src/parser.cpp and what `run` does with each of them.

    A parser is a tree of combinators. The source links parsers by raw
    pointers and ties recursive grammars with lazy_parser_t; here a `Lazy`
    node names a slot of an arena of parsers, and a slot outside the arena
    stands for the null pointer the source would dereference.

    `Run` is the meaning of `parser_t::run`. It takes fuel because a grammar
    may recurse through the arena and because many_parser_t and
    separated_by_parser_t loop for as long as their child succeeds, which is
    forever when the child succeeds without consuming input. Every call of a
    parser, and every round of those two loops, costs one unit of fuel. */
module Engine {
  import opened Wrappers
  import opened Values
  import opened Utilities
  import opened ParseState
  import opened Primitives

  datatype Parser =
    | DoNothing
    | Lazy(slot: nat)
    | Mapped(inner: Parser, f: Value -> Value)
    | Chained(inner: Parser, next: Value -> Parser)
    | Flattened(inner: Parser)
    | Sequence(ps: seq<Parser>)
    | Choice(alternatives: seq<Parser>)
    | Many(child: Parser)
    | Many1(child: Parser)
    | Between(left: Parser, right: Parser, content: Parser)
    | SeparatedBy(separator: Option<Parser>, value: Option<Parser>)
    | Literal(text: string)
    | ChoiceOfStrings(words: seq<string>)
    | Char(cls: CharClass)
    | Chars(cls: CharClass)
    | MaybeChars(cls: CharClass)

  /** How a run ends: with a state, for lack of fuel, or at a lazy parser
      whose slot holds no parser. */
  datatype Outcome = Done(state: State) | OutOfFuel | Unbound(slot: nat)

  const SeparatorNullError := "separated_by_parser_t::run(): seaparator_parser is NULL"
  const ValueNullError := "separated_by_parser_t::run(): value_parser is NULL"

  function ChoiceError(s: State): string
  {
    "choice_of_parser_t::run(): Unable to match with any parser the string \""
      + AtMost(s.target, SnippetLength, s.index, false) + "\""
  }

  /** parser_t::run for every kind of parser. */
  function Run(arena: seq<Parser>, p: Parser, s: State, fuel: nat): (o: Outcome)
    ensures o.Unbound? ==> o.slot >= |arena|
    decreases fuel, 0
  {
    if fuel == 0 then OutOfFuel
    else match p
      case DoNothing => Done(s)
      case Lazy(slot) =>
        if slot < |arena| then Run(arena, arena[slot], s, fuel - 1) else Unbound(slot)
      case Mapped(inner, f) =>
        if s.Failed() then Done(s)
        else (match Run(arena, inner, s, fuel - 1)
              case Done(t) => Done(MapResult(t, f))
              case other => other)
      case Chained(inner, next) =>
        if s.Failed() then Done(s)
        else (match Run(arena, inner, s, fuel - 1)
              case Done(t) => if t.Failed() then Done(t) else Run(arena, next(t.result), t, fuel - 1)
              case other => other)
      case Flattened(inner) =>
        if s.Failed() then Done(s)
        else (match Run(arena, inner, s, fuel - 1)
              case Done(t) => Done(FlattenResult(t))
              case other => other)
      case Sequence(ps) => SequenceRun(arena, ps, s, fuel - 1)
      case Choice(ps) =>
        if s.Failed() then Done(s) else ChoiceLoop(arena, ps, s, fuel - 1)
      case Many(q) => ManyRun(arena, q, s, fuel - 1)
      case Many1(q) =>
        (match ManyRun(arena, q, s, fuel - 1)
         case Done(m) => Done(Many1Check(m))
         case other => other)
      case Between(l, r, c) =>
        (match SequenceRun(arena, [l, c, r], s, fuel - 1)
         case Done(t) => Done(if t.Failed() then t else t.(result := t.result.items[1]))
         case other => other)
      case SeparatedBy(sep, val) =>
        if s.Failed() then Done(s)
        else if sep.None? then Done(Default().(result := Str(""), error := Some(SeparatorNullError)))
        else if val.None? then Done(Default().(result := Str(""), error := Some(ValueNullError)))
        else SepByLoop(arena, sep.value, val.value, s, [], true, fuel - 1)
      case Literal(text) => Done(RunLiteral(text, s))
      case ChoiceOfStrings(words) => Done(RunWords(words, s))
      case Char(c) => Done(RunChar(c, s))
      case Chars(c) => Done(RunChars(c, s))
      case MaybeChars(c) => Done(RunMaybeChars(c, s))
  }

  // ---------------------------------------------------------------------------
  // sequence_of_parser_t

  /** sequence_of_parser_t::run: a failed input is returned as it is. */
  function SequenceRun(arena: seq<Parser>, ps: seq<Parser>, s: State, fuel: nat): (o: Outcome)
    ensures o.Done? && !o.state.Failed() ==> o.state.result.List? && |o.state.result.items| == |ps|
    ensures o.Unbound? ==> o.slot >= |arena|
    decreases fuel, 2
  {
    if s.Failed() then Done(s) else SequenceLoop(arena, ps, s, [], fuel)
  }

  /** The loop of sequence_of_parser_t: every child runs on the state the
      previous one returned, even after a failure, and its result is
      appended to `acc`; at the end a failed state is returned as it is and
      an ok one gets the list of results. */
  function SequenceLoop(arena: seq<Parser>, ps: seq<Parser>, cur: State, acc: seq<Value>, fuel: nat): (o: Outcome)
    ensures o.Done? && !o.state.Failed() ==>
              o.state.result.List? && |o.state.result.items| == |acc| + |ps|
              && o.state.result.items[..|acc|] == acc
    ensures o.Unbound? ==> o.slot >= |arena|
    decreases fuel, 1, |ps|
  {
    if ps == [] then Done(if cur.Failed() then cur else cur.(result := List(acc)))
    else match Run(arena, ps[0], cur, fuel)
      case Done(t) => SequenceLoop(arena, ps[1..], t, acc + [t.result], fuel)
      case other => other
  }

  // ---------------------------------------------------------------------------
  // choice_of_parser_t

  /** The loop of choice_of_parser_t: every alternative runs on the same
      state `s`; the first ok state is returned, and when there is none `s`
      fails with result "". */
  function ChoiceLoop(arena: seq<Parser>, ps: seq<Parser>, s: State, fuel: nat): (o: Outcome)
    ensures o.Done? && o.state.Failed() ==> o.state == s.(result := Str(""), error := Some(ChoiceError(s)))
    ensures o.Unbound? ==> o.slot >= |arena|
    decreases fuel, 1, |ps|
  {
    if ps == [] then Done(s.(result := Str(""), error := Some(ChoiceError(s))))
    else match Run(arena, ps[0], s, fuel)
      case Done(t) => if !t.Failed() then Done(t) else ChoiceLoop(arena, ps[1..], s, fuel)
      case other => other
  }

  // ---------------------------------------------------------------------------
  // many_parser_t

  /** many_parser_t::run: a failed input is returned as it is. */
  function ManyRun(arena: seq<Parser>, q: Parser, s: State, fuel: nat): (o: Outcome)
    ensures o.Done? ==> o.state.Failed() == s.Failed()
    ensures o.Done? && !s.Failed() ==>
              o.state.result.List? && o.state.error == None
    ensures o.Unbound? ==> o.slot >= |arena|
    decreases fuel, 2
  {
    if s.Failed() then Done(s) else ManyLoop(arena, q, s, [], fuel)
  }

  /** The loop of many_parser_t: run the child on the last ok state until it
      fails, collecting each result; then the last ok state gets the list. */
  function ManyLoop(arena: seq<Parser>, q: Parser, cur: State, acc: seq<Value>, fuel: nat): (o: Outcome)
    requires !cur.Failed()
    ensures o.Done? ==>
              && !o.state.Failed() && o.state.result.List?
              && |o.state.result.items| >= |acc| && o.state.result.items[..|acc|] == acc
    ensures o.Unbound? ==> o.slot >= |arena|
    decreases fuel, 1, 0
  {
    if fuel == 0 then OutOfFuel
    else match Run(arena, q, cur, fuel)
      case Done(t) =>
        if t.Failed() then Done(cur.(result := List(acc)))
        else ManyLoop(arena, q, t, acc + [t.result], fuel - 1)
      case other => other
  }

  /** One round of the many loop, with the child's outcome `o` named. */
  lemma ManyLoopUnfold(arena: seq<Parser>, q: Parser, cur: State, acc: seq<Value>, fuel: nat)
    requires !cur.Failed() && fuel > 0
    ensures var o := Run(arena, q, cur, fuel);
            var whole := ManyLoop(arena, q, cur, acc, fuel);
            && (!o.Done? ==> whole == o)
            && (o.Done? && o.state.Failed() ==> whole == Done(cur.(result := List(acc))))
            && (o.Done? && !o.state.Failed() ==> whole == ManyLoop(arena, q, o.state, acc + [o.state.result], fuel - 1))
  {
  }

  // ---------------------------------------------------------------------------
  // separated_by_parser_t

  /** The loop of separated_by_parser_t. Each round runs the value parser
      and then the separator, each on the last ok state `next`; the first
      failure stops the loop at `next` with the values collected so far, so a
      separator followed by a failing value stays consumed. `wantValue` says
      which half of the round comes next. */
  function SepByLoop(arena: seq<Parser>, sep: Parser, val: Parser, next: State, acc: seq<Value>, wantValue: bool, fuel: nat): (o: Outcome)
    requires !next.Failed()
    ensures o.Done? ==>
              && !o.state.Failed() && o.state.result.List?
              && |o.state.result.items| >= |acc| && o.state.result.items[..|acc|] == acc
    ensures o.Unbound? ==> o.slot >= |arena|
    decreases fuel, 1, if wantValue then 1 else 0
  {
    if fuel == 0 then OutOfFuel
    else match Run(arena, if wantValue then val else sep, next, fuel)
      case Done(t) =>
        if t.Failed() then Done(next.(result := List(acc)))
        else if wantValue then SepByLoop(arena, sep, val, t, acc + [t.result], false, fuel)
        else SepByLoop(arena, sep, val, t, acc, true, fuel - 1)
      case other => other
  }

  /** One half-round of the separated-by loop, with the child's outcome `o`
      named. */
  lemma SepByLoopUnfold(arena: seq<Parser>, sep: Parser, val: Parser, next: State, acc: seq<Value>, wantValue: bool, fuel: nat)
    requires !next.Failed() && fuel > 0
    ensures var o := Run(arena, if wantValue then val else sep, next, fuel);
            var whole := SepByLoop(arena, sep, val, next, acc, wantValue, fuel);
            && (!o.Done? ==> whole == o)
            && (o.Done? && o.state.Failed() ==> whole == Done(next.(result := List(acc))))
            && (o.Done? && !o.state.Failed() && wantValue ==>
                  whole == SepByLoop(arena, sep, val, o.state, acc + [o.state.result], false, fuel))
            && (o.Done? && !o.state.Failed() && !wantValue ==>
                  whole == SepByLoop(arena, sep, val, o.state, acc, true, fuel - 1))
  {
  }
}
