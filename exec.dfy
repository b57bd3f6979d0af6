/** The `run` methods of src/parser.cpp as the source writes them: loops that
    reassign the current state and append each result to a vector. Each
    method is proved to end exactly as `Engine.Run` says. */
module Exec {
  import opened Wrappers
  import opened Values
  import opened ParseState
  import opened Primitives
  import opened Engine

  /** parser_t::run, dispatching on the kind of parser. */
  method Execute(arena: seq<Parser>, p: Parser, s: State, fuel: nat) returns (o: Outcome)
    ensures o == Run(arena, p, s, fuel)
    decreases fuel, 1
  {
    if fuel == 0 {
      return OutOfFuel;
    }
    match p {
      case DoNothing =>
        o := Done(s);
      case Lazy(_) =>
        o := ExecTransform(arena, p, s, fuel);
      case Mapped(_, _) =>
        o := ExecTransform(arena, p, s, fuel);
      case Chained(_, _) =>
        o := ExecTransform(arena, p, s, fuel);
      case Flattened(_) =>
        o := ExecTransform(arena, p, s, fuel);
      case Sequence(ps) =>
        o := ExecSequence(arena, ps, s, fuel - 1);
      case Choice(ps) =>
        o := ExecChoice(arena, ps, s, fuel - 1);
      case Many(q) =>
        o := ExecMany(arena, q, s, fuel - 1);
      case Many1(q) =>
        o := ExecMany(arena, q, s, fuel - 1);
        if o.Done? {
          o := Done(Many1Check(o.state));
        }
      case Between(l, r, c) =>
        o := ExecSequence(arena, [l, c, r], s, fuel - 1);
        if o.Done? && !o.state.Failed() {
          var v := o.state.result.items;
          o := Done(o.state.(result := v[1]));
        }
      case SeparatedBy(sep, val) =>
        if s.Failed() {
          return Done(s);
        }
        if sep.None? {
          return Done(Default().(result := Str(""), error := Some(SeparatorNullError)));
        }
        if val.None? {
          return Done(Default().(result := Str(""), error := Some(ValueNullError)));
        }
        o := ExecSepBy(arena, sep.value, val.value, s, fuel - 1);
      case Literal(text) =>
        o := Done(RunLiteral(text, s));
      case ChoiceOfStrings(words) =>
        var r := ExecWords(words, s);
        o := Done(r);
      case Char(c) =>
        o := Done(RunChar(c, s));
      case Chars(c) =>
        var r := ExecChars(c, s, true);
        o := Done(r);
      case MaybeChars(c) =>
        var r := ExecChars(c, s, false);
        o := Done(r);
    }
  }

  /** The run of the parsers that wrap one child: lazy_parser_t,
      map_parser_t, chain_parser_t and flatten_parser_t. */
  method ExecTransform(arena: seq<Parser>, p: Parser, s: State, fuel: nat) returns (o: Outcome)
    requires fuel > 0 && (p.Lazy? || p.Mapped? || p.Chained? || p.Flattened?)
    ensures o == Run(arena, p, s, fuel)
    decreases fuel, 0
  {
    match p {
      case Lazy(slot) =>
        if slot < |arena| {
          o := Execute(arena, arena[slot], s, fuel - 1);
        } else {
          o := Unbound(slot);
        }
      case Mapped(inner, f) =>
        if s.Failed() {
          return Done(s);
        }
        o := Execute(arena, inner, s, fuel - 1);
        if o.Done? {
          o := Done(MapResult(o.state, f));
        }
      case Chained(inner, next) =>
        if s.Failed() {
          return Done(s);
        }
        o := Execute(arena, inner, s, fuel - 1);
        if o.Done? && !o.state.Failed() {
          var t := o.state;
          o := Execute(arena, next(t.result), t, fuel - 1);
        }
      case Flattened(inner) =>
        if s.Failed() {
          return Done(s);
        }
        o := Execute(arena, inner, s, fuel - 1);
        if o.Done? {
          o := Done(FlattenResult(o.state));
        }
    }
  }

  /** sequence_of_parser_t::run */
  method ExecSequence(arena: seq<Parser>, ps: seq<Parser>, s: State, fuel: nat) returns (o: Outcome)
    ensures o == SequenceRun(arena, ps, s, fuel)
    decreases fuel, 2
  {
    if s.Failed() {
      return Done(s);
    }
    var cur := s;
    var results: seq<Value> := [];
    var i := 0;
    while i < |ps|
      invariant 0 <= i <= |ps|
      invariant SequenceLoop(arena, ps[i..], cur, results, fuel) == SequenceLoop(arena, ps, s, [], fuel)
    {
      assert ps[i..][1..] == ps[i + 1..];
      var next := Execute(arena, ps[i], cur, fuel);
      if !next.Done? {
        return next;
      }
      cur := next.state;
      results := results + [cur.result];
      i := i + 1;
    }
    if cur.Failed() {
      return Done(cur);
    }
    return Done(cur.(result := List(results)));
  }

  /** choice_of_parser_t::run */
  method ExecChoice(arena: seq<Parser>, ps: seq<Parser>, s: State, fuel: nat) returns (o: Outcome)
    ensures o == if s.Failed() then Done(s) else ChoiceLoop(arena, ps, s, fuel)
    decreases fuel, 2
  {
    if s.Failed() {
      return Done(s);
    }
    var i := 0;
    while i < |ps|
      invariant 0 <= i <= |ps|
      invariant ChoiceLoop(arena, ps[i..], s, fuel) == ChoiceLoop(arena, ps, s, fuel)
    {
      assert ps[i..][1..] == ps[i + 1..];
      var next := Execute(arena, ps[i], s, fuel);
      if !next.Done? || !next.state.Failed() {
        return next;
      }
      i := i + 1;
    }
    return Done(s.(result := Str(""), error := Some(ChoiceError(s))));
  }

  /** many_parser_t::run: the source loops until the child fails; here each
      round spends one unit of fuel. */
  method ExecMany(arena: seq<Parser>, q: Parser, s: State, fuel: nat) returns (o: Outcome)
    ensures o == ManyRun(arena, q, s, fuel)
    decreases fuel, 2
  {
    if s.Failed() {
      return Done(s);
    }
    var cur := s;
    var results: seq<Value> := [];
    var f: nat := fuel;
    while true
      invariant f <= fuel && !cur.Failed()
      invariant ManyLoop(arena, q, cur, results, f) == ManyLoop(arena, q, s, [], fuel)
      decreases f
    {
      if f == 0 {
        return OutOfFuel;
      }
      var next := Execute(arena, q, cur, f);
      ManyLoopUnfold(arena, q, cur, results, f);
      if !next.Done? {
        return next;
      }
      if next.state.Failed() {
        return Done(cur.(result := List(results)));
      }
      cur := next.state;
      results := results + [cur.result];
      f := f - 1;
    }
  }

  /** separated_by_parser_t::run once both children are known to be set. */
  method ExecSepBy(arena: seq<Parser>, sep: Parser, val: Parser, s: State, fuel: nat) returns (o: Outcome)
    requires !s.Failed()
    ensures o == SepByLoop(arena, sep, val, s, [], true, fuel)
    decreases fuel, 2
  {
    var next := s;
    var results: seq<Value> := [];
    var f: nat := fuel;
    while true
      invariant f <= fuel && !next.Failed()
      invariant SepByLoop(arena, sep, val, next, results, true, f) == SepByLoop(arena, sep, val, s, [], true, fuel)
      decreases f
    {
      if f == 0 {
        return OutOfFuel;
      }
      var wanted := Execute(arena, val, next, f);
      SepByLoopUnfold(arena, sep, val, next, results, true, f);
      if !wanted.Done? {
        return wanted;
      }
      if wanted.state.Failed() {
        return Done(next.(result := List(results)));
      }
      results := results + [wanted.state.result];
      next := wanted.state;
      assert SepByLoop(arena, sep, val, next, results, false, f) == SepByLoop(arena, sep, val, s, [], true, fuel);
      var separator := Execute(arena, sep, next, f);
      SepByLoopUnfold(arena, sep, val, next, results, false, f);
      if !separator.Done? {
        return separator;
      }
      if separator.state.Failed() {
        return Done(next.(result := List(results)));
      }
      next := separator.state;
      f := f - 1;
    }
  }

  /** choice_of_string_parser_t::run: one literal parser, retargeted at each
      word in turn, run on the same state. */
  method ExecWords(words: seq<string>, s: State) returns (r: State)
    ensures r == RunWords(words, s)
  {
    if s.Failed() {
      return s;
    }
    var i := 0;
    while i < |words|
      invariant 0 <= i <= |words|
      invariant WordsFrom(words[i..], s) == WordsFrom(words, s)
    {
      assert words[i..][1..] == words[i + 1..];
      var next := RunLiteral(words[i], s);
      if !next.Failed() {
        return next;
      }
      i := i + 1;
    }
    return s.(result := Str(""), error := Some(ChoiceOfStringsError(s)));
  }

  /** many_parser_t::run over a char parser: the loop of many with the
      char parser inlined. Each round consumes a character, so it needs no
      fuel. */
  method ExecManyChars(c: CharClass, s: State) returns (m: State)
    ensures m == ManyChars(c, s)
  {
    if s.Failed() {
      return s;
    }
    var cur := s;
    var results: seq<Value> := [];
    while true
      invariant !cur.Failed() && cur.target == s.target
      invariant CharLoop(c, cur, results) == CharLoop(c, s, [])
      decreases |cur.target| - cur.index
    {
      var next := RunChar(c, cur);
      if next.Failed() {
        break;
      }
      cur := next;
      results := results + [next.result];
    }
    m := cur.(result := List(results));
  }

  /** The lambda of chars_parser_t and maybe_chars_parser_t: append the
      string of each element, in order. */
  method JoinStrings(vs: seq<Value>) returns (text: string)
    requires forall k :: 0 <= k < |vs| ==> vs[k].Str?
    ensures text == Concat(vs)
  {
    text := "";
    var i := 0;
    while i < |vs|
      invariant 0 <= i <= |vs|
      invariant text == Concat(vs[..i])
    {
      assert vs[..i + 1][..i] == vs[..i];
      text := text + vs[i].s;
      i := i + 1;
    }
    assert vs[..i] == vs;
  }

  /** chars_parser_t::run (`atLeastOne`) and maybe_chars_parser_t::run: many
      over the char parser, the many1 check for the former, then the
      characters joined into one string. */
  method ExecChars(c: CharClass, s: State, atLeastOne: bool) returns (r: State)
    ensures r == if atLeastOne then RunChars(c, s) else RunMaybeChars(c, s)
  {
    var m := ExecManyChars(c, s);
    if atLeastOne {
      m := Many1Check(m);
    }
    if m.Failed() {
      return m;
    }
    var text := JoinStrings(m.result.items);
    r := m.(result := Str(text));
  }
}
