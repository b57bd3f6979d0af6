/** Properties every parser of src/parser.cpp has, proved by induction over
    the run: failures are passed through untouched, a successful run keeps
    the target and moves the index forward within it, and more fuel never
    changes an outcome that fuel already decided. */
module EngineLaws {
  import opened Wrappers
  import opened Values
  import opened ParseState
  import opened Primitives
  import opened Engine

  // ---------------------------------------------------------------------------
  // Failure propagation

  /** Every parser returns an already failed state unchanged: each `run`
      opens with that check, and a lazy parser delegates to one that does. */
  lemma {:induction false} FailurePropagates(arena: seq<Parser>, p: Parser, s: State, fuel: nat)
    requires s.Failed()
    ensures Run(arena, p, s, fuel).Done? ==> Run(arena, p, s, fuel).state == s
    decreases fuel
  {
    if fuel > 0 && p.Lazy? && p.slot < |arena| {
      FailurePropagates(arena, arena[p.slot], s, fuel - 1);
    }
  }

  /** The loop of sequence_of_parser_t keeps running its children after one
      has failed; since each passes the failed state through, the sequence
      returns the state of the child that failed. */
  lemma {:induction false} SequenceLoopAfterFailure(arena: seq<Parser>, ps: seq<Parser>, cur: State, acc: seq<Value>, fuel: nat)
    requires cur.Failed()
    ensures SequenceLoop(arena, ps, cur, acc, fuel).Done? ==> SequenceLoop(arena, ps, cur, acc, fuel) == Done(cur)
    decreases |ps|
  {
    if ps != [] {
      FailurePropagates(arena, ps[0], cur, fuel);
      SequenceLoopAfterFailure(arena, ps[1..], cur, acc + [cur.result], fuel);
    }
  }

  // ---------------------------------------------------------------------------
  // Success bounds

  /** The index lies within the target (it may sit just past its end). */
  predicate InBounds(s: State)
  {
    s.index <= |s.target|
  }

  /** What a successful run promises relative to the state it started from. */
  predicate Advanced(s: State, o: Outcome)
  {
    o.Done? && !o.state.Failed() ==>
      o.state.target == s.target && s.index <= o.state.index <= |s.target|
  }

  /** On success the target is the one the run started with and the index
      has not moved back nor past the end of the target. */
  lemma {:induction false} SuccessBounds(arena: seq<Parser>, p: Parser, s: State, fuel: nat)
    requires !s.Failed() && InBounds(s)
    ensures Advanced(s, Run(arena, p, s, fuel))
    decreases fuel, 0
  {
    if fuel == 0 {
      return;
    }
    match p {
      case DoNothing =>
      case Lazy(slot) =>
        if slot < |arena| {
          SuccessBounds(arena, arena[slot], s, fuel - 1);
        }
      case Mapped(inner, f) =>
        SuccessBounds(arena, inner, s, fuel - 1);
      case Chained(inner, next) =>
        SuccessBounds(arena, inner, s, fuel - 1);
        var o := Run(arena, inner, s, fuel - 1);
        if o.Done? && !o.state.Failed() {
          SuccessBounds(arena, next(o.state.result), o.state, fuel - 1);
        }
      case Flattened(inner) =>
        SuccessBounds(arena, inner, s, fuel - 1);
      case Sequence(ps) =>
        SequenceLoopBounds(arena, ps, s, [], fuel - 1);
      case Choice(ps) =>
        ChoiceLoopBounds(arena, ps, s, fuel - 1);
      case Many(q) =>
        ManyLoopBounds(arena, q, s, [], fuel - 1);
      case Many1(q) =>
        ManyLoopBounds(arena, q, s, [], fuel - 1);
      case Between(l, r, c) =>
        SequenceLoopBounds(arena, [l, c, r], s, [], fuel - 1);
      case SeparatedBy(sep, val) =>
        if sep.Some? && val.Some? {
          SepByLoopBounds(arena, sep.value, val.value, s, [], true, fuel - 1);
        }
      case Literal(_) =>
      case ChoiceOfStrings(words) =>
        WordsBounds(words, s);
      case Char(_) =>
      case Chars(_) =>
      case MaybeChars(_) =>
    }
  }

  lemma {:induction false} WordsBounds(words: seq<string>, s: State)
    requires !s.Failed() && InBounds(s)
    ensures Advanced(s, Done(WordsFrom(words, s)))
    decreases |words|
  {
    if words != [] {
      WordsBounds(words[1..], s);
    }
  }

  lemma {:induction false} SequenceLoopBounds(arena: seq<Parser>, ps: seq<Parser>, cur: State, acc: seq<Value>, fuel: nat)
    requires !cur.Failed() && InBounds(cur)
    ensures Advanced(cur, SequenceLoop(arena, ps, cur, acc, fuel))
    decreases fuel, 1, |ps|
  {
    if ps != [] {
      var o := Run(arena, ps[0], cur, fuel);
      if o.Done? {
        if o.state.Failed() {
          SequenceLoopAfterFailure(arena, ps[1..], o.state, acc + [o.state.result], fuel);
        } else {
          SuccessBounds(arena, ps[0], cur, fuel);
          SequenceLoopBounds(arena, ps[1..], o.state, acc + [o.state.result], fuel);
        }
      }
    }
  }

  lemma {:induction false} ChoiceLoopBounds(arena: seq<Parser>, ps: seq<Parser>, s: State, fuel: nat)
    requires !s.Failed() && InBounds(s)
    ensures Advanced(s, ChoiceLoop(arena, ps, s, fuel))
    decreases fuel, 1, |ps|
  {
    if ps != [] {
      SuccessBounds(arena, ps[0], s, fuel);
      ChoiceLoopBounds(arena, ps[1..], s, fuel);
    }
  }

  lemma {:induction false} ManyLoopBounds(arena: seq<Parser>, q: Parser, cur: State, acc: seq<Value>, fuel: nat)
    requires !cur.Failed() && InBounds(cur)
    ensures Advanced(cur, ManyLoop(arena, q, cur, acc, fuel))
    decreases fuel, 1, 0
  {
    if fuel > 0 {
      SuccessBounds(arena, q, cur, fuel);
      var o := Run(arena, q, cur, fuel);
      if o.Done? && !o.state.Failed() {
        ManyLoopBounds(arena, q, o.state, acc + [o.state.result], fuel - 1);
      }
    }
  }

  lemma {:induction false} SepByLoopBounds(arena: seq<Parser>, sep: Parser, val: Parser, next: State, acc: seq<Value>, wantValue: bool, fuel: nat)
    requires !next.Failed() && InBounds(next)
    ensures Advanced(next, SepByLoop(arena, sep, val, next, acc, wantValue, fuel))
    decreases fuel, 1, if wantValue then 1 else 0
  {
    if fuel > 0 {
      var p := if wantValue then val else sep;
      SuccessBounds(arena, p, next, fuel);
      var o := Run(arena, p, next, fuel);
      if o.Done? && !o.state.Failed() {
        if wantValue {
          SepByLoopBounds(arena, sep, val, o.state, acc + [o.state.result], false, fuel);
        } else {
          SepByLoopBounds(arena, sep, val, o.state, acc, true, fuel - 1);
        }
      }
    }
  }

  // ---------------------------------------------------------------------------
  // Fuel

  /** Fuel only bounds the run: once an amount of fuel decides the outcome
      (a state, or an unbound lazy slot), any larger amount decides the same. */
  lemma {:induction false} FuelMonotone(arena: seq<Parser>, p: Parser, s: State, fuel: nat, more: nat)
    requires fuel <= more && !Run(arena, p, s, fuel).OutOfFuel?
    ensures Run(arena, p, s, more) == Run(arena, p, s, fuel)
    decreases fuel, 1
  {
    match p {
      case Lazy(slot) =>
        if slot < |arena| {
          FuelMonotone(arena, arena[slot], s, fuel - 1, more - 1);
        }
      case Mapped(_, _) => TransformMonotone(arena, p, s, fuel, more);
      case Chained(_, _) => TransformMonotone(arena, p, s, fuel, more);
      case Flattened(_) => TransformMonotone(arena, p, s, fuel, more);
      case Sequence(_) => StructureMonotone(arena, p, s, fuel, more);
      case Choice(_) => StructureMonotone(arena, p, s, fuel, more);
      case Many(_) => StructureMonotone(arena, p, s, fuel, more);
      case Many1(_) => StructureMonotone(arena, p, s, fuel, more);
      case Between(_, _, _) => StructureMonotone(arena, p, s, fuel, more);
      case SeparatedBy(_, _) => StructureMonotone(arena, p, s, fuel, more);
      case _ =>
    }
  }

  lemma {:induction false} TransformMonotone(arena: seq<Parser>, p: Parser, s: State, fuel: nat, more: nat)
    requires p.Mapped? || p.Chained? || p.Flattened?
    requires fuel <= more && !Run(arena, p, s, fuel).OutOfFuel?
    ensures Run(arena, p, s, more) == Run(arena, p, s, fuel)
    decreases fuel, 0
  {
    if !s.Failed() {
      FuelMonotone(arena, p.inner, s, fuel - 1, more - 1);
      var o := Run(arena, p.inner, s, fuel - 1);
      if p.Chained? && o.Done? && !o.state.Failed() {
        FuelMonotone(arena, p.next(o.state.result), o.state, fuel - 1, more - 1);
      }
    }
  }

  lemma {:induction false} StructureMonotone(arena: seq<Parser>, p: Parser, s: State, fuel: nat, more: nat)
    requires p.Sequence? || p.Choice? || p.Many? || p.Many1? || p.Between? || p.SeparatedBy?
    requires fuel <= more && !Run(arena, p, s, fuel).OutOfFuel?
    ensures Run(arena, p, s, more) == Run(arena, p, s, fuel)
    decreases fuel, 0
  {
    if !s.Failed() {
      match p {
        case Sequence(ps) => SequenceLoopMonotone(arena, ps, s, [], fuel - 1, more - 1);
        case Choice(ps) => ChoiceLoopMonotone(arena, ps, s, fuel - 1, more - 1);
        case Many(q) => ManyLoopMonotone(arena, q, s, [], fuel - 1, more - 1);
        case Many1(q) => ManyLoopMonotone(arena, q, s, [], fuel - 1, more - 1);
        case Between(l, r, c) => SequenceLoopMonotone(arena, [l, c, r], s, [], fuel - 1, more - 1);
        case SeparatedBy(sep, val) =>
          if sep.Some? && val.Some? {
            SepByLoopMonotone(arena, sep.value, val.value, s, [], true, fuel - 1, more - 1);
          }
      }
    }
  }

  lemma {:induction false} SequenceLoopMonotone(arena: seq<Parser>, ps: seq<Parser>, cur: State, acc: seq<Value>, fuel: nat, more: nat)
    requires fuel <= more && !SequenceLoop(arena, ps, cur, acc, fuel).OutOfFuel?
    ensures SequenceLoop(arena, ps, cur, acc, more) == SequenceLoop(arena, ps, cur, acc, fuel)
    decreases fuel, 2, |ps|
  {
    if ps != [] {
      FuelMonotone(arena, ps[0], cur, fuel, more);
      var o := Run(arena, ps[0], cur, fuel);
      if o.Done? {
        SequenceLoopMonotone(arena, ps[1..], o.state, acc + [o.state.result], fuel, more);
      }
    }
  }

  lemma {:induction false} ChoiceLoopMonotone(arena: seq<Parser>, ps: seq<Parser>, s: State, fuel: nat, more: nat)
    requires fuel <= more && !ChoiceLoop(arena, ps, s, fuel).OutOfFuel?
    ensures ChoiceLoop(arena, ps, s, more) == ChoiceLoop(arena, ps, s, fuel)
    decreases fuel, 2, |ps|
  {
    if ps != [] {
      FuelMonotone(arena, ps[0], s, fuel, more);
      var o := Run(arena, ps[0], s, fuel);
      if o.Done? && o.state.Failed() {
        ChoiceLoopMonotone(arena, ps[1..], s, fuel, more);
      }
    }
  }

  lemma {:induction false} ManyLoopMonotone(arena: seq<Parser>, q: Parser, cur: State, acc: seq<Value>, fuel: nat, more: nat)
    requires !cur.Failed()
    requires fuel <= more && !ManyLoop(arena, q, cur, acc, fuel).OutOfFuel?
    ensures ManyLoop(arena, q, cur, acc, more) == ManyLoop(arena, q, cur, acc, fuel)
    decreases fuel, 2, 0
  {
    assert fuel > 0;
    FuelMonotone(arena, q, cur, fuel, more);
    ManyLoopUnfold(arena, q, cur, acc, fuel);
    ManyLoopUnfold(arena, q, cur, acc, more);
    var o := Run(arena, q, cur, fuel);
    if o.Done? && !o.state.Failed() {
      ManyLoopMonotone(arena, q, o.state, acc + [o.state.result], fuel - 1, more - 1);
    }
  }

  lemma {:induction false} SepByLoopMonotone(arena: seq<Parser>, sep: Parser, val: Parser, next: State, acc: seq<Value>, wantValue: bool, fuel: nat, more: nat)
    requires !next.Failed()
    requires fuel <= more && !SepByLoop(arena, sep, val, next, acc, wantValue, fuel).OutOfFuel?
    ensures SepByLoop(arena, sep, val, next, acc, wantValue, more) == SepByLoop(arena, sep, val, next, acc, wantValue, fuel)
    decreases fuel, 2, if wantValue then 1 else 0
  {
    var p := if wantValue then val else sep;
    FuelMonotone(arena, p, next, fuel, more);
    SepByLoopUnfold(arena, sep, val, next, acc, wantValue, fuel);
    SepByLoopUnfold(arena, sep, val, next, acc, wantValue, more);
    var o := Run(arena, p, next, fuel);
    if o.Done? && !o.state.Failed() {
      if wantValue {
        SepByLoopMonotone(arena, sep, val, o.state, acc + [o.state.result], false, fuel, more);
      } else {
        SepByLoopMonotone(arena, sep, val, o.state, acc, true, fuel - 1, more - 1);
      }
    }
  }
}
