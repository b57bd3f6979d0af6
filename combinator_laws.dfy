/** What each combinator of src/parser.cpp does with its children, stated
    one step at a time: how sequence, between, choice, many, many1 and
    separated-by compose the runs of their children, and the laws the
    transform parsers (map, chain, flatten) obey. */
module CombinatorLaws {
  import opened Wrappers
  import opened Values
  import opened ParseState
  import opened Primitives
  import opened Engine
  import opened EngineLaws

  /** The run ended with an ok state. */
  predicate Succeeds(o: Outcome)
  {
    o.Done? && !o.state.Failed()
  }

  /** The run ended with a failed state. */
  predicate Fails(o: Outcome)
  {
    o.Done? && o.state.Failed()
  }

  /** `o` with `front` put before the items of its list result, when it is
      an ok state holding a list; any other outcome as it is. */
  function Prepend(front: seq<Value>, o: Outcome): Outcome
  {
    match o
    case Done(t) =>
      if !t.Failed() && t.result.List? then Done(t.(result := List(front + t.result.items))) else o
    case _ => o
  }

  lemma PrependTwice(a: seq<Value>, b: seq<Value>, o: Outcome)
    ensures Prepend(a, Prepend(b, o)) == Prepend(a + b, o)
  {
    if o.Done? && !o.state.Failed() && o.state.result.List? {
      assert a + (b + o.state.result.items) == (a + b) + o.state.result.items;
    }
  }

  // ---------------------------------------------------------------------------
  // sequence_of_parser_t and between_parser_t

  /** The results collected before a point of the sequence loop end up in
      front of the list it returns. */
  lemma {:induction false} SequenceLoopShift(arena: seq<Parser>, ps: seq<Parser>, cur: State, acc: seq<Value>, fuel: nat)
    ensures SequenceLoop(arena, ps, cur, acc, fuel) == Prepend(acc, SequenceLoop(arena, ps, cur, [], fuel))
    decreases |ps|
  {
    if ps == [] {
      assert acc + [] == acc;
    } else {
      var o := Run(arena, ps[0], cur, fuel);
      if o.Done? {
        var x := o.state.result;
        assert [] + [x] == [x];
        SequenceLoopShift(arena, ps[1..], o.state, acc + [x], fuel);
        SequenceLoopShift(arena, ps[1..], o.state, [x], fuel);
        PrependTwice(acc, [x], SequenceLoop(arena, ps[1..], o.state, [], fuel));
      }
    }
  }

  /** A sequence without children leaves the state where it is, with an
      empty list as result. */
  lemma SequenceEmpty(arena: seq<Parser>, s: State, fuel: nat)
    requires !s.Failed() && fuel > 0
    ensures Run(arena, Sequence([]), s, fuel) == Done(s.(result := List([])))
  {
    assert Run(arena, Sequence([]), s, fuel) == SequenceLoop(arena, [], s, [], fuel - 1);
  }

  /** A sequence runs its first child on the input state, then the rest of
      the sequence on the state that child returned, and puts the first
      child's result in front of the rest's list. When the first child
      fails, the sequence ends (if it ends) with that child's failed state. */
  lemma {:induction false} SequenceCons(arena: seq<Parser>, p: Parser, ps: seq<Parser>, s: State, fuel: nat)
    requires !s.Failed() && fuel > 0
    ensures var first := Run(arena, p, s, fuel - 1);
            var whole := Run(arena, Sequence([p] + ps), s, fuel);
            && (!first.Done? ==> whole == first)
            && (Fails(first) && whole.Done? ==> whole == first)
            && (Succeeds(first) ==>
                  whole == Prepend([first.state.result], Run(arena, Sequence(ps), first.state, fuel)))
  {
    var qs := [p] + ps;
    assert qs[0] == p && qs[1..] == ps;
    var first := Run(arena, p, s, fuel - 1);
    assert Run(arena, Sequence(qs), s, fuel) == SequenceLoop(arena, qs, s, [], fuel - 1);
    if first.Done? {
      var t := first.state;
      assert [] + [t.result] == [t.result];
      assert SequenceLoop(arena, qs, s, [], fuel - 1) == SequenceLoop(arena, ps, t, [t.result], fuel - 1);
      if t.Failed() {
        SequenceLoopAfterFailure(arena, ps, t, [t.result], fuel - 1);
      } else {
        SequenceLoopShift(arena, ps, t, [t.result], fuel - 1);
        assert Run(arena, Sequence(ps), t, fuel) == SequenceLoop(arena, ps, t, [], fuel - 1);
      }
    }
  }

  /** between_parser_t succeeds exactly when left, content and right
      succeed in turn, each on the state the previous one returned; it then
      ends where the right parser ended, with the content parser's result. */
  lemma {:induction false} BetweenParts(arena: seq<Parser>, l: Parser, r: Parser, c: Parser, s: State, fuel: nat)
    requires !s.Failed() && fuel > 0
    ensures var o := Run(arena, Between(l, r, c), s, fuel);
            Succeeds(o) ==>
              var o1 := Run(arena, l, s, fuel - 1);
              && Succeeds(o1)
              && var o2 := Run(arena, c, o1.state, fuel - 1);
              && Succeeds(o2)
              && var o3 := Run(arena, r, o2.state, fuel - 1);
              && Succeeds(o3)
              && o.state == o3.state.(result := o2.state.result)
    ensures var o1 := Run(arena, l, s, fuel - 1);
            Succeeds(o1) ==>
              var o2 := Run(arena, c, o1.state, fuel - 1);
              Succeeds(o2) ==>
                var o3 := Run(arena, r, o2.state, fuel - 1);
                Succeeds(o3) ==>
                  Run(arena, Between(l, r, c), s, fuel) == Done(o3.state.(result := o2.state.result))
  {
    var f := fuel - 1;
    var ps := [l, c, r];
    assert ps[0] == l && ps[1..] == [c, r] && [c, r][0] == c && [c, r][1..] == [r] && [r][0] == r && [r][1..] == [];
    var whole := SequenceLoop(arena, ps, s, [], f);
    assert Run(arena, Between(l, r, c), s, fuel) == (match whole
      case Done(t) => Done(if t.Failed() then t else t.(result := t.result.items[1]))
      case other => other);
    var o1 := Run(arena, l, s, f);
    if o1.Done? {
      var t1 := o1.state;
      assert [] + [t1.result] == [t1.result];
      assert whole == SequenceLoop(arena, [c, r], t1, [t1.result], f);
      if t1.Failed() {
        SequenceLoopAfterFailure(arena, [c, r], t1, [t1.result], f);
      } else {
        var o2 := Run(arena, c, t1, f);
        if o2.Done? {
          var t2 := o2.state;
          assert [t1.result] + [t2.result] == [t1.result, t2.result];
          assert whole == SequenceLoop(arena, [r], t2, [t1.result, t2.result], f);
          if t2.Failed() {
            SequenceLoopAfterFailure(arena, [r], t2, [t1.result, t2.result], f);
          } else {
            var o3 := Run(arena, r, t2, f);
            if o3.Done? {
              var t3 := o3.state;
              assert [t1.result, t2.result] + [t3.result] == [t1.result, t2.result, t3.result];
              assert whole == SequenceLoop(arena, [], t3, [t1.result, t2.result, t3.result], f);
            }
          }
        }
      }
    }
  }

  // ---------------------------------------------------------------------------
  // choice_of_parser_t

  /** The first alternative that succeeds, after alternatives that all
      failed, decides the choice loop. */
  lemma {:induction false} ChoiceLoopFirst(arena: seq<Parser>, ps: seq<Parser>, s: State, fuel: nat, i: nat)
    requires i < |ps| && Succeeds(Run(arena, ps[i], s, fuel))
    requires forall j :: 0 <= j < i ==> Fails(Run(arena, ps[j], s, fuel))
    ensures ChoiceLoop(arena, ps, s, fuel) == Run(arena, ps[i], s, fuel)
    decreases i
  {
    if i > 0 {
      var rest := ps[1..];
      assert Fails(Run(arena, ps[0], s, fuel));
      assert ChoiceLoop(arena, ps, s, fuel) == ChoiceLoop(arena, rest, s, fuel);
      assert rest[i - 1] == ps[i];
      forall j | 0 <= j < i - 1
        ensures Fails(Run(arena, rest[j], s, fuel))
      {
        assert rest[j] == ps[j + 1];
      }
      ChoiceLoopFirst(arena, rest, s, fuel, i - 1);
    }
  }

  /** When every alternative fails, the choice loop fails on its input. */
  lemma {:induction false} ChoiceLoopAllFail(arena: seq<Parser>, ps: seq<Parser>, s: State, fuel: nat)
    requires forall j :: 0 <= j < |ps| ==> Fails(Run(arena, ps[j], s, fuel))
    ensures ChoiceLoop(arena, ps, s, fuel) == Done(s.(result := Str(""), error := Some(ChoiceError(s))))
    decreases |ps|
  {
    if ps != [] {
      var rest := ps[1..];
      assert Fails(Run(arena, ps[0], s, fuel));
      forall j | 0 <= j < |rest|
        ensures Fails(Run(arena, rest[j], s, fuel))
      {
        assert rest[j] == ps[j + 1];
      }
      ChoiceLoopAllFail(arena, rest, s, fuel);
    }
  }

  /** A choice loop that succeeds returns the run of one of its
      alternatives. */
  lemma {:induction false} ChoiceLoopWitness(arena: seq<Parser>, ps: seq<Parser>, s: State, fuel: nat)
    requires Succeeds(ChoiceLoop(arena, ps, s, fuel))
    ensures exists i :: 0 <= i < |ps| && ChoiceLoop(arena, ps, s, fuel) == Run(arena, ps[i], s, fuel)
    decreases |ps|
  {
    var first := Run(arena, ps[0], s, fuel);
    if Succeeds(first) {
      assert ChoiceLoop(arena, ps, s, fuel) == Run(arena, ps[0], s, fuel);
    } else {
      var rest := ps[1..];
      assert ChoiceLoop(arena, ps, s, fuel) == ChoiceLoop(arena, rest, s, fuel);
      ChoiceLoopWitness(arena, rest, s, fuel);
      var i :| 0 <= i < |rest| && ChoiceLoop(arena, rest, s, fuel) == Run(arena, rest[i], s, fuel);
      assert rest[i] == ps[i + 1];
    }
  }

  /** Ordered choice: every alternative runs on the same input state (a
      failed alternative consumes nothing). The first alternative that
      succeeds decides the result; when all fail, the input state fails with
      result "" and its index unchanged; a success is always the run of one
      of the alternatives. */
  lemma ChoiceOrdered(arena: seq<Parser>, ps: seq<Parser>, s: State, fuel: nat)
    requires !s.Failed() && fuel > 0
    ensures forall i :: 0 <= i < |ps| && Succeeds(Run(arena, ps[i], s, fuel - 1))
                        && (forall j :: 0 <= j < i ==> Fails(Run(arena, ps[j], s, fuel - 1))) ==>
              Run(arena, Choice(ps), s, fuel) == Run(arena, ps[i], s, fuel - 1)
    ensures (forall j :: 0 <= j < |ps| ==> Fails(Run(arena, ps[j], s, fuel - 1))) ==>
              Run(arena, Choice(ps), s, fuel) == Done(s.(result := Str(""), error := Some(ChoiceError(s))))
    ensures Succeeds(Run(arena, Choice(ps), s, fuel)) ==>
              exists i :: 0 <= i < |ps| && Run(arena, Choice(ps), s, fuel) == Run(arena, ps[i], s, fuel - 1)
  {
    var f := fuel - 1;
    assert Run(arena, Choice(ps), s, fuel) == ChoiceLoop(arena, ps, s, f);
    forall i | 0 <= i < |ps| && Succeeds(Run(arena, ps[i], s, f))
               && (forall j :: 0 <= j < i ==> Fails(Run(arena, ps[j], s, f)))
      ensures ChoiceLoop(arena, ps, s, f) == Run(arena, ps[i], s, f)
    {
      ChoiceLoopFirst(arena, ps, s, f, i);
    }
    if forall j :: 0 <= j < |ps| ==> Fails(Run(arena, ps[j], s, f)) {
      ChoiceLoopAllFail(arena, ps, s, f);
    }
    if Succeeds(ChoiceLoop(arena, ps, s, f)) {
      ChoiceLoopWitness(arena, ps, s, f);
    }
  }

  // ---------------------------------------------------------------------------
  // many_parser_t and many1_parser_t

  /** One step of `ManyLoopShift`, given the shift for the state after a
      successful round. */
  lemma ManyLoopShiftStep(arena: seq<Parser>, q: Parser, cur: State, acc: seq<Value>, fuel: nat)
    requires !cur.Failed() && fuel > 0
    requires var o := Run(arena, q, cur, fuel);
             o.Done? && !o.state.Failed() ==>
               var x := o.state.result;
               var m := ManyLoop(arena, q, o.state, [], fuel - 1);
               && ManyLoop(arena, q, o.state, acc + [x], fuel - 1) == Prepend(acc + [x], m)
               && ManyLoop(arena, q, o.state, [x], fuel - 1) == Prepend([x], m)
    ensures ManyLoop(arena, q, cur, acc, fuel) == Prepend(acc, ManyLoop(arena, q, cur, [], fuel))
  {
    ManyLoopUnfold(arena, q, cur, acc, fuel);
    ManyLoopUnfold(arena, q, cur, [], fuel);
    var o := Run(arena, q, cur, fuel);
    if o.Done? && o.state.Failed() {
      assert acc + [] == acc;
    } else if o.Done? {
      var t := o.state;
      var x := t.result;
      assert [] + [x] == [x];
      ShiftByOne(acc, x, ManyLoop(arena, q, cur, acc, fuel), ManyLoop(arena, q, cur, [], fuel),
                 ManyLoop(arena, q, t, [], fuel - 1));
    }
  }

  lemma {:induction false} ManyLoopShift(arena: seq<Parser>, q: Parser, cur: State, acc: seq<Value>, fuel: nat)
    requires !cur.Failed()
    ensures ManyLoop(arena, q, cur, acc, fuel) == Prepend(acc, ManyLoop(arena, q, cur, [], fuel))
    decreases fuel
  {
    if fuel > 0 {
      var o := Run(arena, q, cur, fuel);
      if o.Done? && !o.state.Failed() {
        var x := o.state.result;
        ManyLoopShift(arena, q, o.state, acc + [x], fuel - 1);
        ManyLoopShift(arena, q, o.state, [x], fuel - 1);
      }
      ManyLoopShiftStep(arena, q, cur, acc, fuel);
    }
  }

  /** The step that closes the shift lemmas: if the loop from `acc` and the
      loop from no values both continue as one more value `x` put before the
      same rest `m`, they differ by `acc` in front. */
  lemma ShiftByOne(acc: seq<Value>, x: Value, fromAcc: Outcome, fromNone: Outcome, m: Outcome)
    requires fromAcc == Prepend(acc + [x], m) && fromNone == Prepend([x], m)
    ensures fromAcc == Prepend(acc, fromNone)
  {
    PrependTwice(acc, [x], m);
  }

  /** One round of many_parser_t: when the child fails on the input, many
      succeeds with an empty list and the index unchanged; when the child
      succeeds, its result heads the list many collects from the state it
      left. So the list holds one result per consecutive success and the
      final index is the one after the last success. */
  lemma {:induction false} ManyStep(arena: seq<Parser>, q: Parser, s: State, fuel: nat)
    requires !s.Failed() && fuel >= 2
    ensures var first := Run(arena, q, s, fuel - 1);
            var whole := Run(arena, Many(q), s, fuel);
            && (!first.Done? ==> whole == first)
            && (Fails(first) ==> whole == Done(s.(result := List([]))))
            && (Succeeds(first) ==>
                  whole == Prepend([first.state.result], Run(arena, Many(q), first.state, fuel - 1)))
  {
    var first := Run(arena, q, s, fuel - 1);
    assert Run(arena, Many(q), s, fuel) == ManyLoop(arena, q, s, [], fuel - 1);
    if Succeeds(first) {
      var t := first.state;
      assert [] + [t.result] == [t.result];
      assert ManyLoop(arena, q, s, [], fuel - 1) == ManyLoop(arena, q, t, [t.result], fuel - 2);
      ManyLoopShift(arena, q, t, [t.result], fuel - 2);
      assert Run(arena, Many(q), t, fuel - 1) == ManyLoop(arena, q, t, [], fuel - 2);
    }
  }

  /** many never fails on an ok input: it ends with an ok state holding a
      list (or runs out of fuel). */
  lemma ManyNeverFails(arena: seq<Parser>, q: Parser, s: State, fuel: nat)
    requires !s.Failed()
    ensures var o := Run(arena, Many(q), s, fuel);
            o.Done? ==> !o.state.Failed() && o.state.result.List?
  {
  }

  /** many1 is many followed by a check: it returns many's state exactly
      when that list is non-empty, and otherwise fails on a fresh default
      state (empty target, index 0). */
  lemma Many1VsMany(arena: seq<Parser>, q: Parser, s: State, fuel: nat)
    requires !s.Failed()
    ensures var many := Run(arena, Many(q), s, fuel);
            var many1 := Run(arena, Many1(q), s, fuel);
            && (!many.Done? ==> many1 == many)
            && (many.Done? && many.state.result.items != [] ==> many1 == many)
            && (many.Done? && many.state.result.items == [] ==>
                  Fails(many1) && many1.state.target == "" && many1.state.index == 0)
  {
  }

  /** The loop of many never ends when the child succeeds without
      consuming input: many over do-nothing exhausts any fuel. */
  lemma {:induction false} ManyOfDoNothingDiverges(arena: seq<Parser>, s: State, fuel: nat)
    requires !s.Failed()
    ensures Run(arena, Many(DoNothing), s, fuel) == OutOfFuel
  {
    if fuel > 0 {
      ManyLoopOfDoNothing(arena, s, [], fuel - 1);
    }
  }

  lemma {:induction false} ManyLoopOfDoNothing(arena: seq<Parser>, cur: State, acc: seq<Value>, fuel: nat)
    requires !cur.Failed()
    ensures ManyLoop(arena, DoNothing, cur, acc, fuel) == OutOfFuel
    decreases fuel
  {
    if fuel > 0 {
      ManyLoopOfDoNothing(arena, cur, acc + [cur.result], fuel - 1);
    }
  }

  /** The general loop of many over a char parser is the fuel-free loop
      chars_parser_t and maybe_chars_parser_t use, given one unit of fuel
      per character left. */
  lemma {:induction false} ManyOfCharIsCharLoop(arena: seq<Parser>, c: CharClass, cur: State, acc: seq<Value>, fuel: nat)
    requires !cur.Failed() && fuel > 0 && fuel > |cur.target| - cur.index
    ensures ManyLoop(arena, Char(c), cur, acc, fuel) == Done(CharLoop(c, cur, acc))
    decreases fuel
  {
    var next := RunChar(c, cur);
    assert Run(arena, Char(c), cur, fuel) == Done(next);
    if !next.Failed() {
      ManyOfCharIsCharLoop(arena, c, next, acc + [next.result], fuel - 1);
    }
  }

  /** So chars_parser_t is many1 over the char parser followed by joining
      the characters, as the source builds it. */
  lemma CharsIsMany1OfChar(arena: seq<Parser>, c: CharClass, s: State, fuel: nat)
    requires !s.Failed() && fuel > 1 && fuel > |s.target| - s.index + 1
    ensures Run(arena, Many1(Char(c)), s, fuel) == Done(Many1Check(ManyChars(c, s)))
  {
    ManyOfCharIsCharLoop(arena, c, s, [], fuel - 1);
    var m := CharLoop(c, s, []);
    Many1Unfold(arena, Char(c), s, fuel);
    assert ManyChars(c, s) == m;
  }

  /** many1_parser_t::run is many's run followed by the check on its list. */
  lemma Many1Unfold(arena: seq<Parser>, q: Parser, s: State, fuel: nat)
    requires !s.Failed() && fuel > 0
    ensures var many := ManyLoop(arena, q, s, [], fuel - 1);
            && (many.Done? ==> Run(arena, Many1(q), s, fuel) == Done(Many1Check(many.state)))
            && (!many.Done? ==> Run(arena, Many1(q), s, fuel) == many)
  {
    assert ManyRun(arena, q, s, fuel - 1) == ManyLoop(arena, q, s, [], fuel - 1);
  }

  // ---------------------------------------------------------------------------
  // separated_by_parser_t

  /** One step of `SepByLoopShift`, given the shift for the state after a
      successful half-round. */
  lemma SepByLoopShiftStep(arena: seq<Parser>, sep: Parser, val: Parser, next: State, acc: seq<Value>, wantValue: bool, fuel: nat)
    requires !next.Failed() && fuel > 0
    requires var o := Run(arena, if wantValue then val else sep, next, fuel);
             o.Done? && !o.state.Failed() ==>
               var t := o.state;
               var x := t.result;
               if wantValue then
                 var m := SepByLoop(arena, sep, val, t, [], false, fuel);
                 && SepByLoop(arena, sep, val, t, acc + [x], false, fuel) == Prepend(acc + [x], m)
                 && SepByLoop(arena, sep, val, t, [x], false, fuel) == Prepend([x], m)
               else
                 SepByLoop(arena, sep, val, t, acc, true, fuel - 1) == Prepend(acc, SepByLoop(arena, sep, val, t, [], true, fuel - 1))
    ensures SepByLoop(arena, sep, val, next, acc, wantValue, fuel)
            == Prepend(acc, SepByLoop(arena, sep, val, next, [], wantValue, fuel))
  {
    SepByLoopUnfold(arena, sep, val, next, acc, wantValue, fuel);
    SepByLoopUnfold(arena, sep, val, next, [], wantValue, fuel);
    var o := Run(arena, if wantValue then val else sep, next, fuel);
    if o.Done? && o.state.Failed() {
      assert acc + [] == acc;
    } else if o.Done? && wantValue {
      var t := o.state;
      var x := t.result;
      assert [] + [x] == [x];
      ShiftByOne(acc, x, SepByLoop(arena, sep, val, next, acc, true, fuel), SepByLoop(arena, sep, val, next, [], true, fuel),
                 SepByLoop(arena, sep, val, t, [], false, fuel));
    }
  }

  lemma {:induction false} SepByLoopShift(arena: seq<Parser>, sep: Parser, val: Parser, next: State, acc: seq<Value>, wantValue: bool, fuel: nat)
    requires !next.Failed()
    ensures SepByLoop(arena, sep, val, next, acc, wantValue, fuel)
            == Prepend(acc, SepByLoop(arena, sep, val, next, [], wantValue, fuel))
    decreases fuel, if wantValue then 1 else 0
  {
    if fuel > 0 {
      var o := Run(arena, if wantValue then val else sep, next, fuel);
      if o.Done? && !o.state.Failed() {
        var x := o.state.result;
        if wantValue {
          SepByLoopShift(arena, sep, val, o.state, acc + [x], false, fuel);
          SepByLoopShift(arena, sep, val, o.state, [x], false, fuel);
        } else {
          SepByLoopShift(arena, sep, val, o.state, acc, true, fuel - 1);
        }
      }
      SepByLoopShiftStep(arena, sep, val, next, acc, wantValue, fuel);
    }
  }

  /** One round of separated_by_parser_t with both children set. When the
      value parser fails on the input, the result is an empty list at the
      input index. When the value succeeds and the separator then fails, the
      result is that one value, with the index just after it. When both
      succeed, the value heads the list the parser collects from the state
      after the separator; if no value follows there, that state (past the
      separator) is where the parser stops. */
  lemma {:induction false} SepByStep(arena: seq<Parser>, sep: Parser, val: Parser, s: State, fuel: nat)
    requires !s.Failed() && fuel >= 2
    ensures var p := SeparatedBy(Some(sep), Some(val));
            var w := Run(arena, val, s, fuel - 1);
            var whole := Run(arena, p, s, fuel);
            && (!w.Done? ==> whole == w)
            && (Fails(w) ==> whole == Done(s.(result := List([]))))
            && (Succeeds(w) ==>
                  var t := Run(arena, sep, w.state, fuel - 1);
                  && (!t.Done? ==> whole == t)
                  && (Fails(t) ==> whole == Done(w.state.(result := List([w.state.result]))))
                  && (Succeeds(t) ==> whole == Prepend([w.state.result], Run(arena, p, t.state, fuel - 1))))
  {
    var p := SeparatedBy(Some(sep), Some(val));
    var w := Run(arena, val, s, fuel - 1);
    assert Run(arena, p, s, fuel) == SepByLoop(arena, sep, val, s, [], true, fuel - 1);
    if Succeeds(w) {
      var x := w.state.result;
      assert [] + [x] == [x];
      assert SepByLoop(arena, sep, val, s, [], true, fuel - 1) == SepByLoop(arena, sep, val, w.state, [x], false, fuel - 1);
      var t := Run(arena, sep, w.state, fuel - 1);
      if Succeeds(t) {
        assert SepByLoop(arena, sep, val, w.state, [x], false, fuel - 1) == SepByLoop(arena, sep, val, t.state, [x], true, fuel - 2);
        SepByLoopShift(arena, sep, val, t.state, [x], true, fuel - 2);
        assert Run(arena, p, t.state, fuel - 1) == SepByLoop(arena, sep, val, t.state, [], true, fuel - 2);
      }
    }
  }

  /** With both children set, separated-by never fails on an ok input. A
      missing separator or value parser gives a fresh failed state. */
  lemma SeparatedByOutcomes(arena: seq<Parser>, sep: Option<Parser>, val: Option<Parser>, s: State, fuel: nat)
    requires !s.Failed() && fuel > 0
    ensures var o := Run(arena, SeparatedBy(sep, val), s, fuel);
            && (sep.None? ==> o == Done(State("", 0, Str(""), Some(SeparatorNullError))))
            && (sep.Some? && val.None? ==> o == Done(State("", 0, Str(""), Some(ValueNullError))))
            && (sep.Some? && val.Some? && o.Done? ==> !o.state.Failed() && o.state.result.List?)
  {
  }

  // ---------------------------------------------------------------------------
  // map_parser_t, chain_parser_t and flatten_parser_t

  /** Mapping with the identity changes nothing. */
  lemma MapIdentity(arena: seq<Parser>, q: Parser, s: State, fuel: nat)
    requires !s.Failed()
    ensures Run(arena, Mapped(q, x => x), s, fuel + 1) == Run(arena, q, s, fuel)
  {
    var o := Run(arena, q, s, fuel);
    if o.Done? {
      assert MapResult(o.state, x => x) == o.state;
    }
  }

  /** Two maps in a row are one map with the composed function. */
  lemma MapFusion(arena: seq<Parser>, q: Parser, f: Value -> Value, g: Value -> Value, s: State, fuel: nat)
    requires fuel > 0
    ensures Run(arena, Mapped(Mapped(q, f), g), s, fuel + 1) == Run(arena, Mapped(q, x => g(f(x))), s, fuel)
  {
    if !s.Failed() {
      var o := Run(arena, q, s, fuel - 1);
      if o.Done? {
        assert MapResult(MapResult(o.state, f), g) == MapResult(o.state, x => g(f(x)));
      }
    }
  }

  /** Flattening twice is flattening once. */
  lemma {:induction false} FlattenTwice(arena: seq<Parser>, q: Parser, s: State, fuel: nat)
    requires fuel > 0
    ensures Run(arena, Flattened(Flattened(q)), s, fuel + 1) == Run(arena, Flattened(q), s, fuel)
  {
    if !s.Failed() {
      var o := Run(arena, q, s, fuel - 1);
      if o.Done? && !o.state.Failed() {
        FlattenIdempotent(o.state.result);
      }
    }
  }

  /** Chaining from do-nothing runs the chosen parser on the input state. */
  lemma ChainLeftIdentity(arena: seq<Parser>, k: Value -> Parser, s: State, fuel: nat)
    requires !s.Failed() && fuel >= 2
    ensures Run(arena, Chained(DoNothing, k), s, fuel) == Run(arena, k(s.result), s, fuel - 1)
  {
  }

  /** Chaining into do-nothing is running the child alone. */
  lemma ChainRightIdentity(arena: seq<Parser>, q: Parser, s: State, fuel: nat)
    requires !s.Failed() && fuel >= 2
    ensures Run(arena, Chained(q, _ => DoNothing), s, fuel) == Run(arena, q, s, fuel - 1)
  {
  }
}
