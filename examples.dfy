/** Concrete runs of small grammars, worked out from the contracts of the
    primitives and the combinator laws. */
module Examples {
  import opened Wrappers
  import opened Values
  import opened ParseState
  import opened Primitives
  import opened Engine
  import opened CombinatorLaws

  /** The number between parentheses: between("(", ")", chars(digit)). */
  function Parenthesised(): Parser
  {
    Between(Literal("("), Literal(")"), Chars(Digit))
  }

  /** Numbers separated by commas: separated_by(",", chars(digit)). */
  function Numbers(): Parser
  {
    SeparatedBy(Some(Literal(",")), Some(Chars(Digit)))
  }

  predicate DigitAt(t: string, k: nat)
  {
    k < |t| && Matches(Digit, t[k])
  }

  /** A literal that occurs at the index is consumed. */
  lemma LiteralAt(arena: seq<Parser>, lit: string, t: string, i: nat, v: Value, fuel: nat)
    requires fuel > 0 && i + |lit| <= |t| && 0 < |t| && t[i..i + |lit|] == lit
    ensures Run(arena, Literal(lit), State(t, i, v, None), fuel) == Done(State(t, i + |lit|, Str(lit), None))
  {
  }

  /** A literal that does not occur at the index fails there. */
  lemma LiteralNotAt(arena: seq<Parser>, lit: string, t: string, i: nat, v: Value, fuel: nat)
    requires fuel > 0 && 0 < |lit| && (i < |t| ==> t[i] != lit[0])
    ensures Fails(Run(arena, Literal(lit), State(t, i, v, None), fuel))
  {
    assert i + |lit| <= |t| ==> t[i..i + |lit|][0] == t[i];
  }

  /** The longest run of digits from `from` ends at `to` when the characters
      in between are digits and the one at `to` is not (or the text ends). */
  lemma DigitsAt(arena: seq<Parser>, t: string, from: nat, to: nat, v: Value, fuel: nat)
    requires fuel > 0 && from < to <= |t|
    requires forall k :: from <= k < to ==> Matches(Digit, t[k])
    requires to < |t| ==> !Matches(Digit, t[to])
    ensures Run(arena, Chars(Digit), State(t, from, v, None), fuel) == Done(State(t, to, Str(t[from..to]), None))
  {
    var s := State(t, from, v, None);
    var r := RunChars(Digit, s);
    assert Matches(Digit, t[from]);
    assert MaximalRun(Digit, t, from, r.index);
    assert r.index < to ==> DigitAt(t, r.index);
    assert r.index > to ==> DigitAt(t, to);
  }

  /** No digit at the index: chars(digit) fails. */
  lemma NoDigitAt(arena: seq<Parser>, t: string, i: nat, v: Value, fuel: nat)
    requires fuel > 0 && (i < |t| ==> !Matches(Digit, t[i]))
    ensures Fails(Run(arena, Chars(Digit), State(t, i, v, None), fuel))
  {
  }

  lemma ParenthesisedNumber(arena: seq<Parser>)
    ensures Run(arena, Parenthesised(), Initial("(42)"), 2) == Done(State("(42)", 4, Str("42"), None))
  {
    var t := "(42)";
    assert t[0..1] == "(" && t[1..3] == "42" && t[3..4] == ")";
    LiteralAt(arena, "(", t, 0, Str(""), 1);
    DigitsAt(arena, t, 1, 3, Str("("), 1);
    LiteralAt(arena, ")", t, 3, Str("42"), 1);
    BetweenParts(arena, Literal("("), Literal(")"), Chars(Digit), Initial(t), 2);
  }

  /** A round of separated_by over a number and a comma. */
  lemma NumberThenComma(arena: seq<Parser>, t: string, i: nat, j: nat, v: Value, fuel: nat)
    requires fuel >= 2 && i < j < |t| && t[j..j + 1] == ","
    requires forall k :: i <= k < j ==> Matches(Digit, t[k])
    ensures Run(arena, Numbers(), State(t, i, v, None), fuel)
            == Prepend([Str(t[i..j])], Run(arena, Numbers(), State(t, j + 1, Str(","), None), fuel - 1))
  {
    assert t[j] == t[j..j + 1][0];
    var w := State(t, j, Str(t[i..j]), None);
    DigitsAt(arena, t, i, j, v, fuel - 1);
    assert Run(arena, Chars(Digit), State(t, i, v, None), fuel - 1) == Done(w);
    LiteralAt(arena, ",", t, j, Str(t[i..j]), fuel - 1);
    assert Run(arena, Literal(","), w, fuel - 1) == Done(State(t, j + 1, Str(","), None));
    SepByStep(arena, Literal(","), Chars(Digit), State(t, i, v, None), fuel);
  }

  /** The last round: a number with no comma after it. */
  lemma LastNumber(arena: seq<Parser>, t: string, i: nat, j: nat, v: Value, fuel: nat)
    requires fuel >= 2 && i < j <= |t| && (j < |t| ==> t[j] != ',' && !Matches(Digit, t[j]))
    requires forall k :: i <= k < j ==> Matches(Digit, t[k])
    ensures Run(arena, Numbers(), State(t, i, v, None), fuel) == Done(State(t, j, List([Str(t[i..j])]), None))
  {
    var w := State(t, j, Str(t[i..j]), None);
    DigitsAt(arena, t, i, j, v, fuel - 1);
    assert Run(arena, Chars(Digit), State(t, i, v, None), fuel - 1) == Done(w);
    LiteralNotAt(arena, ",", t, j, Str(t[i..j]), fuel - 1);
    assert Fails(Run(arena, Literal(","), w, fuel - 1));
    SepByStep(arena, Literal(","), Chars(Digit), State(t, i, v, None), fuel);
  }

  /** No number at the index: separated_by stops there with no values. */
  lemma NoNumber(arena: seq<Parser>, t: string, i: nat, v: Value, fuel: nat)
    requires fuel >= 2 && (i < |t| ==> !Matches(Digit, t[i]))
    ensures Run(arena, Numbers(), State(t, i, v, None), fuel) == Done(State(t, i, List([]), None))
  {
    NoDigitAt(arena, t, i, v, fuel - 1);
    SepByStep(arena, Literal(","), Chars(Digit), State(t, i, v, None), fuel);
  }

  /** separated_by collects every value and stops after the last one. */
  lemma ThreeNumbers(arena: seq<Parser>)
    ensures Run(arena, Numbers(), Initial("1,2,3"), 4)
            == Done(State("1,2,3", 5, List([Str("1"), Str("2"), Str("3")]), None))
  {
    var t := "1,2,3";
    assert t[0..1] == "1" && t[1..2] == "," && t[2..3] == "2" && t[3..4] == "," && t[4..5] == "3";
    NumberThenComma(arena, t, 0, 1, Str(""), 4);
    NumberThenComma(arena, t, 2, 3, Str(","), 3);
    LastNumber(arena, t, 4, 5, Str(","), 2);
    assert [Str("1")] + ([Str("2")] + [Str("3")]) == [Str("1"), Str("2"), Str("3")];
  }

  /** On an empty text separated_by succeeds with an empty list. */
  lemma NoNumbers(arena: seq<Parser>)
    ensures Run(arena, Numbers(), Initial(""), 2) == Done(State("", 0, List([]), None))
  {
    NoNumber(arena, "", 0, Str(""), 2);
  }

  /** After "1,": the number 2, a comma, then nothing. */
  lemma TrailingTail(arena: seq<Parser>, t: string)
    requires t == "1,2,"
    ensures Run(arena, Numbers(), State(t, 2, Str(","), None), 3) == Done(State(t, 4, List([Str("2")]), None))
  {
    assert t[2..3] == "2" && t[3..4] == ",";
    NumberThenComma(arena, t, 2, 3, Str(","), 3);
    NoNumber(arena, t, 4, Str(","), 2);
    assert [Str("2")] + [] == [Str("2")];
  }

  /** A trailing separator is consumed: the parse of "1,2," stops past the
      last comma, with the two values. */
  lemma TrailingSeparator(arena: seq<Parser>)
    ensures Run(arena, Numbers(), Initial("1,2,"), 4)
            == Done(State("1,2,", 4, List([Str("1"), Str("2")]), None))
  {
    var t := "1,2,";
    assert t[0..1] == "1" && t[1..2] == ",";
    NumberThenComma(arena, t, 0, 1, Str(""), 4);
    TrailingTail(arena, t);
    assert [Str("1")] + [Str("2")] == [Str("1"), Str("2")];
  }
}
