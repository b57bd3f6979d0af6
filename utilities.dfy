/** The text helpers of lib/utilities.hpp and src/utilities.cpp: prefix
    matching, the bounded snippet quoted by error messages, and the debug
    rendering of result values. */
module Utilities {
  import opened Wrappers
  import opened Values

  // ---------------------------------------------------------------------------
  // string_starts_with

  /** `prefix` occurs in `s` at `index`, without running past the end of `s`. */
  predicate StartsWith(s: string, prefix: string, index: nat)
  {
    index + |prefix| <= |s| && s[index..index + |prefix|] == prefix
  }

  /** string_starts_with: a length guard, then a character-by-character loop
      with an early return on the first mismatch. */
  method StringStartsWith(s: string, prefix: string, index: nat) returns (b: bool)
    ensures b == StartsWith(s, prefix, index)
    ensures prefix == [] ==> (b <==> index <= |s|)
  {
    if index + |prefix| > |s| {
      return false;
    }
    var i := 0;
    while i < |prefix|
      invariant 0 <= i <= |prefix|
      invariant s[index..index + i] == prefix[..i]
    {
      if s[i + index] != prefix[i] {
        assert s[index..index + |prefix|][i] != prefix[i];
        return false;
      }
      assert s[index..index + i + 1] == s[index..index + i] + [s[index + i]];
      assert prefix[..i + 1] == prefix[..i] + [prefix[i]];
      i := i + 1;
    }
    assert prefix[..i] == prefix;
    return true;
  }

  // ---------------------------------------------------------------------------
  // string_at_most

  /** string_at_most: at most `atMost` characters of `s` starting at `from`;
      with `ellipsis`, "..." is appended when the snippet stops before the end
      of `s`. Nothing at all when `atMost` is 0 or `from` is past the end. */
  function AtMost(s: string, atMost: nat, from: nat, ellipsis: bool): (r: string)
    ensures !ellipsis ==> |r| <= atMost
    ensures ellipsis ==> |r| <= atMost + 3
    ensures atMost == 0 || from >= |s| ==> r == ""
    ensures !ellipsis && from <= |s| ==>
              && |r| == (if atMost < |s| - from then atMost else |s| - from)
              && r == s[from..from + |r|]
    ensures ellipsis && atMost > 0 && from + atMost < |s| ==> r == AtMost(s, atMost, from, false) + "..."
    ensures ellipsis && !(atMost > 0 && from + atMost < |s|) ==> r == AtMost(s, atMost, from, false)
  {
    if atMost == 0 || from > |s| then ""
    else
      var end := if from + atMost < |s| then from + atMost else |s|;
      s[from..end] + (if ellipsis && from + atMost < |s| then "..." else "")
  }

  /** string_at_most, as the source writes it: copy characters from `from`
      on, counting `atMost` down, and stop when it reaches 0. */
  method StringAtMost(s: string, atMost: nat, from: nat, ellipsis: bool) returns (r: string)
    ensures r == AtMost(s, atMost, from, ellipsis)
    ensures atMost > 0 && from < |s| ==> r[..1] == [s[from]]
    ensures ellipsis && atMost > 0 ==> (from + atMost < |s| <==> r == AtMost(s, atMost, from, false) + "...")
  {
    if atMost == 0 || from > |s| {
      return "";
    }
    var left := atMost;
    r := "";
    var i := from;
    while i < |s|
      invariant from <= i <= |s|
      invariant left == atMost - (i - from) && left > 0
      invariant r == s[from..i]
    {
      r := r + [s[i]];
      left := left - 1;
      if left == 0 {
        assert i + 1 == from + atMost && r == s[from..from + atMost];
        if ellipsis && i + 1 < |s| {
          return r + "...";
        }
        return r;
      }
      i := i + 1;
    }
    assert from + atMost > |s| && r == s[from..|s|];
  }

  // ---------------------------------------------------------------------------
  // any_to_string and vector_to_string

  /** The decimal digit for `d`. */
  function DigitChar(d: nat): char
    requires d < 10
  {
    "0123456789"[d]
  }

  /** The decimal digits of `n`, most significant first, without leading zeros. */
  function NatToDecimal(n: nat): string
  {
    if n < 10 then [DigitChar(n)] else NatToDecimal(n / 10) + [DigitChar(n % 10)]
  }

  /** std::to_string on an integer: a minus sign for negatives, then the digits. */
  function IntToDecimal(n: int): string
  {
    if n < 0 then "-" + NatToDecimal(-n) else NatToDecimal(n)
  }

  /** The number a string of decimal digits denotes: the inverse reading of
      IntToDecimal, used to state that rendering loses no information. */
  function DigitsValue(s: string): int
  {
    if s == [] then 0 else DigitsValue(s[..|s| - 1]) * 10 + (s[|s| - 1] as int - '0' as int)
  }

  function DecimalValue(s: string): int
  {
    if |s| > 0 && s[0] == '-' then -DigitsValue(s[1..]) else DigitsValue(s)
  }

  lemma {:induction false} NatToDecimalDigits(n: nat)
    ensures |NatToDecimal(n)| > 0
    ensures forall i :: 0 <= i < |NatToDecimal(n)| ==> '0' <= NatToDecimal(n)[i] <= '9'
    ensures DigitsValue(NatToDecimal(n)) == n
  {
    if n >= 10 {
      NatToDecimalDigits(n / 10);
      var init := NatToDecimal(n / 10);
      assert (init + [DigitChar(n % 10)])[..|init|] == init;
    }
  }

  /** Rendering an integer in decimal can be read back: nothing is lost. */
  lemma {:induction false} IntToDecimalRoundTrip(n: int)
    ensures DecimalValue(IntToDecimal(n)) == n
  {
    if n < 0 {
      var digits := NatToDecimal(-n);
      NatToDecimalDigits(-n);
      var text := "-" + digits;
      assert IntToDecimal(n) == text;
      assert text[0] == '-' && text[1..] == digits;
      assert DecimalValue(text) == -DigitsValue(digits);
    } else {
      var digits := NatToDecimal(n);
      NatToDecimalDigits(n);
      assert IntToDecimal(n) == digits;
      assert digits[0] != '-';
      assert DecimalValue(digits) == DigitsValue(digits);
    }
  }

  /** any_to_string: lists through vector_to_string; strings as they are, in
      double quotes (without escaping) when `quotes` is set; integers in
      decimal; any other kind is an error, which the source throws. */
  function Render(v: Value, quotes: bool): Result<string, string>
  {
    match v
    case List(vs) => RenderList(vs, quotes)
    case Str(x) => Success(if quotes then "\"" + x + "\"" else x)
    case Int(n) => Success(IntToDecimal(n as int))
    case Other(t) => Failure("any_to_string type: " + t)
  }

  /** vector_to_string: "[]" for an empty list; otherwise "[", the text the
      loop writes for all elements but the last, the last element, "]". The
      first element that cannot be rendered aborts with its error. */
  function RenderList(vs: seq<Value>, quotes: bool): Result<string, string>
  {
    if vs == [] then Success("[]")
    else
      match RenderSeparated(vs[..|vs| - 1], quotes)
      case Failure(e) => Failure(e)
      case Success(init) =>
        match Render(vs[|vs| - 1], quotes)
        case Failure(e) => Failure(e)
        case Success(last) => Success("[" + init + last + "]")
  }

  /** What the loop of vector_to_string writes for `vs`: each rendering
      followed by ", ". */
  function RenderSeparated(vs: seq<Value>, quotes: bool): Result<string, string>
  {
    if vs == [] then Success("")
    else
      match RenderSeparated(vs[..|vs| - 1], quotes)
      case Failure(e) => Failure(e)
      case Success(init) =>
        match Render(vs[|vs| - 1], quotes)
        case Failure(e) => Failure(e)
        case Success(x) => Success(init + x + ", ")
  }

  /** any_to_string as a method: the case dispatch of the source. */
  method AnyToString(x: Value, quotes: bool) returns (r: Result<string, string>)
    ensures r == Render(x, quotes)
    decreases x, 1
  {
    match x
    case List(vs) =>
      r := VectorToString(vs, quotes);
    case Str(t) =>
      r := Success(if quotes then "\"" + t + "\"" else t);
    case Int(n) =>
      r := Success(IntToDecimal(n as int));
    case Other(t) =>
      r := Failure("any_to_string type: " + t);
  }

  /** vector_to_string as the source writes it: a loop over all elements but
      the last, each followed by ", ", then the last element and "]". */
  method VectorToString(vs: seq<Value>, quotes: bool) returns (r: Result<string, string>)
    ensures r == RenderList(vs, quotes)
    decreases vs, 0
  {
    if |vs| == 0 {
      return Success("[]");
    }
    var n := |vs| - 1;
    var text := "";
    var i := 0;
    while i < n
      invariant 0 <= i <= n
      invariant RenderSeparated(vs[..i], quotes) == Success(text)
    {
      var item := AnyToString(vs[i], quotes);
      assert vs[..i + 1][..i] == vs[..i];
      if item.Failure? {
        RenderSeparatedFailure(vs, i + 1, quotes);
        return Failure(item.error);
      }
      text := text + item.value + ", ";
      i := i + 1;
    }
    var last := AnyToString(vs[n], quotes);
    if last.Failure? {
      return Failure(last.error);
    }
    r := Success("[" + text + last.value + "]");
  }

  /** Once the loop of vector_to_string has failed on element k - 1, the
      whole list fails with that error. */
  lemma {:induction false} RenderSeparatedFailure(vs: seq<Value>, k: nat, quotes: bool)
    requires 0 < k < |vs|
    requires RenderSeparated(vs[..k], quotes).Failure?
    ensures RenderList(vs, quotes) == Failure(RenderSeparated(vs[..k], quotes).error)
    decreases |vs| - k
  {
    var n := |vs| - 1;
    if k < n {
      assert vs[..k + 1][..k] == vs[..k];
      RenderSeparatedFailure(vs, k + 1, quotes);
    }
  }

  // ---------------------------------------------------------------------------
  // What rendering promises

  /** Values that contain no kind unknown to any_to_string. */
  predicate Renderable(v: Value)
  {
    match v
    case List(vs) => forall i :: 0 <= i < |vs| ==> Renderable(vs[i])
    case Other(_) => false
    case _ => true
  }

  /** any_to_string throws exactly when an unknown kind occurs somewhere in
      the value. */
  lemma {:induction false} RenderSucceedsIff(v: Value, quotes: bool)
    ensures Render(v, quotes).Success? <==> Renderable(v)
    decreases v, 2
  {
    match v
    case List(vs) => RenderListSucceedsIff(vs, quotes);
    case _ =>
  }

  lemma {:induction false} RenderListSucceedsIff(vs: seq<Value>, quotes: bool)
    ensures RenderList(vs, quotes).Success? <==> forall i :: 0 <= i < |vs| ==> Renderable(vs[i])
    decreases vs, 1
  {
    if vs != [] {
      var n := |vs| - 1;
      RenderSeparatedSucceedsIff(vs[..n], quotes);
      RenderSucceedsIff(vs[n], quotes);
      assert forall i :: 0 <= i < n ==> vs[..n][i] == vs[i];
    }
  }

  lemma {:induction false} RenderSeparatedSucceedsIff(vs: seq<Value>, quotes: bool)
    ensures RenderSeparated(vs, quotes).Success? <==> forall i :: 0 <= i < |vs| ==> Renderable(vs[i])
    decreases vs, 0
  {
    if vs != [] {
      var n := |vs| - 1;
      RenderSeparatedSucceedsIff(vs[..n], quotes);
      RenderSucceedsIff(vs[n], quotes);
      assert forall i :: 0 <= i < n ==> vs[..n][i] == vs[i];
    }
  }

  /** `parts` joined with `sep` between neighbours. */
  function Join(parts: seq<string>, sep: string): string
  {
    if parts == [] then ""
    else if |parts| == 1 then parts[0]
    else Join(parts[..|parts| - 1], sep) + sep + parts[|parts| - 1]
  }

  /** The renderings of all elements of a renderable list, in order. */
  function Renderings(vs: seq<Value>, quotes: bool): (r: seq<string>)
    requires forall i :: 0 <= i < |vs| ==> Renderable(vs[i])
    ensures |r| == |vs|
  {
    if vs == [] then []
    else
      var n := |vs| - 1;
      RenderSucceedsIff(vs[n], quotes);
      Renderings(vs[..n], quotes) + [Render(vs[n], quotes).value]
  }

  /** Joining one more part appends the separator and that part. */
  lemma JoinSnoc(parts: seq<string>, x: string, sep: string)
    requires parts != []
    ensures Join(parts + [x], sep) == Join(parts, sep) + sep + x
  {
    assert (parts + [x])[..|parts|] == parts;
  }

  /** vector_to_string renders a non-empty renderable list as "[", the
      elements' renderings joined by ", ", and "]", in list order. */
  lemma {:induction false} RenderListIsJoin(vs: seq<Value>, quotes: bool)
    requires vs != []
    requires forall i :: 0 <= i < |vs| ==> Renderable(vs[i])
    ensures RenderList(vs, quotes) == Success("[" + Join(Renderings(vs, quotes), ", ") + "]")
  {
    var n := |vs| - 1;
    RenderSeparatedIsJoin(vs[..n], quotes);
    RenderSucceedsIff(vs[n], quotes);
    var x := Render(vs[n], quotes).value;
    var front := Renderings(vs[..n], quotes);
    assert Renderings(vs, quotes) == front + [x];
    var init := RenderSeparated(vs[..n], quotes).value;
    assert RenderList(vs, quotes) == Success("[" + init + x + "]");
    var joined := Join(Renderings(vs, quotes), ", ");
    if n > 0 {
      JoinSnoc(front, x, ", ");
      assert init + x == joined;
    } else {
      assert front == [];
      assert init + x == joined;
    }
    assert "[" + init + x + "]" == "[" + joined + "]";
  }

  lemma {:induction false} RenderSeparatedIsJoin(vs: seq<Value>, quotes: bool)
    requires forall i :: 0 <= i < |vs| ==> Renderable(vs[i])
    ensures RenderSeparated(vs, quotes)
         == Success(if vs == [] then "" else Join(Renderings(vs, quotes), ", ") + ", ")
    decreases |vs|
  {
    if vs != [] {
      var n := |vs| - 1;
      RenderSeparatedIsJoin(vs[..n], quotes);
      RenderSucceedsIff(vs[n], quotes);
      var x := Render(vs[n], quotes).value;
      var parts := Renderings(vs, quotes);
      assert parts == Renderings(vs[..n], quotes) + [x];
      assert parts[..n] == Renderings(vs[..n], quotes);
      assert RenderSeparated(vs, quotes)
          == Success(RenderSeparated(vs[..n], quotes).value + x + ", ");
      if n > 0 {
        assert Join(parts, ", ") == Join(parts[..n], ", ") + ", " + x;
      } else {
        assert vs[..n] == [];
        assert RenderSeparated(vs[..n], quotes) == Success("");
        assert parts == [x];
        assert Join(parts, ", ") == x;
        assert "" + x + ", " == Join(parts, ", ") + ", ";
      }
    }
  }
}
