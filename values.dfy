/** The result slot of a parse state (a `std::any` in the source) and the
    helpers of src/utilities.cpp that inspect it: string recognition and
    nested-list flattening. */
module Values {

  /** The source renders results through `int`, so integers are 32-bit. */
  newtype Int32 = x: int | -0x8000_0000 <= x < 0x8000_0000

  /** What a result can hold. `Str` stands for all three string kinds the
      source recognises (`std::string`, `char*`, `const char*`); `List` for a
      `std::vector<std::any>`; `Other` for any kind the helpers do not know,
      identified by its type name. */
  datatype Value =
    | Str(s: string)
    | Int(n: Int32)
    | List(items: seq<Value>)
    | Other(typeName: string)

  /** any_is_smart_string: is the value one of the string kinds? */
  predicate IsSmartString(v: Value)
    ensures IsSmartString(v) <==> !(v.Int? || v.List? || v.Other?)
  {
    v.Str?
  }

  /** smart_string_any_cast: the string a string-kind value holds, "??" otherwise. */
  function SmartStringCast(v: Value): (r: string)
    ensures IsSmartString(v) ==> Str(r) == v
    ensures !IsSmartString(v) ==> r == "??"
  {
    if v.Str? then v.s else "??"
  }

  // ---------------------------------------------------------------------------
  // flatten_vector

  /** flatten_vector: a non-list value becomes a one-element list; a list
      becomes the in-order concatenation of its flattened elements. */
  function Flatten(v: Value): seq<Value>
  {
    match v
    case List(vs) => FlattenItems(vs)
    case _ => [v]
  }

  /** The `result` vector after the loop of flatten_vector has visited every
      element of `vs`: a nested list contributes its flattening, any other
      element itself. */
  function FlattenItems(vs: seq<Value>): seq<Value>
  {
    if vs == [] then []
    else
      var last := vs[|vs| - 1];
      FlattenItems(vs[..|vs| - 1]) + (if last.List? then Flatten(last) else [last])
  }

  /** No element is itself a list. */
  predicate IsFlat(vs: seq<Value>)
  {
    forall i :: 0 <= i < |vs| ==> !vs[i].List?
  }

  /** flatten_vector, as the source writes it: a loop that grows `result`,
      recursing into nested lists. */
  method FlattenVector(v: Value) returns (r: seq<Value>)
    ensures r == Flatten(v)
    ensures !v.List? ==> r == [v]
    decreases v
  {
    if !v.List? {
      return [v];
    }
    var vs := v.items;
    r := [];
    var i := 0;
    while i < |vs|
      invariant 0 <= i <= |vs|
      invariant r == FlattenItems(vs[..i])
    {
      var a := vs[i];
      if a.List? {
        var aux := FlattenVector(a);
        r := r + aux;
      } else {
        r := r + [a];
      }
      assert vs[..i + 1][..i] == vs[..i];
      i := i + 1;
    }
    assert vs[..i] == vs;
  }

  /** Flattening distributes over concatenation of the outer list. */
  lemma {:induction false} FlattenItemsAppend(a: seq<Value>, b: seq<Value>)
    ensures FlattenItems(a + b) == FlattenItems(a) + FlattenItems(b)
    decreases |b|
  {
    if b == [] {
      assert a + b == a;
    } else {
      var n := |b| - 1;
      assert (a + b)[..|a + b| - 1] == a + b[..n];
      assert (a + b)[|a + b| - 1] == b[n];
      FlattenItemsAppend(a, b[..n]);
    }
  }

  /** The flattening of any value contains no nested list. */
  lemma {:induction false} FlattenIsFlat(v: Value)
    ensures IsFlat(Flatten(v))
    decreases v, 1
  {
    match v
    case List(vs) => FlattenItemsIsFlat(vs);
    case _ =>
  }

  lemma {:induction false} FlattenItemsIsFlat(vs: seq<Value>)
    ensures IsFlat(FlattenItems(vs))
    decreases vs, 0
  {
    if vs != [] {
      var last := vs[|vs| - 1];
      FlattenItemsIsFlat(vs[..|vs| - 1]);
      if last.List? {
        FlattenIsFlat(last);
      }
    }
  }

  /** Flattening a list that is already flat returns it unchanged. */
  lemma {:induction false} FlattenItemsOfFlat(vs: seq<Value>)
    requires IsFlat(vs)
    ensures FlattenItems(vs) == vs
    decreases |vs|
  {
    if vs != [] {
      var n := |vs| - 1;
      FlattenItemsOfFlat(vs[..n]);
      assert vs[..n] + [vs[n]] == vs;
    }
  }

  /** flatten_result applied twice is flatten_result applied once: the
      flattened vector, stored back as a list value, flattens to itself. */
  lemma {:induction false} FlattenIdempotent(v: Value)
    ensures Flatten(List(Flatten(v))) == Flatten(v)
  {
    var once := Flatten(v);
    FlattenIsFlat(v);
    FlattenItemsOfFlat(once);
    assert Flatten(List(once)) == FlattenItems(once);
  }

  /** A list flattens to the concatenation of its first element's
      flattening and the rest's: the left-to-right order is kept. */
  lemma {:induction false} FlattenCons(x: Value, vs: seq<Value>)
    ensures Flatten(List([x] + vs)) == Flatten(x) + Flatten(List(vs))
  {
    FlattenItemsAppend([x], vs);
    assert [x][..0] == [];
  }
}
