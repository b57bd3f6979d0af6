/** parser_state_t: the value threaded through every parser, and its pure
    transforms (map_result, map_error, map_nested_result, flatten_result).
    The source passes states by value and its setters act on a copy, so a
    state is a datatype here and a setter is a field update `s.(f := v)`. */
module ParseState {
  import opened Wrappers
  import opened Values

  /** The target text, the cursor into it, the last result and an optional
      error. A state is failed exactly when the error is present. */
  datatype State = State(target: string, index: nat, result: Value, error: Option<string>)
  {
    predicate Failed()
    {
      error.Some?
    }
  }

  /** parser_state_t(): an empty target, index 0, result "", no error. */
  function Default(): (r: State)
    ensures !r.Failed() && r.target == "" && r.index == 0 && r.result == Str("")
  {
    State("", 0, Str(""), None)
  }

  /** parser_state_t(target): a parse of `target` about to start. */
  function Initial(target: string): (r: State)
    ensures !r.Failed() && r.target == target && r.index == 0 && r.result == Str("")
  {
    State(target, 0, Str(""), None)
  }

  /** map_result: a failed state is returned as it is; otherwise only the
      result changes, to `f` of the old result. */
  function MapResult(s: State, f: Value -> Value): (r: State)
    ensures r.target == s.target && r.index == s.index && r.error == s.error
    ensures r.result == if s.Failed() then s.result else f(s.result)
  {
    if s.Failed() then s else s.(result := f(s.result))
  }

  /** map_error: a state without error is returned as it is; otherwise only
      the error changes, to `f` of the old one. */
  function MapError(s: State, f: string -> string): (r: State)
    ensures r.target == s.target && r.index == s.index && r.result == s.result
    ensures r.Failed() == s.Failed()
    ensures s.Failed() ==> r.error == Some(f(s.error.value))
  {
    if !s.Failed() then s else s.(error := Some(f(s.error.value)))
  }

  /** Every leaf of the value is a string: the leaves map_nested_result
      casts (any other leaf makes `std::any_cast<std::string>` throw). `Str`
      does not tell `std::string` from `const char*`, on which the cast also
      throws. */
  predicate StrLeaves(v: Value)
  {
    match v
    case List(vs) => forall i :: 0 <= i < |vs| ==> StrLeaves(vs[i])
    case Str(_) => true
    case _ => false
  }

  /** The recursive lambda of map_nested_result: lists keep their length and
      order with every element mapped; a string leaf is replaced by `f` of it. */
  function MapNested(v: Value, f: string -> Value): (r: Value)
    requires StrLeaves(v)
    ensures v.List? ==> r.List? && |r.items| == |v.items|
  {
    match v
    case List(vs) => List(seq(|vs|, i requires 0 <= i < |vs| => MapNested(vs[i], f)))
    case Str(x) => f(x)
  }

  /** The same lambda as the source writes it: copy the vector and overwrite
      each element in place with its mapped value. */
  method MapNestedInPlace(v: Value, f: string -> Value) returns (r: Value)
    requires StrLeaves(v)
    ensures r == MapNested(v, f)
    decreases v
  {
    if !v.List? {
      return f(v.s);
    }
    var items := v.items;
    var i := 0;
    while i < |items|
      invariant 0 <= i <= |items| && |items| == |v.items|
      invariant forall j :: 0 <= j < i ==> items[j] == MapNested(v.items[j], f)
      invariant forall j :: i <= j < |items| ==> items[j] == v.items[j]
    {
      var a := MapNestedInPlace(items[i], f);
      items := items[i := a];
      i := i + 1;
    }
    r := List(items);
  }

  /** map_nested_result: map_result with the nested lambda. */
  function MapNestedResult(s: State, f: string -> Value): (r: State)
    requires !s.Failed() ==> StrLeaves(s.result)
    ensures r.target == s.target && r.index == s.index && r.error == s.error
    ensures s.Failed() ==> r.result == s.result
    ensures !s.Failed() ==> r.result == MapNested(s.result, f)
  {
    if s.Failed() then s else s.(result := MapNested(s.result, f))
  }

  /** flatten_result: the result of a state without error is replaced by its
      flattening, stored back as a list. */
  function FlattenResult(s: State): (r: State)
    ensures r.target == s.target && r.index == s.index && r.error == s.error
    ensures !s.Failed() ==> r.result == List(Flatten(s.result)) && IsFlat(r.result.items)
    ensures s.Failed() ==> r.result == s.result
  {
    FlattenIsFlat(s.result);
    if s.Failed() then s else s.(result := List(Flatten(s.result)))
  }

  // ---------------------------------------------------------------------------
  // What the transforms promise

  /** map_nested_result with the function that wraps each string back into a
      value changes nothing: the list structure is preserved exactly. */
  lemma {:induction false} MapNestedIdentity(v: Value)
    requires StrLeaves(v)
    ensures MapNested(v, x => Str(x)) == v
    decreases v
  {
    match v
    case List(vs) =>
      forall i | 0 <= i < |vs|
        ensures MapNested(vs[i], x => Str(x)) == vs[i]
      {
        MapNestedIdentity(vs[i]);
      }
    case Str(_) =>
  }

  /** The nesting shape of a value: every list kept at every depth, every
      leaf replaced by the same placeholder. */
  function Skeleton(v: Value): Value
  {
    match v
    case List(vs) => List(seq(|vs|, i requires 0 <= i < |vs| => Skeleton(vs[i])))
    case _ => Str("")
  }

  /** map_nested_result keeps the nesting shape at every depth when `f`
      yields no lists: only the leaves change. */
  lemma {:induction false} MapNestedShape(v: Value, f: string -> Value)
    requires StrLeaves(v)
    requires forall x :: !f(x).List?
    ensures Skeleton(MapNested(v, f)) == Skeleton(v)
    decreases v
  {
    match v
    case List(vs) =>
      forall i | 0 <= i < |vs|
        ensures Skeleton(MapNested(vs[i], f)) == Skeleton(vs[i])
      {
        MapNestedShape(vs[i], f);
      }
    case Str(_) =>
  }

  /** Flattening a value whose leaves are all strings yields only strings. */
  lemma {:induction false} FlattenOfStrLeaves(v: Value)
    requires StrLeaves(v)
    ensures forall i :: 0 <= i < |Flatten(v)| ==> Flatten(v)[i].Str?
    decreases v, 1
  {
    match v
    case List(vs) => FlattenItemsOfStrLeaves(vs);
    case Str(_) =>
  }

  lemma {:induction false} FlattenItemsOfStrLeaves(vs: seq<Value>)
    requires forall i :: 0 <= i < |vs| ==> StrLeaves(vs[i])
    ensures forall i :: 0 <= i < |FlattenItems(vs)| ==> FlattenItems(vs)[i].Str?
    decreases vs, 0
  {
    if vs != [] {
      var n := |vs| - 1;
      FlattenItemsOfStrLeaves(vs[..n]);
      FlattenOfStrLeaves(vs[n]);
    }
  }

  /** map_nested_result applies `f` to every string leaf, in order: when `f`
      yields no lists, the flattened result is `f` applied to each leaf of
      the flattened original. */
  lemma {:induction false} MapNestedLeaves(v: Value, f: string -> Value)
    requires StrLeaves(v)
    requires forall x :: !f(x).List?
    ensures |Flatten(MapNested(v, f))| == |Flatten(v)|
    ensures forall i :: 0 <= i < |Flatten(v)| ==>
              Flatten(v)[i].Str? && Flatten(MapNested(v, f))[i] == f(Flatten(v)[i].s)
    decreases v, 1
  {
    FlattenOfStrLeaves(v);
    match v
    case List(vs) =>
      var mapped := seq(|vs|, i requires 0 <= i < |vs| => MapNested(vs[i], f));
      MapNestedItemsLeaves(vs, mapped, f);
    case Str(x) =>
  }

  lemma {:induction false} MapNestedItemsLeaves(vs: seq<Value>, mapped: seq<Value>, f: string -> Value)
    requires forall i :: 0 <= i < |vs| ==> StrLeaves(vs[i])
    requires forall x :: !f(x).List?
    requires |mapped| == |vs| && forall i :: 0 <= i < |vs| ==> mapped[i] == MapNested(vs[i], f)
    ensures |FlattenItems(mapped)| == |FlattenItems(vs)|
    ensures forall i :: 0 <= i < |FlattenItems(vs)| ==>
              FlattenItems(vs)[i].Str? && FlattenItems(mapped)[i] == f(FlattenItems(vs)[i].s)
    decreases vs, 0
  {
    FlattenItemsOfStrLeaves(vs);
    if vs != [] {
      var n := |vs| - 1;
      MapNestedItemsLeaves(vs[..n], mapped[..n], f);
      var last := vs[n];
      var front, mappedFront := FlattenItems(vs[..n]), FlattenItems(mapped[..n]);
      var back := if last.List? then Flatten(last) else [last];
      var mappedBack := if mapped[n].List? then Flatten(mapped[n]) else [mapped[n]];
      assert FlattenItems(vs) == front + back;
      assert FlattenItems(mapped) == mappedFront + mappedBack;
      FlattenOfStrLeaves(last);
      if last.List? {
        MapNestedLeaves(last, f);
      }
      assert |mappedBack| == |back|;
      assert forall j :: 0 <= j < |back| ==> back[j].Str? && mappedBack[j] == f(back[j].s);
      LeavesMappedAppend(front, back, mappedFront, mappedBack, f);
    }
  }

  /** Two pairs of sequences related leaf by leaf through `f` stay related
      when the two pairs are concatenated. */
  lemma LeavesMappedAppend(front: seq<Value>, back: seq<Value>, mappedFront: seq<Value>, mappedBack: seq<Value>, f: string -> Value)
    requires |mappedFront| == |front| && |mappedBack| == |back|
    requires forall j :: 0 <= j < |front| ==> front[j].Str? && mappedFront[j] == f(front[j].s)
    requires forall j :: 0 <= j < |back| ==> back[j].Str? && mappedBack[j] == f(back[j].s)
    ensures forall j :: 0 <= j < |front + back| ==>
              (front + back)[j].Str? && (mappedFront + mappedBack)[j] == f((front + back)[j].s)
  {
    forall j | 0 <= j < |front + back|
      ensures (front + back)[j].Str? && (mappedFront + mappedBack)[j] == f((front + back)[j].s)
    {
      if j >= |front| {
        assert (front + back)[j] == back[j - |front|];
        assert (mappedFront + mappedBack)[j] == mappedBack[j - |front|];
      }
    }
  }
}
