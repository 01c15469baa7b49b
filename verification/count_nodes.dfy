/** `countNodes` of the server: the number of AST nodes in a received tree. */
module NodeCount {
  import opened JsonValue
  import opened AstStrip

  /** A value that is not a non-null object counts 0; an array counts the sum of its
      elements; an object counts itself plus its fields whose `typeof` is `'object'`. */
  function CountNodes(v: Json): (n: nat)
    ensures !IsNode(v) ==> n == 0
    ensures v.Obj? ==> n >= 1
    decreases v, 1
  {
    match v
    case Arr(items) => SumCounts(items)
    case Obj(fs) => 1 + CountFields(fs)
    case _ => 0
  }

  /** The sum of the counts of the elements of an array, from the first to the last. */
  function SumCounts(items: seq<Json>): nat
    decreases items, 0
  {
    if items == [] then 0 else SumCounts(items[..|items| - 1]) + CountNodes(items[|items| - 1])
  }

  /** The accumulator loop over the keys of an object. */
  function CountFields(fs: seq<Field>): nat
    decreases fs, 0
  {
    if fs == [] then 0
    else (if IsObjectType(fs[0].value) then CountNodes(fs[0].value) else 0) + CountFields(fs[1..])
  }

  /** The object nodes of a tree, in document order: the reference for what the count
      counts. */
  function Objects(v: Json): (os: seq<Json>)
    ensures forall i :: 0 <= i < |os| ==> os[i].Obj?
    decreases v, 1
  {
    match v
    case Arr(items) => ItemsObjects(items)
    case Obj(fs) => [v] + FieldsObjects(fs)
    case _ => []
  }

  function ItemsObjects(items: seq<Json>): (os: seq<Json>)
    ensures forall i :: 0 <= i < |os| ==> os[i].Obj?
    decreases items, 0
  {
    if items == [] then [] else Objects(items[0]) + ItemsObjects(items[1..])
  }

  function FieldsObjects(fs: seq<Field>): (os: seq<Json>)
    ensures forall i :: 0 <= i < |os| ==> os[i].Obj?
    decreases fs, 0
  {
    if fs == [] then [] else Objects(fs[0].value) + FieldsObjects(fs[1..])
  }

  /** Counting an array is counting its elements one after the other: the array
      itself adds nothing. */
  lemma {:induction false} SumCountsAppend(a: seq<Json>, b: seq<Json>)
    ensures SumCounts(a + b) == SumCounts(a) + SumCounts(b)
    decreases |b|
  {
    if b != [] {
      var b' := b[..|b| - 1];
      SumCountsAppend(a, b');
      assert (a + b)[..|a + b| - 1] == a + b';
      assert (a + b)[|a + b| - 1] == b[|b| - 1];
    } else {
      assert a + b == a;
    }
  }

  lemma {:induction false} SumCountsCons(items: seq<Json>)
    requires items != []
    ensures SumCounts(items) == CountNodes(items[0]) + SumCounts(items[1..])
  {
    SumCountsAppend([items[0]], items[1..]);
    assert [items[0]] + items[1..] == items;
    assert SumCounts([items[0]]) == SumCounts([]) + CountNodes(items[0]);
  }

  /** The count is the number of object nodes; in particular the `typeof` test
      changes nothing, since a primitive field would count 0 anyway. */
  lemma {:induction false} CountIsObjects(v: Json)
    ensures CountNodes(v) == |Objects(v)|
    decreases v, 1
  {
    match v
    case Arr(items) => CountItemsIsObjects(items);
    case Obj(fs) => CountFieldsIsObjects(fs);
    case _ =>
  }

  lemma {:induction false} CountItemsIsObjects(items: seq<Json>)
    ensures SumCounts(items) == |ItemsObjects(items)|
    decreases items, 0
  {
    if items != [] {
      SumCountsCons(items);
      CountIsObjects(items[0]);
      CountItemsIsObjects(items[1..]);
    }
  }

  lemma {:induction false} CountFieldsIsObjects(fs: seq<Field>)
    ensures CountFields(fs) == |FieldsObjects(fs)|
    decreases fs, 0
  {
    if fs != [] {
      CountIsObjects(fs[0].value);
      CountFieldsIsObjects(fs[1..]);
    }
  }

  /** Positions are numbers: no `start` or `end` field at any depth holds a node. */
  predicate ScalarPositions(v: Json) {
    match v
    case Arr(items) => forall i :: 0 <= i < |items| ==> ScalarPositions(items[i])
    case Obj(fs) => forall i :: 0 <= i < |fs| ==>
      if IsMetadataKey(fs[i].key) then !IsNode(fs[i].value) else ScalarPositions(fs[i].value)
    case _ => true
  }

  /** Stripping positions never adds nodes, and removes none when the positions are
      numbers, as the parser makes them. */
  lemma {:induction false} CountAfterStrip(v: Json)
    ensures CountNodes(Strip(v)) <= CountNodes(v)
    ensures ScalarPositions(v) ==> CountNodes(Strip(v)) == CountNodes(v)
    decreases v, 1
  {
    match v
    case Arr(items) => CountItemsAfterStrip(items);
    case Obj(fs) => CountFieldsAfterStrip(fs);
    case _ =>
  }

  lemma {:induction false} CountItemsAfterStrip(items: seq<Json>)
    ensures SumCounts(Strip(Arr(items)).items) <= SumCounts(items)
    ensures (forall i :: 0 <= i < |items| ==> ScalarPositions(items[i])) ==>
      SumCounts(Strip(Arr(items)).items) == SumCounts(items)
    decreases items, 0
  {
    if items != [] {
      var stripped := Strip(Arr(items)).items;
      var last := |items| - 1;
      assert stripped[..last] == Strip(Arr(items[..last])).items;
      CountItemsAfterStrip(items[..last]);
      CountAfterStrip(items[last]);
      assert stripped[last] == Strip(items[last]);
    }
  }

  lemma {:induction false} CountFieldsAfterStrip(fs: seq<Field>)
    ensures CountFields(StripFields(fs)) <= CountFields(fs)
    ensures (forall i :: 0 <= i < |fs| ==>
      if IsMetadataKey(fs[i].key) then !IsNode(fs[i].value) else ScalarPositions(fs[i].value)) ==>
      CountFields(StripFields(fs)) == CountFields(fs)
    decreases fs, 0
  {
    if fs != [] {
      CountFieldsAfterStrip(fs[1..]);
      if !IsMetadataKey(fs[0].key) {
        CountAfterStrip(fs[0].value);
      }
    }
  }
}
