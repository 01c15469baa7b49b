/** JSON-like values: the trees the front end receives from the parser and passes
    around. Objects keep their keys in insertion order, as JavaScript objects do for
    keys that are not array indices (no key of a syntax tree is one); `Undefined` is
    both the value of a missing property and a value a property may hold. Numbers are
    modelled as integers. */
module JsonValue {
  datatype Json =
    | Undefined
    | Null
    | Bool(b: bool)
    | Num(n: int)
    | Str(s: string)
    | Arr(items: seq<Json>)
    | Obj(fields: seq<Field>)

  datatype Field = Field(key: string, value: Json)

  /** `node && typeof node === 'object'`: a non-null array or object. */
  predicate IsNode(v: Json) {
    v.Arr? || v.Obj?
  }

  /** `typeof v === 'object'`, which also holds for `null`. */
  predicate IsObjectType(v: Json) {
    v.Null? || v.Arr? || v.Obj?
  }

  function Keys(fs: seq<Field>): seq<string> {
    seq(|fs|, i requires 0 <= i < |fs| => fs[i].key)
  }

  /** Whether `y` is the value of one of the fields. */
  predicate IsFieldValue(fs: seq<Field>, y: Json) {
    exists j :: 0 <= j < |fs| && fs[j].value == y
  }

  /** Property read `o[k]` on an object's fields: `undefined` when the key is absent. */
  function Lookup(fs: seq<Field>, k: string): Json {
    if fs == [] then Undefined
    else if fs[0].key == k then fs[0].value
    else Lookup(fs[1..], k)
  }

  /** Property read `v?.k`: only objects have named properties. */
  function Get(v: Json, k: string): Json {
    if v.Obj? then Lookup(v.fields, k) else Undefined
  }

  /** Property assignment `o[k] = x`: an existing key keeps its position, a new key
      goes last. */
  function Put(fs: seq<Field>, k: string, x: Json): seq<Field> {
    if fs == [] then [Field(k, x)]
    else if fs[0].key == k then [Field(k, x)] + fs[1..]
    else [fs[0]] + Put(fs[1..], k, x)
  }

  /** `delete o[k]`. */
  function Remove(fs: seq<Field>, k: string): seq<Field> {
    if fs == [] then []
    else if fs[0].key == k then Remove(fs[1..], k)
    else [fs[0]] + Remove(fs[1..], k)
  }

  /** Assignment to a property of `v`, which only has an effect on an object. */
  function SetIn(v: Json, k: string, x: Json): Json {
    if v.Obj? then Obj(Put(v.fields, k, x)) else v
  }

  function DeleteIn(v: Json, k: string): Json {
    if v.Obj? then Obj(Remove(v.fields, k)) else v
  }

  /** The element `a[0]` of an array; `undefined` for an empty array. */
  function FirstItem(a: Json): Json {
    if a.Arr? && |a.items| > 0 then a.items[0] else Undefined
  }

  lemma {:induction false} LookupPut(fs: seq<Field>, k: string, x: Json, j: string)
    ensures Lookup(Put(fs, k, x), j) == if j == k then x else Lookup(fs, j)
    decreases fs
  {
    if fs != [] && fs[0].key != k {
      LookupPut(fs[1..], k, x, j);
      assert Put(fs, k, x)[1..] == Put(fs[1..], k, x);
    } else if fs != [] {
      assert Put(fs, k, x)[1..] == fs[1..];
    }
  }

  lemma KeysCons(f: Field, rest: seq<Field>)
    ensures Keys([f] + rest) == [f.key] + Keys(rest)
  {
  }

  lemma {:induction false} KeysPut(fs: seq<Field>, k: string, x: Json)
    ensures Keys(Put(fs, k, x)) == if k in Keys(fs) then Keys(fs) else Keys(fs) + [k]
    decreases fs
  {
    if fs == [] {
      assert Keys([Field(k, x)]) == [k];
    } else {
      assert [fs[0]] + fs[1..] == fs;
      KeysCons(fs[0], fs[1..]);
      if fs[0].key == k {
        KeysCons(Field(k, x), fs[1..]);
      } else {
        KeysPut(fs[1..], k, x);
        KeysCons(fs[0], Put(fs[1..], k, x));
      }
    }
  }

  lemma {:induction false} LookupRemove(fs: seq<Field>, k: string, j: string)
    ensures Lookup(Remove(fs, k), j) == if j == k then Undefined else Lookup(fs, j)
    decreases fs
  {
    if fs != [] {
      LookupRemove(fs[1..], k, j);
      if fs[0].key != k {
        assert Remove(fs, k)[1..] == Remove(fs[1..], k);
      }
    }
  }

  lemma {:induction false} KeysRemove(fs: seq<Field>, k: string)
    ensures k !in Keys(Remove(fs, k))
    ensures forall j :: j != k ==> (j in Keys(Remove(fs, k)) <==> j in Keys(fs))
    decreases fs
  {
    if fs != [] {
      KeysRemove(fs[1..], k);
      assert Keys(fs) == [fs[0].key] + Keys(fs[1..]);
      if fs[0].key != k {
        assert Keys(Remove(fs, k)) == [fs[0].key] + Keys(Remove(fs[1..], k));
      }
    }
  }

  lemma GetSetIn(v: Json, k: string, x: Json, j: string)
    requires v.Obj?
    ensures Get(SetIn(v, k, x), j) == if j == k then x else Get(v, j)
  {
    LookupPut(v.fields, k, x, j);
  }

  lemma GetDeleteIn(v: Json, k: string, j: string)
    requires v.Obj?
    ensures Get(DeleteIn(v, k), j) == if j == k then Undefined else Get(v, j)
  {
    LookupRemove(v.fields, k, j);
  }

  /** A read that finds something reads one of the object's own fields. */
  lemma {:induction false} LookupIsField(fs: seq<Field>, k: string)
    ensures Lookup(fs, k) == Undefined || IsFieldValue(fs, Lookup(fs, k))
    decreases fs
  {
    if fs != [] && fs[0].key != k {
      LookupIsField(fs[1..], k);
      if Lookup(fs, k) != Undefined {
        var j :| 0 <= j < |fs[1..]| && fs[1..][j].value == Lookup(fs, k);
        assert fs[j + 1].value == Lookup(fs, k);
      }
    } else if fs != [] {
      assert fs[0].value == Lookup(fs, k);
    }
  }

  /** Assignment adds no value other than the assigned one. */
  lemma {:induction false} PutValues(fs: seq<Field>, k: string, x: Json)
    ensures forall i :: 0 <= i < |Put(fs, k, x)| ==>
      Put(fs, k, x)[i].value == x || IsFieldValue(fs, Put(fs, k, x)[i].value)
    decreases fs
  {
    if fs != [] && fs[0].key != k {
      PutValues(fs[1..], k, x);
      forall i | 0 <= i < |Put(fs, k, x)|
        ensures Put(fs, k, x)[i].value == x || IsFieldValue(fs, Put(fs, k, x)[i].value)
      {
        if i == 0 {
          assert fs[0].value == Put(fs, k, x)[i].value;
        } else {
          var y := Put(fs, k, x)[i].value;
          assert y == Put(fs[1..], k, x)[i - 1].value;
          if y != x {
            var j :| 0 <= j < |fs[1..]| && fs[1..][j].value == y;
            assert fs[j + 1].value == y;
          }
        }
      }
    } else if fs != [] {
      forall i | 0 <= i < |Put(fs, k, x)|
        ensures Put(fs, k, x)[i].value == x || IsFieldValue(fs, Put(fs, k, x)[i].value)
      {
        if i > 0 {
          assert fs[i].value == Put(fs, k, x)[i].value;
        }
      }
    }
  }

  /** Deletion adds no value. */
  lemma {:induction false} RemoveValues(fs: seq<Field>, k: string)
    ensures forall i :: 0 <= i < |Remove(fs, k)| ==> IsFieldValue(fs, Remove(fs, k)[i].value)
    decreases fs
  {
    if fs != [] {
      RemoveValues(fs[1..], k);
      forall i | 0 <= i < |Remove(fs, k)|
        ensures IsFieldValue(fs, Remove(fs, k)[i].value)
      {
        var y := Remove(fs, k)[i].value;
        if fs[0].key != k && i == 0 {
          assert fs[0].value == y;
        } else {
          var i' := if fs[0].key == k then i else i - 1;
          assert y == Remove(fs[1..], k)[i'].value;
          var j :| 0 <= j < |fs[1..]| && fs[1..][j].value == y;
          assert fs[j + 1].value == y;
        }
      }
    }
  }

  // ----- Sizes, the measure under which the in-place rewrites terminate -----

  /** The number of values in a tree, counting each string as one. */
  function Size(v: Json): (n: nat)
    ensures n >= 1
    decreases v, 1
  {
    match v
    case Arr(items) => 1 + ItemsSize(items)
    case Obj(fs) => 1 + FieldsSize(fs)
    case _ => 1
  }

  function ItemsSize(items: seq<Json>): nat
    decreases items, 0
  {
    if items == [] then 0 else Size(items[0]) + ItemsSize(items[1..])
  }

  function FieldsSize(fs: seq<Field>): nat
    decreases fs, 0
  {
    if fs == [] then 0 else Size(fs[0].value) + FieldsSize(fs[1..])
  }

  lemma {:induction false} ItemSizeBound(items: seq<Json>, i: nat)
    requires i < |items|
    ensures Size(items[i]) <= ItemsSize(items)
    decreases i
  {
    if i > 0 {
      ItemSizeBound(items[1..], i - 1);
    }
  }

  lemma {:induction false} FieldSizeBound(fs: seq<Field>, i: nat)
    requires i < |fs|
    ensures Size(fs[i].value) <= FieldsSize(fs)
    decreases i
  {
    if i > 0 {
      FieldSizeBound(fs[1..], i - 1);
    }
  }

  lemma {:induction false} LookupSize(fs: seq<Field>, k: string)
    requires Lookup(fs, k) != Undefined
    ensures Size(Lookup(fs, k)) <= FieldsSize(fs)
    decreases fs
  {
    if fs[0].key != k {
      LookupSize(fs[1..], k);
    }
  }

  /** A property that is present is strictly smaller than its object. */
  lemma GetSize(v: Json, k: string)
    requires Get(v, k) != Undefined
    ensures Size(Get(v, k)) < Size(v)
  {
    LookupSize(v.fields, k);
  }

  lemma FirstItemSize(a: Json)
    requires FirstItem(a) != Undefined
    ensures Size(FirstItem(a)) < Size(a)
  {
    ItemSizeBound(a.items, 0);
  }

  /** Overwriting a present property changes the size by the difference of the
      two values' sizes. */
  lemma {:induction false} PutSize(fs: seq<Field>, k: string, x: Json)
    requires Lookup(fs, k) != Undefined
    ensures FieldsSize(Put(fs, k, x)) + Size(Lookup(fs, k)) == FieldsSize(fs) + Size(x)
    decreases fs
  {
    if fs[0].key != k {
      PutSize(fs[1..], k, x);
      assert Put(fs, k, x)[1..] == Put(fs[1..], k, x);
    } else {
      assert Put(fs, k, x)[1..] == fs[1..];
    }
  }

  lemma {:induction false} PutSizeBound(fs: seq<Field>, k: string, x: Json)
    ensures FieldsSize(Put(fs, k, x)) <= FieldsSize(fs) + Size(x)
    decreases fs
  {
    if fs == [] {
      assert FieldsSize([Field(k, x)]) == Size(x) + FieldsSize([]);
    } else if fs[0].key != k {
      PutSizeBound(fs[1..], k, x);
      assert Put(fs, k, x)[1..] == Put(fs[1..], k, x);
    } else {
      assert Put(fs, k, x)[1..] == fs[1..];
    }
  }

  lemma {:induction false} RemoveSizeBound(fs: seq<Field>, k: string)
    ensures FieldsSize(Remove(fs, k)) <= FieldsSize(fs)
    ensures Lookup(fs, k) != Undefined ==>
      FieldsSize(Remove(fs, k)) + Size(Lookup(fs, k)) <= FieldsSize(fs)
    decreases fs
  {
    if fs != [] {
      RemoveSizeBound(fs[1..], k);
      if fs[0].key != k {
        assert Remove(fs, k)[1..] == Remove(fs[1..], k);
      }
    }
  }

  lemma SetInSize(v: Json, k: string, x: Json)
    requires Get(v, k) != Undefined
    ensures Size(SetIn(v, k, x)) + Size(Get(v, k)) == Size(v) + Size(x)
  {
    PutSize(v.fields, k, x);
  }

  lemma SetInSizeBound(v: Json, k: string, x: Json)
    ensures Size(SetIn(v, k, x)) <= Size(v) + Size(x)
  {
    if v.Obj? {
      PutSizeBound(v.fields, k, x);
    }
  }

  lemma DeleteInSize(v: Json, k: string)
    requires Get(v, k) != Undefined
    ensures Size(DeleteIn(v, k)) + Size(Get(v, k)) <= Size(v)
  {
    RemoveSizeBound(v.fields, k);
  }
}
