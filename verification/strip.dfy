/** `stripMetadata`: a deep copy of a tree without the `start` and `end` position
    keys. Arrays are copied element by element; anything that is not an array or a
    non-null object (including `null`) is returned as it is. */
module AstStrip {
  import opened JsonValue

  predicate IsMetadataKey(k: string) {
    k == "start" || k == "end"
  }

  function Strip(v: Json): (r: Json)
    ensures !IsNode(v) ==> r == v
    ensures v.Arr? <==> r.Arr?
    ensures v.Obj? <==> r.Obj?
    ensures v.Arr? ==> |r.items| == |v.items|
    ensures v.Arr? ==> forall i :: 0 <= i < |v.items| ==> r.items[i] == Strip(v.items[i])
    decreases v, 1
  {
    match v
    case Arr(items) => Arr(seq(|items|, i requires 0 <= i < |items| => Strip(items[i])))
    case Obj(fs) => Obj(StripFields(fs))
    case _ => v
  }

  function StripFields(fs: seq<Field>): seq<Field>
    decreases fs, 0
  {
    if fs == [] then []
    else if IsMetadataKey(fs[0].key) then StripFields(fs[1..])
    else [Field(fs[0].key, Strip(fs[0].value))] + StripFields(fs[1..])
  }

  /** The keys that survive, in their original order. */
  function KeptKeys(ks: seq<string>): seq<string> {
    if ks == [] then []
    else if IsMetadataKey(ks[0]) then KeptKeys(ks[1..])
    else [ks[0]] + KeptKeys(ks[1..])
  }

  /** Whether a `start` or `end` key occurs at any depth. */
  predicate HasMetadata(v: Json) {
    match v
    case Arr(items) => exists i :: 0 <= i < |items| && HasMetadata(items[i])
    case Obj(fs) => exists i :: 0 <= i < |fs| && (IsMetadataKey(fs[i].key) || HasMetadata(fs[i].value))
    case _ => false
  }

  /** `f` is a non-metadata field of `fs`, stripped. */
  predicate StrippedFrom(fs: seq<Field>, f: Field) {
    exists j :: 0 <= j < |fs| && !IsMetadataKey(fs[j].key) && f == Field(fs[j].key, Strip(fs[j].value))
  }

  /** Every field of the copy is a non-metadata field of the original, stripped. */
  lemma {:induction false} StripFieldsFrom(fs: seq<Field>)
    ensures forall i :: 0 <= i < |StripFields(fs)| ==> StrippedFrom(fs, StripFields(fs)[i])
    decreases fs
  {
    if fs != [] {
      StripFieldsFrom(fs[1..]);
      var out := StripFields(fs);
      forall i | 0 <= i < |out|
        ensures StrippedFrom(fs, out[i])
      {
        if !IsMetadataKey(fs[0].key) && i == 0 {
          assert out[i] == Field(fs[0].key, Strip(fs[0].value));
        } else {
          var i' := if IsMetadataKey(fs[0].key) then i else i - 1;
          assert out[i] == StripFields(fs[1..])[i'];
          assert StrippedFrom(fs[1..], out[i]);
          var j :| 0 <= j < |fs[1..]| && !IsMetadataKey(fs[1..][j].key) &&
            out[i] == Field(fs[1..][j].key, Strip(fs[1..][j].value));
          assert fs[1..][j] == fs[j + 1];
        }
      }
    }
  }

  /** Reading a kept key of the copy gives the stripped original; metadata keys are gone. */
  lemma {:induction false} StripLookup(fs: seq<Field>, k: string)
    ensures Lookup(StripFields(fs), k) == if IsMetadataKey(k) then Undefined else Strip(Lookup(fs, k))
    decreases fs
  {
    if fs != [] {
      StripLookup(fs[1..], k);
    }
  }

  lemma StripGet(v: Json, k: string)
    ensures Get(Strip(v), k) == if IsMetadataKey(k) then Undefined else Strip(Get(v, k))
  {
    if v.Obj? {
      StripLookup(v.fields, k);
    }
  }

  lemma {:induction false} StripKeys(fs: seq<Field>)
    ensures Keys(StripFields(fs)) == KeptKeys(Keys(fs))
    decreases fs
  {
    if fs != [] {
      StripKeys(fs[1..]);
      assert Keys(fs)[1..] == Keys(fs[1..]);
      if !IsMetadataKey(fs[0].key) {
        assert Keys(StripFields(fs)) == [fs[0].key] + Keys(StripFields(fs[1..]));
      }
    }
  }

  /** No `start` or `end` key is left at any depth. */
  lemma {:induction false} StripRemovesMetadata(v: Json)
    ensures !HasMetadata(Strip(v))
    decreases v
  {
    match v
    case Arr(items) =>
      forall i | 0 <= i < |items|
        ensures !HasMetadata(Strip(v).items[i])
      {
        StripRemovesMetadata(items[i]);
      }
    case Obj(fs) =>
      StripFieldsFrom(fs);
      var out := StripFields(fs);
      forall i | 0 <= i < |out|
        ensures !IsMetadataKey(out[i].key) && !HasMetadata(out[i].value)
      {
        var j :| 0 <= j < |fs| && !IsMetadataKey(fs[j].key) &&
          out[i] == Field(fs[j].key, Strip(fs[j].value));
        StripRemovesMetadata(fs[j].value);
      }
    case _ =>
  }

  /** A tree without metadata is copied unchanged. */
  lemma {:induction false} StripWithoutMetadata(v: Json)
    requires !HasMetadata(v)
    ensures Strip(v) == v
    decreases v, 1
  {
    match v
    case Arr(items) =>
      forall i | 0 <= i < |items|
        ensures Strip(items[i]) == items[i]
      {
        StripWithoutMetadata(items[i]);
      }
      assert Strip(v).items == items;
    case Obj(fs) =>
      StripFieldsWithoutMetadata(fs);
    case _ =>
  }

  lemma {:induction false} StripFieldsWithoutMetadata(fs: seq<Field>)
    requires forall i :: 0 <= i < |fs| ==> !IsMetadataKey(fs[i].key) && !HasMetadata(fs[i].value)
    ensures StripFields(fs) == fs
    decreases fs, 0
  {
    if fs != [] {
      StripWithoutMetadata(fs[0].value);
      StripFieldsWithoutMetadata(fs[1..]);
      assert fs == [fs[0]] + fs[1..];
    }
  }

  /** The copy equals the original exactly when the original has no metadata. */
  lemma StripFixpointIff(v: Json)
    ensures Strip(v) == v <==> !HasMetadata(v)
  {
    StripRemovesMetadata(v);
    if !HasMetadata(v) {
      StripWithoutMetadata(v);
    }
  }

  lemma StripIdempotent(v: Json)
    ensures Strip(Strip(v)) == Strip(v)
  {
    StripRemovesMetadata(v);
    StripWithoutMetadata(Strip(v));
  }
}
