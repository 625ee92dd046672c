/**
 * Plain JavaScript objects as the dashboard passes them around: an ordered list of
 * own enumerable properties (the order `Object.keys` and `Object.entries` report).
 * Property values are kept only as far as the code inspects them: a string, a
 * non-string value together with the text `String(value)` gives for it, `null`, or
 * `undefined`.
 */
module Records {

  datatype Value = Str(s: string) | Scalar(rendered: string) | Null | Undefined

  datatype Field = Field(key: string, value: Value)

  type Record = seq<Field>

  /** `Object.keys(r)`. */
  function Keys(r: Record): (ks: seq<string>)
    ensures |ks| == |r|
    ensures forall k :: 0 <= k < |r| ==> ks[k] == r[k].key
  {
    if r == [] then [] else [r[0].key] + Keys(r[1..])
  }

  /** A JavaScript object cannot hold the same property twice. */
  predicate DistinctKeys(r: Record)
  {
    forall i, j :: 0 <= i < j < |r| ==> r[i].key != r[j].key
  }

  /** `r[key]`: the value of the property named `key`, or `undefined` when there is none. */
  function Get(r: Record, key: string): (v: Value)
    ensures (forall k :: 0 <= k < |r| ==> r[k].key != key) ==> v == Undefined
    ensures forall k :: 0 <= k < |r| && r[k].key == key && (forall j :: 0 <= j < k ==> r[j].key != key) ==> v == r[k].value
  {
    if r == [] then Undefined
    else if r[0].key == key then r[0].value
    else Get(r[1..], key)
  }

  /** `{...r, [key]: v}`: an existing property keeps its position and takes the new value; a new one goes last. */
  function Put(r: Record, key: string, v: Value): (t: Record)
  {
    if r == [] then [Field(key, v)]
    else if r[0].key == key then [Field(key, v)] + r[1..]
    else [r[0]] + Put(r[1..], key, v)
  }

  /** After `{...r, [key]: v}`, reading `key` yields `v`. */
  lemma {:induction false} PutGetSame(r: Record, key: string, v: Value)
    ensures Get(Put(r, key, v), key) == v
  {
    if r != [] && r[0].key != key {
      PutGetSame(r[1..], key, v);
    }
  }

  /** After `{...r, [key]: v}`, every other property reads as it did before. */
  lemma {:induction false} PutGetOther(r: Record, key: string, v: Value, other: string)
    requires other != key
    ensures Get(Put(r, key, v), other) == Get(r, other)
  {
    if r != [] && r[0].key != key && r[0].key != other {
      PutGetOther(r[1..], key, v, other);
    }
  }

  /** The key order is kept when `key` was already present, and extended by `key` otherwise. */
  lemma {:induction false} PutKeys(r: Record, key: string, v: Value)
    ensures key in Keys(r) ==> Keys(Put(r, key, v)) == Keys(r)
    ensures key !in Keys(r) ==> Keys(Put(r, key, v)) == Keys(r) + [key]
  {
    if r != [] {
      assert Keys(r) == [r[0].key] + Keys(r[1..]);
      if r[0].key != key {
        PutKeys(r[1..], key, v);
        assert Keys(Put(r, key, v)) == [r[0].key] + Keys(Put(r[1..], key, v));
      } else {
        assert Keys(Put(r, key, v)) == [key] + Keys(r[1..]);
      }
    }
  }

  /** The spread result is again a well-formed object. */
  lemma PutDistinct(r: Record, key: string, v: Value)
    requires DistinctKeys(r)
    ensures DistinctKeys(Put(r, key, v))
  {
    var t := Put(r, key, v);
    PutKeys(r, key, v);
    assert Keys(t) == Keys(r) || Keys(t) == Keys(r) + [key];
    forall i, j | 0 <= i < j < |t| ensures t[i].key != t[j].key {
      assert Keys(t)[i] == t[i].key && Keys(t)[j] == t[j].key;
      if j == |r| {
        assert key !in Keys(r);
        assert Keys(t)[i] == Keys(r)[i];
      } else {
        assert Keys(t)[i] == Keys(r)[i] && Keys(t)[j] == Keys(r)[j];
      }
    }
  }
}
