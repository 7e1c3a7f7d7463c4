/** `_replace_out_of_range` over nested values. */
module Sanitise {
  import opened Options

  const INT64_MIN := -0x8000_0000_0000_0000
  const INT64_MAX := 0x7FFF_FFFF_FFFF_FFFF

  /** A Python value handed to `emit`. `Other` stands for every leaf that is neither an integer nor a
      boolean, a string or None. */
  datatype Value =
    | Null
    | Bool(b: bool)
    | Int(i: int)
    | Str(s: string)
    | Other(tag: string)
    | List(items: seq<Value>)
    | Tuple(items: seq<Value>)
    | Dict(fields: seq<Field>)

  datatype Field = Field(key: string, value: Value)

  predicate Readable(i: int) {
    INT64_MIN <= i <= INT64_MAX
  }

  function Replace(v: Value): Value {
    match v
    case Dict(fs) => Dict(seq(|fs|, i requires 0 <= i < |fs| => Field(fs[i].key, Replace(fs[i].value))))
    case List(xs) => List(seq(|xs|, i requires 0 <= i < |xs| => Replace(xs[i])))
    case Tuple(xs) => List(seq(|xs|, i requires 0 <= i < |xs| => Replace(xs[i])))
    case Int(i) => if Readable(i) then v else Null
    case _ => v
  }

  /** The values directly inside v. */
  function Inside(v: Value): (r: seq<Value>)
    ensures forall x | x in r :: x < v
  {
    match v
    case Dict(fs) => seq(|fs|, i requires 0 <= i < |fs| => fs[i].value)
    case List(xs) => xs
    case Tuple(xs) => xs
    case _ => []
  }

  /** The value at a position: an index at each level. */
  function At(v: Value, position: seq<nat>): Option<Value>
    decreases position
  {
    if position == [] then Some(v)
    else if position[0] < |Inside(v)| then At(Inside(v)[position[0]], position[1..])
    else None
  }

  /** What a value is, apart from what it holds; JSON knows one kind of array. */
  datatype Node = Leaf(v: Value) | Array(length: nat) | Object(keys: seq<string>)

  function NodeOf(v: Value): Node {
    match v
    case Dict(fs) => Object(seq(|fs|, i requires 0 <= i < |fs| => fs[i].key))
    case List(xs) => Array(|xs|)
    case Tuple(xs) => Array(|xs|)
    case _ => Leaf(v)
  }

  predicate Unreadable(v: Value) {
    v.Int? && !Readable(v.i)
  }

  /** Every integer anywhere in v fits a signed 64-bit Java Long. */
  ghost predicate AllReadable(v: Value) {
    forall p: seq<nat> :: At(v, p).Some? ==> !Unreadable(At(v, p).value)
  }

  ghost predicate NoTuples(v: Value) {
    forall p: seq<nat> :: At(v, p).Some? ==> !At(v, p).value.Tuple?
  }

  /** Position by position: the same positions exist, an unreadable integer becomes null, and every other
      node keeps its kind, length, keys and value, tuples becoming lists. */
  lemma {:induction false} ReplacePointwise(v: Value, p: seq<nat>)
    ensures At(Replace(v), p).Some? <==> At(v, p).Some?
    ensures At(v, p).Some? ==>
      var was, now := At(v, p).value, At(Replace(v), p).value;
      NodeOf(now) == (if Unreadable(was) then Leaf(Null) else NodeOf(was)) && !now.Tuple?
    decreases p
  {
    if p != [] {
      assert |Inside(Replace(v))| == |Inside(v)|;
      if p[0] < |Inside(v)| {
        assert Inside(Replace(v))[p[0]] == Replace(Inside(v)[p[0]]);
        ReplacePointwise(Inside(v)[p[0]], p[1..]);
      }
    }
  }

  /** Two values with the same nodes at all positions, and no tuples, are the same value. */
  lemma {:induction false} SamePointwise(v: Value, w: Value)
    requires forall p: seq<nat> :: At(v, p).Some? <==> At(w, p).Some?
    requires forall p: seq<nat> :: At(v, p).Some? ==> NodeOf(At(v, p).value) == NodeOf(At(w, p).value)
    requires NoTuples(v) && NoTuples(w)
    ensures v == w
    decreases v
  {
    var here: seq<nat> := [];
    assert At(v, here) == Some(v) && At(w, here) == Some(w);
    assert NodeOf(v) == NodeOf(w) && !v.Tuple? && !w.Tuple?;
    if v.Dict? {
      KeysDetermine(v.fields, w.fields);
    }
    assert |Inside(v)| == |Inside(w)|;
    forall i | 0 <= i < |Inside(v)|
      ensures Inside(v)[i] == Inside(w)[i]
    {
      forall p: seq<nat>
        ensures At(Inside(v)[i], p) == At(v, [i] + p) && At(Inside(w)[i], p) == At(w, [i] + p)
      {
        assert ([i] + p)[1..] == p;
      }
      SamePointwise(Inside(v)[i], Inside(w)[i]);
    }
    if v.Dict? {
      forall i | 0 <= i < |v.fields|
        ensures v.fields[i] == w.fields[i]
      {
        assert Inside(v)[i] == v.fields[i].value && Inside(w)[i] == w.fields[i].value;
      }
    }
  }

  lemma KeysDetermine(a: seq<Field>, b: seq<Field>)
    requires NodeOf(Dict(a)) == NodeOf(Dict(b))
    ensures |a| == |b| && forall i | 0 <= i < |a| :: a[i].key == b[i].key
  {
    var ka, kb := NodeOf(Dict(a)).keys, NodeOf(Dict(b)).keys;
    assert |ka| == |a| && |kb| == |b|;
    assert forall i | 0 <= i < |a| :: ka[i] == a[i].key && kb[i] == b[i].key;
  }

  /** What is sent holds no integer Storm cannot read. */
  lemma {:induction false} ReplacedIsReadable(v: Value)
    ensures AllReadable(Replace(v)) && NoTuples(Replace(v))
  {
    forall p: seq<nat> | At(Replace(v), p).Some?
      ensures !Unreadable(At(Replace(v), p).value) && !At(Replace(v), p).value.Tuple?
    {
      ReplacePointwise(v, p);
    }
  }

  /** The same positions and the same nodes; a tuple and a list with the same items count as the same. */
  ghost predicate SameNodes(v: Value, w: Value) {
    && (forall p: seq<nat> :: At(v, p).Some? <==> At(w, p).Some?)
    && (forall p: seq<nat> :: At(v, p).Some? && At(w, p).Some? ==> NodeOf(At(v, p).value) == NodeOf(At(w, p).value))
  }

  /** A value is left alone, up to tuples becoming lists, if and only if all its integers are readable. */
  lemma ReplaceKeepsIff(v: Value)
    ensures SameNodes(Replace(v), v) <==> AllReadable(v)
  {
    forall p: seq<nat>
      ensures At(Replace(v), p).Some? <==> At(v, p).Some?
      ensures At(v, p).Some? ==>
        (NodeOf(At(Replace(v), p).value) == NodeOf(At(v, p).value) <==> !Unreadable(At(v, p).value))
    {
      ReplacePointwise(v, p);
    }
  }

  lemma {:induction false} ReplaceIsIdempotent(v: Value)
    ensures Replace(Replace(v)) == Replace(v)
  {
    var w := Replace(v);
    ReplacedIsReadable(v);
    ReplacedIsReadable(w);
    ReplaceKeepsIff(w);
    SamePointwise(Replace(w), w);
  }

  // ---- the range ----

  function Pow2(n: nat): nat {
    if n == 0 then 1 else 2 * Pow2(n - 1)
  }

  /** What Storm can read is what fits 64 bits in two's complement. */
  lemma ReadableIff(i: int)
    ensures Readable(i) <==> 0 <= i + Pow2(63) < Pow2(64)
  {
    hide Pow2;
    Pow2By8(0);
    Pow2By8(8);
    Pow2By8(16);
    Pow2By8(24);
    Pow2By8(32);
    Pow2By8(40);
    Pow2By8(48);
    Pow2By8(56);
    Pow2Steps();
  }

  lemma Pow2By8(n: nat)
    ensures Pow2(n + 8) == 256 * Pow2(n)
  {
    assert Pow2(n + 4) == 16 * Pow2(n) by {
      assert Pow2(n + 2) == 4 * Pow2(n);
    }
    assert Pow2(n + 6) == 64 * Pow2(n);
  }

  lemma Pow2Steps()
    ensures Pow2(0) == 1 && Pow2(64) == 2 * Pow2(63)
  {
  }
}
