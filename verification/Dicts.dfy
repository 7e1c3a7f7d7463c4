/** Insertion-ordered dictionaries, and the rewriting of their keys one by one. */
module Dicts {

  type Dict<K, V> = seq<(K, V)>

  ghost predicate DistinctKeys<K, V>(d: Dict<K, V>) {
    forall i, j | 0 <= i < j < |d| :: d[i].0 != d[j].0
  }

  predicate Has<K(==), V>(d: Dict<K, V>, k: K) {
    exists i | 0 <= i < |d| :: d[i].0 == k
  }

  /** `d[k] = v`: a key that is there keeps its place. */
  function Put<K(==), V>(d: Dict<K, V>, k: K, v: V): Dict<K, V> {
    if d == [] then [(k, v)]
    else if d[0].0 == k then [(k, v)] + d[1..]
    else [d[0]] + Put(d[1..], k, v)
  }

  /** `del d[k]`. */
  function Remove<K(==), V>(d: Dict<K, V>, k: K): Dict<K, V> {
    if d == [] then []
    else if d[0].0 == k then d[1..]
    else [d[0]] + Remove(d[1..], k)
  }

  lemma {:induction false} PutAppends<K, V>(d: Dict<K, V>, k: K, v: V)
    requires !Has(d, k)
    ensures Put(d, k, v) == d + [(k, v)]
  {
    if d != [] {
      assert d[0].0 != k;
      assert !Has(d[1..], k) by {
        assert forall i | 0 <= i < |d[1..]| :: d[1..][i] == d[i + 1];
      }
      PutAppends(d[1..], k, v);
    }
  }

  lemma HasCons<K, V>(d: Dict<K, V>, k: K)
    requires d != []
    ensures Has(d, k) <==> d[0].0 == k || Has(d[1..], k)
  {
    assert forall i | 0 <= i < |d[1..]| :: d[1..][i] == d[i + 1];
    if Has(d, k) && d[0].0 != k {
      var i :| 0 <= i < |d| && d[i].0 == k;
      assert d[1..][i - 1].0 == k;
    }
  }

  lemma RemoveCons<K, V>(e: (K, V), d: Dict<K, V>, k: K)
    ensures Remove([e] + d, k) == if e.0 == k then d else [e] + Remove(d, k)
    ensures Remove<K, V>([], k) == []
  {
    assert ([e] + d)[1..] == d;
  }

  lemma PutCons<K, V>(e: (K, V), d: Dict<K, V>, k: K, v: V)
    ensures Put([e] + d, k, v) == if e.0 == k then [(k, v)] + d else [e] + Put(d, k, v)
    ensures Put([], k, v) == [(k, v)]
  {
    assert ([e] + d)[1..] == d;
  }

  lemma Regroup<T>(a: seq<T>, b: seq<T>, c: seq<T>)
    ensures a + (b + c) == a + b + c
  {
  }

  lemma {:induction false} RemoveFromSum<K, V>(a: Dict<K, V>, b: Dict<K, V>, k: K)
    ensures Remove(a + b, k) == if Has(a, k) then Remove(a, k) + b else a + Remove(b, k)
  {
    hide Remove, Has;
    if a == [] {
      assert a + b == b;
      HasNone<K, V>(k);
    } else {
      var e, tail := a[0], a[1..];
      assert a == [e] + tail;
      Regroup([e], tail, b);
      RemoveCons(e, tail, k);
      RemoveCons(e, tail + b, k);
      HasCons(a, k);
      if e.0 != k {
        RemoveFromSum(tail, b, k);
        Regroup([e], Remove(tail, k), b);
        Regroup([e], tail, Remove(b, k));
      }
    }
  }

  lemma HasNone<K, V>(k: K)
    ensures !Has<K, V>([], k)
  {
  }

  /** An entry (from, value), whose key becomes `to`. */
  datatype Move<K, V> = Move(from: K, to: K, value: V)

  predicate Moves<K(==), V>(m: Move<K, V>) {
    m.from != m.to
  }

  /** Delete the old key, insert the new one. */
  function Step<K(==), V>(d: Dict<K, V>, m: Move<K, V>): Dict<K, V> {
    if Moves(m) then Put(Remove(d, m.from), m.to, m.value) else d
  }

  function Rekey<K(==), V(==)>(d: Dict<K, V>, moves: seq<Move<K, V>>): Dict<K, V>
    decreases |moves|
  {
    if moves == [] then d else Rekey(Step(d, moves[0]), moves[1..])
  }

  /** The entries before any move. */
  function Before<K, V>(moves: seq<Move<K, V>>): Dict<K, V> {
    seq(|moves|, i requires 0 <= i < |moves| => (moves[i].from, moves[i].value))
  }

  /** What is left of the old entries once the first i were dealt with. */
  function Rest<K(==), V(==)>(moves: seq<Move<K, V>>, i: nat): Dict<K, V> {
    if moves == [] then []
    else (if i > 0 && Moves(moves[0]) then [] else [(moves[0].from, moves[0].value)])
         + Rest(moves[1..], if i > 0 then i - 1 else 0)
  }

  /** The entries under the new keys, in order. */
  function Moved<K(==), V(==)>(moves: seq<Move<K, V>>): Dict<K, V> {
    if moves == [] then []
    else Moved(moves[..|moves| - 1])
         + var m := moves[|moves| - 1]; if Moves(m) then [(m.to, m.value)] else []
  }

  /** The entries are those of a dictionary, and no key is both moved and moved to. */
  ghost predicate Stable<K, V>(moves: seq<Move<K, V>>) {
    && (forall i, j | 0 <= i < j < |moves| :: moves[i].from != moves[j].from)
    && (forall i, j | 0 <= i < |moves| && 0 <= j < |moves| && moves[i].to == moves[j].from :: !Moves(moves[j]))
  }

  ghost predicate DistinctTargets<K, V>(moves: seq<Move<K, V>>) {
    forall i, j | 0 <= i < j < |moves| :: moves[i].to != moves[j].to
  }

  lemma {:induction false} RestStart<K, V>(moves: seq<Move<K, V>>)
    ensures Rest(moves, 0) == Before(moves)
  {
    if moves != [] {
      RestStart(moves[1..]);
      assert Before(moves) == [(moves[0].from, moves[0].value)] + Before(moves[1..]);
    }
  }

  lemma {:induction false} RestHas<K, V>(moves: seq<Move<K, V>>, i: nat, k: K)
    ensures Has(Rest(moves, i), k) <==>
      exists j | 0 <= j < |moves| :: moves[j].from == k && (j >= i || !Moves(moves[j]))
  {
    if moves != [] {
      var head := if i > 0 && Moves(moves[0]) then [] else [(moves[0].from, moves[0].value)];
      var i1 := if i > 0 then i - 1 else 0;
      var tail := Rest(moves[1..], i1);
      RestHas(moves[1..], i1, k);
      SumHas(head, tail, k);
      assert Has(head, k) <==> moves[0].from == k && (0 >= i || !Moves(moves[0])) by {
        if head != [] {
          assert head[0].0 == moves[0].from;
        }
      }
      if Has(tail, k) {
        var j :| 0 <= j < |moves[1..]| && moves[1..][j].from == k && (j >= i1 || !Moves(moves[1..][j]));
        assert moves[j + 1] == moves[1..][j];
      }
      forall j | 0 < j < |moves| && moves[j].from == k && (j >= i || !Moves(moves[j]))
        ensures Has(tail, k)
      {
        assert moves[1..][j - 1] == moves[j];
      }
    }
  }

  lemma SumHas<K, V>(a: Dict<K, V>, b: Dict<K, V>, k: K)
    ensures Has(a + b, k) <==> Has(a, k) || Has(b, k)
  {
    if Has(a, k) {
      var i :| 0 <= i < |a| && a[i].0 == k;
      assert (a + b)[i].0 == k;
    }
    if Has(b, k) {
      var i :| 0 <= i < |b| && b[i].0 == k;
      assert (a + b)[|a| + i].0 == k;
    }
  }

  lemma {:induction false} MovedHas<K, V>(moves: seq<Move<K, V>>, k: K)
    ensures Has(Moved(moves), k) <==> exists j | 0 <= j < |moves| :: Moves(moves[j]) && moves[j].to == k
  {
    if moves != [] {
      var n := |moves| - 1;
      MovedHas(moves[..n], k);
      var tail := if Moves(moves[n]) then [(moves[n].to, moves[n].value)] else [];
      SumHas(Moved(moves[..n]), tail, k);
      assert Has(tail, k) <==> Moves(moves[n]) && moves[n].to == k by {
        if tail != [] {
          assert tail[0].0 == moves[n].to;
        }
      }
      assert forall j | 0 <= j < n :: moves[..n][j] == moves[j];
    }
  }

  lemma RestCons<K, V>(moves: seq<Move<K, V>>, i: nat)
    requires moves != []
    ensures Rest(moves, i) == (if i > 0 && Moves(moves[0]) then [] else [(moves[0].from, moves[0].value)])
                              + Rest(moves[1..], if i > 0 then i - 1 else 0)
  {
  }

  lemma {:induction false} RestNext<K, V>(moves: seq<Move<K, V>>, i: nat)
    requires i < |moves| && forall a, b | 0 <= a < b < |moves| :: moves[a].from != moves[b].from
    ensures Rest(moves, i + 1) == if Moves(moves[i]) then Remove(Rest(moves, i), moves[i].from) else Rest(moves, i)
  {
    hide Rest, Remove;
    var rest, e := moves[1..], (moves[0].from, moves[0].value);
    RestCons(moves, i);
    RestCons(moves, i + 1);
    if i == 0 {
      RemoveCons(e, Rest(rest, 0), e.0);
      assert [] + Rest(rest, 0) == Rest(rest, 0);
    } else {
      RestNext(rest, i - 1);
      assert moves[0].from != moves[i].from && rest[i - 1] == moves[i];
      RemoveCons(e, Rest(rest, i - 1), moves[i].from);
      assert [] + Rest(rest, i - 1) == Rest(rest, i - 1) && [] + Rest(rest, i) == Rest(rest, i);
    }
  }

  /** When no two entries get the same key, the entries that keep their key come first, then the others
      under their new keys, each in order and with its own value. */
  lemma {:induction false} RekeyFrom<K, V>(moves: seq<Move<K, V>>, i: nat)
    requires i <= |moves| && Stable(moves) && DistinctTargets(moves)
    ensures Rekey(Rest(moves, i) + Moved(moves[..i]), moves[i..]) == Rest(moves, |moves|) + Moved(moves)
    decreases |moves| - i
  {
    if i == |moves| {
      assert moves[..i] == moves && moves[i..] == [];
    } else {
      var m, rest, moved := moves[i], Rest(moves, i), Moved(moves[..i]);
      RestNext(moves, i);
      assert moves[..i + 1][..i] == moves[..i];
      assert moves[i..][1..] == moves[i + 1..];
      if Moves(m) {
        StepMoves(moves, i);
      } else {
        assert Moved(moves[..i + 1]) == moved;
      }
      RekeyFrom(moves, i + 1);
    }
  }

  lemma TargetAbsent<K, V>(moves: seq<Move<K, V>>, i: nat)
    requires i < |moves| && Stable(moves) && DistinctTargets(moves) && Moves(moves[i])
    ensures Has(Rest(moves, i), moves[i].from)
    ensures !Has(Rest(moves, i + 1) + Moved(moves[..i]), moves[i].to)
  {
    hide Rest, Moved, Has;
    var m := moves[i];
    RestHas(moves, i, m.from);
    RestHas(moves, i + 1, m.to);
    MovedHas(moves[..i], m.to);
    SumHas(Rest(moves, i + 1), Moved(moves[..i]), m.to);
  }

  lemma StepMoves<K, V>(moves: seq<Move<K, V>>, i: nat)
    requires i < |moves| && Stable(moves) && DistinctTargets(moves) && Moves(moves[i])
    ensures Step(Rest(moves, i) + Moved(moves[..i]), moves[i]) == Rest(moves, i + 1) + Moved(moves[..i + 1])
  {
    hide Rest, Has, Put, Remove, Stable, DistinctTargets;
    var m, rest, next, moved := moves[i], Rest(moves, i), Rest(moves, i + 1), Moved(moves[..i]);
    assert next == Remove(rest, m.from) by {
      StableFrom(moves);
      RestNext(moves, i);
    }
    TargetAbsent(moves, i);
    RemoveFromSum(rest, moved, m.from);
    PutAppends(next + moved, m.to, m.value);
    assert moves[..i + 1][..i] == moves[..i];
    assert next + moved + [(m.to, m.value)] == next + (moved + [(m.to, m.value)]);
  }

  lemma StableFrom<K, V>(moves: seq<Move<K, V>>)
    requires Stable(moves)
    ensures forall a, b | 0 <= a < b < |moves| :: moves[a].from != moves[b].from
  {
  }

  lemma {:induction false} RekeyKeepsAll<K, V>(moves: seq<Move<K, V>>)
    requires Stable(moves) && DistinctTargets(moves)
    ensures Rekey(Before(moves), moves) == Rest(moves, |moves|) + Moved(moves)
  {
    RestStart(moves);
    assert Moved(moves[..0]) == [] && moves[0..] == moves;
    assert Rest(moves, 0) + [] == Before(moves);
    RekeyFrom(moves, 0);
  }

  // ---- in general ----

  lemma {:induction false} RemoveHas<K, V>(d: Dict<K, V>, k: K, x: K)
    requires DistinctKeys(d)
    ensures Has(Remove(d, k), x) <==> Has(d, x) && x != k
    ensures DistinctKeys(Remove(d, k))
    ensures forall e | e in Remove(d, k) :: e in d
  {
    if d != [] {
      var e, tail := d[0], d[1..];
      HasCons(d, x);
      assert DistinctKeys(tail);
      if e.0 == k {
        HasDistinct(d);
      } else {
        RemoveHas(tail, k, x);
        HasCons([e] + Remove(tail, k), x);
        HasDistinct(d);
        RemoveHas(tail, k, e.0);
      }
    }
  }

  lemma HasDistinct<K, V>(d: Dict<K, V>)
    requires d != [] && DistinctKeys(d)
    ensures !Has(d[1..], d[0].0)
  {
  }

  lemma {:induction false} PutHas<K, V>(d: Dict<K, V>, k: K, v: V, x: K)
    requires DistinctKeys(d)
    ensures Has(Put(d, k, v), x) <==> Has(d, x) || x == k
    ensures DistinctKeys(Put(d, k, v))
    ensures forall e | e in Put(d, k, v) :: e in d || e == (k, v)
    ensures |Put(d, k, v)| == |d| + if Has(d, k) then 0 else 1
  {
    HasCons([(k, v)], x);
    if d != [] {
      var e, tail := d[0], d[1..];
      HasCons(d, x);
      HasCons(d, k);
      HasDistinct(d);
      assert DistinctKeys(tail);
      if e.0 == k {
        HasCons([(k, v)] + tail, x);
      } else {
        PutHas(tail, k, v, x);
        HasCons([e] + Put(tail, k, v), x);
        PutHas(tail, k, v, e.0);
      }
    }
  }

  function KeyOf<K, V>(moves: seq<Move<K, V>>, i: nat, j: nat): K
    requires j < |moves|
  {
    if j < i then moves[j].to else moves[j].from
  }

  /** Whether x is a key once the first i entries were dealt with. */
  predicate KeyAt<K(==), V>(moves: seq<Move<K, V>>, i: nat, x: K) {
    exists j | 0 <= j < |moves| :: KeyOf(moves, i, j) == x
  }

  ghost predicate EntryAt<K, V>(moves: seq<Move<K, V>>, i: nat, e: (K, V)) {
    exists j | 0 <= j < |moves| :: e == (KeyOf(moves, i, j), moves[j].value)
  }

  ghost predicate Midway<K, V>(d: Dict<K, V>, moves: seq<Move<K, V>>, i: nat) {
    && DistinctKeys(d)
    && (forall j | 0 <= j < |moves| :: Has(d, KeyOf(moves, i, j)))
    && (forall e | e in d :: EntryAt(moves, i, e))
  }

  lemma MidwayStart<K, V>(moves: seq<Move<K, V>>)
    requires Stable(moves)
    ensures Midway(Before(moves), moves, 0)
  {
    var d := Before(moves);
    forall j | 0 <= j < |moves|
      ensures Has(d, KeyOf(moves, 0, j))
    {
      assert d[j].0 == moves[j].from;
    }
    forall e | e in d
      ensures EntryAt(moves, 0, e)
    {
      var j :| 0 <= j < |d| && d[j] == e;
      assert e == (KeyOf(moves, 0, j), moves[j].value);
    }
  }

  lemma KeyNext<K, V>(moves: seq<Move<K, V>>, i: nat, j: nat)
    requires i < |moves| && j < |moves| && Stable(moves)
    ensures j != i ==>
      && KeyOf(moves, i + 1, j) == KeyOf(moves, i, j)
      && (Moves(moves[i]) ==> KeyOf(moves, i, j) != moves[i].from)
  {
  }

  lemma HasIsKeyAt<K, V>(d: Dict<K, V>, moves: seq<Move<K, V>>, i: nat, x: K)
    requires Midway(d, moves, i)
    ensures Has(d, x) <==> KeyAt(moves, i, x)
  {
    if Has(d, x) {
      var j :| 0 <= j < |d| && d[j].0 == x;
      assert EntryAt(moves, i, d[j]);
    }
  }

  lemma MidwayNext<K, V>(d: Dict<K, V>, moves: seq<Move<K, V>>, i: nat)
    requires i < |moves| && Stable(moves) && Midway(d, moves, i)
    ensures Midway(Step(d, moves[i]), moves, i + 1)
    ensures |Step(d, moves[i])| == |d| - if Moves(moves[i]) && KeyAt(moves, i, moves[i].to) then 1 else 0
  {
    var m := moves[i];
    var d1 := Step(d, m);
    assert KeyOf(moves, i, i) == m.from;
    if Moves(m) {
      var left := Remove(d, m.from);
      RemoveSize(d, m.from);
      RemoveHas(d, m.from, m.to);
      PutHas(left, m.to, m.value, m.to);
    }
    HasIsKeyAt(d, moves, i, m.to);
    var next := i + 1;
    forall j | 0 <= j < |moves|
      ensures Has(d1, KeyOf(moves, next, j))
    {
      KeyNext(moves, i, j);
      var x := KeyOf(moves, next, j);
      if Moves(m) {
        RemoveHas(d, m.from, x);
        PutHas(Remove(d, m.from), m.to, m.value, x);
      }
    }
    forall e | e in d1
      ensures EntryAt(moves, i + 1, e)
    {
      if e == (m.to, m.value) {
        assert e == (KeyOf(moves, i + 1, i), moves[i].value);
      } else {
        assert e in d;
        if Moves(m) {
          RemoveHas(d, m.from, m.from);
          assert e in Remove(d, m.from);
          InHas(Remove(d, m.from), e);
        }
      }
    }
  }

  lemma InHas<K, V>(d: Dict<K, V>, e: (K, V))
    requires e in d
    ensures Has(d, e.0)
  {
    var i :| 0 <= i < |d| && d[i] == e;
    assert d[i].0 == e.0;
  }

  lemma {:induction false} RemoveSize<K, V>(d: Dict<K, V>, k: K)
    requires Has(d, k)
    ensures |Remove(d, k)| == |d| - 1
  {
    if d[0].0 != k {
      var i :| 0 <= i < |d| && d[i].0 == k;
      assert d[1..][i - 1] == d[i];
      RemoveSize(d[1..], k);
    }
  }

  lemma MidwayHas<K, V>(d: Dict<K, V>, moves: seq<Move<K, V>>, i: nat)
    requires i < |moves| && Midway(d, moves, i)
    ensures DistinctKeys(d) && Has(d, moves[i].from)
  {
    assert KeyOf(moves, i, i) == moves[i].from;
  }

  /** The step at which two entries with the same new key become one. */
  predicate Clash<K(==), V>(moves: seq<Move<K, V>>, c: nat) {
    c < |moves| && Moves(moves[c]) && KeyAt(moves, c, moves[c].to)
  }

  lemma RekeyNext<K, V>(d: Dict<K, V>, moves: seq<Move<K, V>>, i: nat)
    requires i <= |moves|
    ensures Rekey(d, moves[i..]) == if i == |moves| then d else Rekey(Step(d, moves[i]), moves[i + 1..])
  {
    if i < |moves| {
      assert moves[i..][0] == moves[i] && moves[i..][1..] == moves[i + 1..];
    }
  }

  lemma ClashIs<K, V>(moves: seq<Move<K, V>>, i: nat)
    requires i < |moves|
    ensures Clash(moves, i) <==> Moves(moves[i]) && KeyAt(moves, i, moves[i].to)
  {
  }

  lemma NoClash<K, V>(moves: seq<Move<K, V>>)
    ensures forall c | |moves| <= c :: !Clash(moves, c)
  {
  }

  lemma {:induction false} RekeyGeneral<K, V>(d: Dict<K, V>, moves: seq<Move<K, V>>, i: nat)
    requires i <= |moves| && Stable(moves) && Midway(d, moves, i)
    ensures Midway(Rekey(d, moves[i..]), moves, |moves|)
    ensures |Rekey(d, moves[i..])| <= |d|
    ensures forall c | i <= c && Clash(moves, c) :: |Rekey(d, moves[i..])| < |d|
    decreases |moves| - i
  {
    hide Rekey, Step, Midway, Stable, KeyAt, Clash;
    RekeyNext(d, moves, i);
    if i < |moves| {
      MidwayNext(d, moves, i);
      ClashIs(moves, i);
      RekeyGeneral(Step(d, moves[i]), moves, i + 1);
    } else {
      NoClash(moves);
    }
  }

  /** Whatever the targets, the keys afterwards are exactly the targets, each once and with the value of an
      entry that was given it. No entry is lost if and only if the targets are distinct. */
  lemma RekeyLosesNothingIff<K, V>(moves: seq<Move<K, V>>)
    requires Stable(moves)
    ensures
      var d := Rekey(Before(moves), moves);
      && DistinctKeys(d)
      && (forall m | m in moves :: Has(d, m.to))
      && (forall e | e in d :: exists j | 0 <= j < |moves| :: e == (moves[j].to, moves[j].value))
      && |d| <= |moves|
      && (|d| == |moves| <==> DistinctTargets(moves))
  {
    MidwayStart(moves);
    assert moves[0..] == moves;
    RekeyGeneral(Before(moves), moves, 0);
    var d, n := Rekey(Before(moves), moves), |moves|;
    forall m | m in moves
      ensures Has(d, m.to)
    {
      var j :| 0 <= j < n && moves[j] == m;
      assert Has(d, KeyOf(moves, n, j));
    }
    forall e | e in d
      ensures exists j | 0 <= j < n :: e == (moves[j].to, moves[j].value)
    {
      assert EntryAt(moves, n, e);
    }
    if DistinctTargets(moves) {
      RekeyKeepsAll(moves);
      RestMovedSize(moves);
    } else {
      var a, b :| 0 <= a < b < n && moves[a].to == moves[b].to;
      if Moves(moves[b]) {
        assert KeyOf(moves, b, a) == moves[b].to;
        assert Clash(moves, b);
      } else {
        assert KeyOf(moves, a, b) == moves[a].to;
        assert Clash(moves, a);
      }
    }
  }

  lemma {:induction false} RestSize<K, V>(moves: seq<Move<K, V>>, n: nat)
    requires n == |moves|
    ensures |Rest(moves, n)| + |Moved(moves)| == n
  {
    if n > 0 {
      RestSize(moves[..n - 1], n - 1);
      RestLast(moves, n);
    }
  }

  lemma {:induction false} RestLast<K, V>(moves: seq<Move<K, V>>, n: nat)
    requires n == |moves| > 0
    ensures |Rest(moves, n)| == |Rest(moves[..n - 1], n - 1)| + if Moves(moves[n - 1]) then 0 else 1
  {
    if n > 1 {
      RestLast(moves[1..], n - 1);
      assert moves[1..][..n - 2] == moves[..n - 1][1..];
    }
  }

  lemma RestMovedSize<K, V>(moves: seq<Move<K, V>>)
    ensures |Rest(moves, |moves|) + Moved(moves)| == |moves|
  {
    RestSize(moves, |moves|);
  }
}
