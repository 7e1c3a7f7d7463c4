/** How a spec's inputs are read: `ComponentSpec._sanitize_inputs` and `__getitem__`. */
module Inputs {
  import opened Options
  import opened Dicts
  import opened Topology

  /** A key that the user gives. */
  datatype Key = StreamKey(id: Id) | SpecKey(spec: ComponentSpec) | OtherKey

  datatype Val = GroupingVal(grouping: Grouping) | OtherVal

  datatype Reading<T> = Read(value: T) | Bad(error: Error)

  const SHUFFLE := Unrestricted("shuffle")
  const DIRECT := Unrestricted("direct")

  /** `self.name or self`: an empty name is no name. */
  function ComponentId(spec: ComponentSpec, names: Naming): Ref {
    if spec in names && names[spec].Some? && names[spec].value != "" then Named(names[spec].value) else Object(spec)
  }

  /** `__getitem__`. */
  function GetItem(spec: ComponentSpec, stream: string, names: Naming): Reading<Id> {
    if stream in spec.outputs then Read(Id(ComponentId(spec, names), stream)) else Bad(KeyError)
  }

  // ---- a dictionary of inputs ----

  /** The stream id that a key stands for. */
  function Target(key: Key, names: Naming): Key {
    if key.SpecKey? then StreamKey(Id(ComponentId(key.spec, names), "default")) else key
  }

  function Retargets(inputs: Dict<Key, Val>, names: Naming): seq<Move<Key, Val>> {
    seq(|inputs|, i requires 0 <= i < |inputs| => Move(inputs[i].0, Target(inputs[i].0, names), inputs[i].1))
  }

  /** No two keys stand for one stream. */
  ghost predicate TargetsApart(inputs: Dict<Key, Val>, names: Naming) {
    forall i, j | 0 <= i < j < |inputs| :: Target(inputs[i].0, names) != Target(inputs[j].0, names)
  }

  /** What is wrong with one entry, in the order the checks are made. */
  function Fault(key: Key, val: Val): Option<Error> {
    if key.OtherKey? then Some(TypeError)
    else if key.SpecKey? && "default" !in key.spec.outputs then Some(KeyError)
    else if val.OtherVal? then Some(TypeError)
    else None
  }

  function FirstFault(inputs: Dict<Key, Val>): (r: Option<Error>)
    ensures r.None? <==> forall e | e in inputs :: Fault(e.0, e.1).None?
  {
    if inputs == [] then None
    else
      assert inputs == [inputs[0]] + inputs[1..];
      if Fault(inputs[0].0, inputs[0].1).Some? then Fault(inputs[0].0, inputs[0].1) else FirstFault(inputs[1..])
  }

  lemma {:induction false} PutThenRemove<K, V>(d: Dict<K, V>, from: K, to: K, v: V)
    requires from != to
    ensures Remove(Put(d, to, v), from) == Put(Remove(d, from), to, v)
  {
    hide Put, Remove;
    if d == [] {
      NoneThere(from, to, v);
    } else {
      var e, tail := d[0], d[1..];
      assert d == [e] + tail;
      PutCons(e, tail, to, v);
      RemoveCons(e, tail, from);
      RemoveCons(e, Put(tail, to, v), from);
      RemoveCons((to, v), tail, from);
      PutCons(e, Remove(tail, from), to, v);
      PutThenRemove(tail, from, to, v);
    }
  }

  lemma NoneThere<K, V>(from: K, to: K, v: V)
    requires from != to
    ensures Remove(Put<K, V>([], to, v), from) == Put(Remove<K, V>([], from), to, v)
  {
  }

  lemma FaultNext(inputs: Dict<Key, Val>, i: nat)
    requires i < |inputs|
    ensures FirstFault(inputs[i..]) ==
            var fault := Fault(inputs[i].0, inputs[i].1);
            if fault.Some? then fault else FirstFault(inputs[i + 1..])
  {
    assert inputs[i..][0] == inputs[i] && inputs[i..][1..] == inputs[i + 1..];
  }

  /** The dictionary form: a spec among the keys becomes its default stream. */
  method SanitizeDict(inputs: Dict<Key, Val>, names: Naming) returns (r: Reading<Dict<Key, Val>>)
    ensures r == match FirstFault(inputs)
      case Some(error) => Bad(error)
      case None => Read(Rekey(inputs, Retargets(inputs, names)))
  {
    hide Rekey, Put, Remove, FirstFault, Step;
    var dict, i := inputs, 0;
    ghost var moves := Retargets(inputs, names);
    assert moves[0..] == moves && inputs[0..] == inputs;
    while i < |inputs|
      invariant 0 <= i <= |inputs|
      invariant FirstFault(inputs) == FirstFault(inputs[i..])
      invariant Rekey(inputs, moves) == Rekey(dict, moves[i..])
    {
      var (key, val) := inputs[i];
      FaultNext(inputs, i);
      RekeyNext(dict, moves, i);
      StepIs(dict, moves[i]);
      match key {
        case StreamKey(_) =>
        case SpecKey(spec) =>
          var id := GetItem(spec, "default", names);
          if id.Bad? {
            return Bad(id.error);
          }
          PutThenRemove(dict, key, StreamKey(id.value), val);
          dict := Remove(Put(dict, StreamKey(id.value), val), key);
        case OtherKey =>
          return Bad(TypeError);
      }
      if val.OtherVal? {
        return Bad(TypeError);
      }
      i := i + 1;
    }
    NothingLeft(dict, inputs);
    assert moves[i..] == [] && inputs[i..] == [];
    return Read(dict);
  }

  lemma StepIs(d: Dict<Key, Val>, m: Move<Key, Val>)
    ensures Step(d, m) == if m.from != m.to then Put(Remove(d, m.from), m.to, m.value) else d
  {
  }

  lemma NothingLeft(d: Dict<Key, Val>, inputs: Dict<Key, Val>)
    ensures Rekey(d, []) == d && FirstFault([]) == None
  {
  }

  lemma RetargetsAreStable(inputs: Dict<Key, Val>, names: Naming)
    requires DistinctKeys(inputs)
    ensures Stable(Retargets(inputs, names)) && Before(Retargets(inputs, names)) == inputs
  {
    var moves := Retargets(inputs, names);
    assert forall i | 0 <= i < |moves| :: !moves[i].to.SpecKey?;
  }

  /** Reading a dictionary merges no two inputs if and only if no two keys stand for the same stream; the result
      maps exactly the streams meant, to groupings. */
  lemma SanitizeKeepsEdgesIff(inputs: Dict<Key, Val>, names: Naming)
    requires DistinctKeys(inputs) && FirstFault(inputs).None?
    ensures
      var moves := Retargets(inputs, names);
      var read := Rekey(inputs, moves);
      && DistinctKeys(read)
      && (forall e | e in read :: e.0.StreamKey? && e.1.GroupingVal?)
      && (forall e | e in inputs :: Has(read, Target(e.0, names)))
      && (forall e | e in read :: exists j | 0 <= j < |inputs| :: e == (Target(inputs[j].0, names), inputs[j].1))
      && |read| <= |inputs|
      && (|read| == |inputs| <==> TargetsApart(inputs, names))
      && (|read| == |inputs| ==> read == Rest(moves, |moves|) + Moved(moves))
  {
    hide Rekey, Rest, Moved, Has, Stable, DistinctKeys;
    var moves := Retargets(inputs, names);
    RetargetsAreStable(inputs, names);
    RekeyLosesNothingIff(moves);
    var read := Rekey(inputs, moves);
    forall e | e in read
      ensures e.0.StreamKey? && e.1.GroupingVal?
    {
      var j :| 0 <= j < |moves| && e == (moves[j].to, moves[j].value);
      assert inputs[j] in inputs;
    }
    forall e | e in inputs
      ensures Has(read, Target(e.0, names))
    {
      var j :| 0 <= j < |inputs| && inputs[j] == e;
      assert moves[j] in moves;
    }
    forall e | e in read
      ensures exists j | 0 <= j < |inputs| :: e == (Target(inputs[j].0, names), inputs[j].1)
    {
      var j :| 0 <= j < |moves| && e == (moves[j].to, moves[j].value);
      assert e == (Target(inputs[j].0, names), inputs[j].1);
    }
    assert DistinctTargets(moves) <==> TargetsApart(inputs, names);
    if DistinctTargets(moves) {
      RekeyKeepsAll(moves);
    }
  }

  /** One spec that is an input both by itself and by its default stream: two inputs become one. */
  lemma SpecAndStreamMerge(s: ComponentSpec, g: string, h: string)
    requires "default" in s.outputs
    ensures
      var inputs := [
        (SpecKey(s), GroupingVal(Unrestricted(g))),
        (StreamKey(Id(Object(s), "default")), GroupingVal(Unrestricted(h)))];
      && DistinctKeys(inputs) && FirstFault(inputs).None?
      && |Rekey(inputs, Retargets(inputs, map[]))| == 1
  {
    var inputs := [
      (SpecKey(s), GroupingVal(Unrestricted(g))),
      (StreamKey(Id(Object(s), "default")), GroupingVal(Unrestricted(h)))];
    assert Fault(inputs[0].0, inputs[0].1).None? && Fault(inputs[1].0, inputs[1].1).None?;
    SanitizeKeepsEdgesIff(inputs, map[]);
    assert inputs[0] in inputs && Target(inputs[0].0, map[]) == Target(inputs[1].0, map[]);
  }

  // ---- from the inputs as given to the edges of the topology ----

  /** The sanitised inputs as the keys and groupings of a spec. */
  function AsLinks(read: Dict<Key, Val>): Dict<Id, Grouping>
    requires forall e | e in read :: e.0.StreamKey? && e.1.GroupingVal?
  {
    seq(|read|, i requires 0 <= i < |read| => assert read[i] in read; (read[i].0.id, read[i].1.grouping))
  }

  /** The stream a key means in the end: read with the names there were then, linked with the names there are
      once the topology is made. */
  function Meaning(key: Key, before: Naming, now: Naming): Id
    requires !key.OtherKey?
  {
    Linked(Target(key, before).id, now)
  }

  /** No two inputs mean the same stream. */
  ghost predicate MeaningsApart(inputs: Dict<Key, Val>, before: Naming, now: Naming)
    requires FirstFault(inputs).None?
  {
    assert forall i | 0 <= i < |inputs| :: inputs[i] in inputs;
    forall i, j | 0 <= i < j < |inputs| :: Meaning(inputs[i].0, before, now) != Meaning(inputs[j].0, before, now)
  }

  lemma ReadIsLinks(inputs: Dict<Key, Val>, before: Naming)
    requires DistinctKeys(inputs) && FirstFault(inputs).None?
    ensures
      var read := Rekey(inputs, Retargets(inputs, before));
      && (forall e | e in read :: e.0.StreamKey? && e.1.GroupingVal?)
      && DistinctKeys(AsLinks(read))
  {
    hide Rekey;
    SanitizeKeepsEdgesIff(inputs, before);
    var read := Rekey(inputs, Retargets(inputs, before));
    forall i, j | 0 <= i < j < |read|
      ensures AsLinks(read)[i].0 != AsLinks(read)[j].0
    {
      assert read[i] in read && read[j] in read && read[i].0 != read[j].0;
    }
  }

  /** The links of a spec that is made from the inputs. */
  ghost function LinksRead(inputs: Dict<Key, Val>, before: Naming): Dict<Id, Grouping>
    requires DistinctKeys(inputs) && FirstFault(inputs).None?
  {
    ReadIsLinks(inputs, before);
    AsLinks(Rekey(inputs, Retargets(inputs, before)))
  }

  /** Two inputs mean one stream if they stand for one stream, or for two that are linked to one. */
  lemma MeaningsApartIff(inputs: Dict<Key, Val>, before: Naming, now: Naming, read: Dict<Key, Val>)
    requires FirstFault(inputs).None?
    requires DistinctKeys(read) && forall e | e in read :: e.0.StreamKey? && e.1.GroupingVal?
    requires forall e | e in inputs :: Has(read, Target(e.0, before))
    requires forall e | e in read :: exists j | 0 <= j < |inputs| :: e == (Target(inputs[j].0, before), inputs[j].1)
    ensures MeaningsApart(inputs, before, now) <==> TargetsApart(inputs, before) && Apart(AsLinks(read), now)
  {
    hide Target, Linked;
    if MeaningsApart(inputs, before, now) {
      assert forall e | e in inputs :: !e.0.OtherKey?;
      forall i, j | 0 <= i < j < |inputs|
        ensures Target(inputs[i].0, before) != Target(inputs[j].0, before)
      {
        assert Meaning(inputs[i].0, before, now) != Meaning(inputs[j].0, before, now);
      }
      ReadsApart(inputs, before, now, read);
    }
    if TargetsApart(inputs, before) && Apart(AsLinks(read), now) {
      forall i, j | 0 <= i < j < |inputs|
        ensures Meaning(inputs[i].0, before, now) != Meaning(inputs[j].0, before, now)
      {
        assert inputs[i] in inputs && inputs[j] in inputs;
        var k :| 0 <= k < |read| && read[k].0 == Target(inputs[i].0, before);
        var l :| 0 <= l < |read| && read[l].0 == Target(inputs[j].0, before);
        assert k != l && read[k] in read && read[l] in read;
        assert AsLinks(read)[k].0 == Target(inputs[i].0, before).id;
        assert AsLinks(read)[l].0 == Target(inputs[j].0, before).id;
        assert Linked(AsLinks(read)[k].0, now) != Linked(AsLinks(read)[l].0, now);
      }
    }
  }

  lemma ReadsApart(inputs: Dict<Key, Val>, before: Naming, now: Naming, read: Dict<Key, Val>)
    requires FirstFault(inputs).None?
    requires DistinctKeys(read) && forall e | e in read :: e.0.StreamKey? && e.1.GroupingVal?
    requires forall e | e in read :: exists j | 0 <= j < |inputs| :: e == (Target(inputs[j].0, before), inputs[j].1)
    requires MeaningsApart(inputs, before, now)
    ensures Apart(AsLinks(read), now)
  {
    hide Target, Linked;
    forall a, b | 0 <= a < b < |read|
      ensures Linked(AsLinks(read)[a].0, now) != Linked(AsLinks(read)[b].0, now)
    {
      assert read[a] in read && read[b] in read && read[a].0 != read[b].0;
      var i :| 0 <= i < |inputs| && read[a] == (Target(inputs[i].0, before), inputs[i].1);
      var j :| 0 <= j < |inputs| && read[b] == (Target(inputs[j].0, before), inputs[j].1);
      assert i != j && inputs[i] in inputs && inputs[j] in inputs;
      assert Meaning(inputs[i].0, before, now) != Meaning(inputs[j].0, before, now);
    }
  }

  /** From end to end: of the inputs as the user gives them none is lost or merged on the way to the edges of
      the topology, if and only if no two mean the same stream; each stream meant is an edge in any case. */
  lemma {:induction false} InputsBecomeEdgesIff(inputs: Dict<Key, Val>, before: Naming, now: Naming,
                                                specs: map<string, ComponentSpec>)
    requires DistinctKeys(inputs) && FirstFault(inputs).None?
    requires Cleaned(LinksRead(inputs, before), now, specs).1.None?
    ensures
      var after := Cleaned(LinksRead(inputs, before), now, specs).0;
      && (|after| == |inputs| <==> MeaningsApart(inputs, before, now))
      && (forall e | e in inputs :: Has(after, Meaning(e.0, before, now)))
      && (forall e | e in after :: Good(e.0, e.1, specs))
  {
    hide Rekey, Cleaned, Good, Has, TargetsApart, MeaningsApart, Apart, Rest, Moved;
    var read := Rekey(inputs, Retargets(inputs, before));
    ReadIsLinks(inputs, before);
    var links := AsLinks(read);
    var after := Cleaned(links, now, specs).0;
    SanitizeKeepsEdgesIff(inputs, before);
    MeaningsApartIff(inputs, before, now, read);
    LinkingKeepsEdgesIff(links, now, specs);
    CleanedStands(links, now, specs);
    forall e | e in inputs
      ensures Has(after, Meaning(e.0, before, now))
    {
      ReadEntry(read, Target(e.0, before));
    }
  }

  lemma ReadEntry(read: Dict<Key, Val>, key: Key)
    requires (forall e | e in read :: e.0.StreamKey? && e.1.GroupingVal?) && Has(read, key)
    ensures key.StreamKey? && exists l :: l in AsLinks(read) && l.0 == key.id
  {
    var k :| 0 <= k < |read| && read[k].0 == key;
    assert read[k] in read && AsLinks(read)[k] in AsLinks(read);
  }

  /** The inputs of a new spec: every key is an object of its own. */
  method NewInputs(links: Dict<Id, Grouping>) returns (edges: seq<Edge>)
    requires DistinctKeys(links)
    ensures Values(edges) == links && fresh(KeysOf(edges))
  {
    edges := [];
    var i := 0;
    while i < |links|
      invariant 0 <= i <= |links| && |edges| == i
      invariant fresh(KeysOf(edges))
      invariant forall j | 0 <= j < i :: edges[j].key.Value() == links[j].0 && edges[j].grouping == links[j].1
    {
      var key := new StreamId(links[i].0.component, links[i].0.stream);
      assert KeysOf(edges + [Edge(key, links[i].1)]) == KeysOf(edges) + {key};
      edges := edges + [Edge(key, links[i].1)];
      i := i + 1;
    }
  }

  /** A spec made from a dictionary of inputs: its links are what was read, and it shares no key with another. */
  method NewSpec(kind: Kind, outputs: map<string, StreamInfo>, name: Option<string>, inputs: Dict<Key, Val>,
                 names: Naming)
    returns (r: Reading<ComponentSpec>)
    requires DistinctKeys(inputs)
    ensures FirstFault(inputs).Some? ==> r == Bad(FirstFault(inputs).value)
    ensures FirstFault(inputs).None? ==>
      && r.Read? && fresh(r.value) && fresh(r.value.Keys())
      && WellKeyed(r.value) && r.value.Links() == LinksRead(inputs, names)
      && r.value.kind == kind && r.value.outputs == outputs && r.value.name == name
  {
    hide Rekey, FirstFault, Values;
    var read := SanitizeDict(inputs, names);
    if read.Bad? {
      return Bad(read.error);
    }
    ReadIsLinks(inputs, names);
    var edges := NewInputs(AsLinks(read.value));
    var spec := new ComponentSpec(kind, outputs, name, edges);
    return Read(spec);
  }

  // ---- a list of inputs ----

  /** The stream an item of the list stands for, and its inferred grouping. A spec's default stream need not exist. */
  function Item(key: Key, names: Naming): (Id, Grouping)
    requires !key.OtherKey?
  {
    match key
    case StreamKey(id) => (id, SHUFFLE)
    case SpecKey(spec) =>
      (Id(ComponentId(spec, names), "default"),
       if "default" in spec.outputs && spec.outputs["default"].direct then DIRECT else SHUFFLE)
  }

  /** Whether items[i] is the last one for its stream. */
  ghost predicate Last(items: seq<Key>, names: Naming, i: nat)
    requires i < |items| && forall k | k in items :: !k.OtherKey?
  {
    forall j | i < j < |items| :: Item(items[j], names).0 != Item(items[i], names).0
  }

  /** One entry for each stream, grouped as the last item for it has it. */
  ghost predicate Lists(dict: Dict<Id, Grouping>, items: seq<Key>, names: Naming) {
    && DistinctKeys(dict)
    && (forall k | k in items :: !k.OtherKey?)
    && (forall i | 0 <= i < |items| && Last(items, names, i) :: Item(items[i], names) in dict)
    && (forall e | e in dict :: exists i :: 0 <= i < |items| && Last(items, names, i) && Item(items[i], names) == e)
  }

  /** The list form; an item that is neither a spec nor a stream id is refused. */
  method SanitizeList(items: seq<Key>, names: Naming) returns (r: Reading<Dict<Id, Grouping>>)
    ensures r.Read? <==> forall k | k in items :: !k.OtherKey?
    ensures r.Bad? ==> r.error == TypeError
    ensures r.Read? ==> Lists(r.value, items, names)
  {
    hide Put, Has, Lists;
    var dict: Dict<Id, Grouping> := [];
    ListsNone(names);
    var i := 0;
    while i < |items|
      invariant 0 <= i <= |items|
      invariant Lists(dict, items[..i], names)
    {
      assert items[..i + 1] == items[..i] + [items[i]];
      assert items[i] in items;
      if items[i].OtherKey? {
        return Bad(TypeError);
      }
      var (id, grouping) := Item(items[i], names);
      ListsNext(dict, items[..i], names, items[i]);
      dict := Put(dict, id, grouping);
      i := i + 1;
    }
    assert items[..i] == items;
    ListsAll(dict, items, names);
    return Read(dict);
  }

  lemma ListsNone(names: Naming)
    ensures Lists([], [], names)
  {
  }

  lemma ListsAll(dict: Dict<Id, Grouping>, items: seq<Key>, names: Naming)
    requires Lists(dict, items, names)
    ensures forall k | k in items :: !k.OtherKey?
  {
  }

  lemma {:induction false} PutEntries<K, V>(d: Dict<K, V>, k: K, v: V)
    requires DistinctKeys(d)
    ensures DistinctKeys(Put(d, k, v))
    ensures forall e | e in Put(d, k, v) :: e == (k, v) || (e in d && e.0 != k)
    ensures (k, v) in Put(d, k, v) && forall e | e in d && e.0 != k :: e in Put(d, k, v)
  {
    PutHas(d, k, v, k);
    if d != [] {
      assert d == [d[0]] + d[1..];
      HasDistinct(d);
      if d[0].0 == k {
        forall e | e in d[1..]
          ensures e.0 != k
        {
          InHas(d[1..], e);
        }
      } else {
        assert DistinctKeys(d[1..]);
        PutEntries(d[1..], k, v);
      }
    }
  }

  lemma LastNext(items: seq<Key>, names: Naming, key: Key, j: nat)
    requires forall k | k in items + [key] :: !k.OtherKey?
    requires j < |items|
    ensures forall k | k in items :: !k.OtherKey?
    ensures Last(items + [key], names, j) <==> Last(items, names, j) && Item(items[j], names).0 != Item(key, names).0
  {
    hide Item;
    var all := items + [key];
    assert forall k | k in items :: k in all;
    assert all[|items|] == key && forall i | 0 <= i < |items| :: all[i] == items[i];
    if Last(all, names, j) {
      assert forall i | j < i < |items| :: Item(all[i], names) == Item(items[i], names);
    }
  }

  lemma {:induction false} ListsNext(dict: Dict<Id, Grouping>, items: seq<Key>, names: Naming, key: Key)
    requires Lists(dict, items, names) && !key.OtherKey?
    ensures Lists(Put(dict, Item(key, names).0, Item(key, names).1), items + [key], names)
  {
    hide Item, Put, Last;
    var (id, grouping) := Item(key, names);
    var next, all, n := Put(dict, id, grouping), items + [key], |items|;
    PutEntries(dict, id, grouping);
    LastOne(items, names, key);
    forall j | 0 <= j < |all| && Last(all, names, j)
      ensures Item(all[j], names) in next
    {
      if j < n {
        LastNext(items, names, key, j);
        assert all[j] == items[j];
      }
    }
    forall e | e in next
      ensures exists j :: 0 <= j < |all| && Last(all, names, j) && Item(all[j], names) == e
    {
      if e == (id, grouping) {
        assert Last(all, names, n) && all[n] == key;
      } else {
        var j :| 0 <= j < n && Last(items, names, j) && Item(items[j], names) == e;
        LastNext(items, names, key, j);
        assert Last(all, names, j) && all[j] == items[j];
      }
    }
  }

  lemma LastOne(items: seq<Key>, names: Naming, key: Key)
    requires forall k | k in items + [key] :: !k.OtherKey?
    ensures Last(items + [key], names, |items|)
  {
  }

  // ---- from a list of inputs to the edges of the topology ----

  /** The streams that the items stand for. */
  function Streams(items: seq<Key>, names: Naming): seq<Id>
    requires forall k | k in items :: !k.OtherKey?
  {
    seq(|items|, i requires 0 <= i < |items| => assert items[i] in items; Item(items[i], names).0)
  }

  ghost predicate AllDifferent(ids: seq<Id>) {
    forall i, j | 0 <= i < j < |ids| :: ids[i] != ids[j]
  }

  function Members(ids: seq<Id>): set<Id> {
    set x <- ids
  }

  lemma {:induction false} SetSize(ids: seq<Id>)
    ensures |Members(ids)| <= |ids|
    ensures |Members(ids)| == |ids| <==> AllDifferent(ids)
  {
    hide AllDifferent, Members;
    if ids == [] {
      NoMembers();
    } else {
      var before, last := ids[..|ids| - 1], ids[|ids| - 1];
      assert ids == before + [last];
      SetSize(before);
      MembersNext(before, last);
    }
  }

  lemma NoMembers()
    ensures Members([]) == {} && AllDifferent([])
  {
  }

  lemma MembersNext(before: seq<Id>, last: Id)
    ensures Members(before + [last]) == Members(before) + {last}
    ensures last in Members(before) <==> last in before
    ensures AllDifferent(before + [last]) <==> AllDifferent(before) && last !in before
  {
    var ids := before + [last];
    assert ids[|before|] == last && forall i | 0 <= i < |before| :: ids[i] == before[i];
  }

  /** The last item for the stream of items[i]. */
  lemma {:induction false} LastFor(items: seq<Key>, names: Naming, i: nat)
    requires i < |items| && forall k | k in items :: !k.OtherKey?
    ensures exists j :: 0 <= j < |items| && Last(items, names, j) && Item(items[j], names).0 == Item(items[i], names).0
    decreases |items| - i
  {
    if !Last(items, names, i) {
      var j :| i < j < |items| && Item(items[j], names).0 == Item(items[i], names).0;
      LastFor(items, names, j);
    }
  }

  /** Reading a list gives one entry for each stream in it. */
  lemma ListHasStreams(links: Dict<Id, Grouping>, items: seq<Key>, names: Naming)
    requires Lists(links, items, names)
    ensures forall x | x in Streams(items, names) :: Has(links, x)
    ensures forall l | l in links :: l.0 in Streams(items, names)
    ensures |links| == |Members(Streams(items, names))|
  {
    hide Item, Last;
    var streams, keys := Streams(items, names), KeysIn(links);
    forall x | x in streams
      ensures Has(links, x)
    {
      var i :| 0 <= i < |items| && streams[i] == x;
      LastFor(items, names, i);
      var j :| 0 <= j < |items| && Last(items, names, j) && Item(items[j], names).0 == Item(items[i], names).0;
      InHas(links, Item(items[j], names));
    }
    forall l | l in links
      ensures l.0 in streams
    {
      var i :| 0 <= i < |items| && Last(items, names, i) && Item(items[i], names) == l;
      assert streams[i] == l.0;
    }
    SetSize(keys);
    KeysInAre(links);
    assert Members(keys) == Members(streams);
  }

  function KeysIn(d: Dict<Id, Grouping>): seq<Id> {
    seq(|d|, i requires 0 <= i < |d| => d[i].0)
  }

  lemma KeysInAre(d: Dict<Id, Grouping>)
    requires DistinctKeys(d)
    ensures forall x :: x in KeysIn(d) <==> Has(d, x)
    ensures forall l | l in d :: l.0 in KeysIn(d)
    ensures AllDifferent(KeysIn(d))
  {
    forall x
      ensures x in KeysIn(d) <==> Has(d, x)
    {
      if Has(d, x) {
        var i :| 0 <= i < |d| && d[i].0 == x;
        assert KeysIn(d)[i] == x;
      }
    }
    forall l | l in d
      ensures l.0 in KeysIn(d)
    {
      InHas(d, l);
    }
  }

  /** What the items mean in the end. */
  function Meanings(items: seq<Key>, before: Naming, now: Naming): seq<Id>
    requires forall k | k in items :: !k.OtherKey?
  {
    seq(|items|, i requires 0 <= i < |items| => Linked(Streams(items, before)[i], now))
  }

  /** No two different streams of the list are linked to one. */
  ghost predicate StreamsStayApart(items: seq<Key>, before: Naming, now: Naming)
    requires forall k | k in items :: !k.OtherKey?
  {
    var streams := Streams(items, before);
    forall x, y | x in streams && y in streams && x != y :: Linked(x, now) != Linked(y, now)
  }

  lemma ApartIffStreamsStayApart(links: Dict<Id, Grouping>, items: seq<Key>, before: Naming, now: Naming)
    requires Lists(links, items, before)
    ensures Apart(links, now) <==> StreamsStayApart(items, before, now)
  {
    hide Lists, Streams, Linked;
    ListsAll(links, items, before);
    ListHasStreams(links, items, before);
    ListsDistinct(links, items, before);
    var streams := Streams(items, before);
    if Apart(links, now) {
      forall x, y | x in streams && y in streams && x != y
        ensures Linked(x, now) != Linked(y, now)
      {
        assert Has(links, x) && Has(links, y);
        var i :| 0 <= i < |links| && links[i].0 == x;
        var j :| 0 <= j < |links| && links[j].0 == y;
        assert i != j;
      }
    }
    if StreamsStayApart(items, before, now) {
      forall i, j | 0 <= i < j < |links|
        ensures Linked(links[i].0, now) != Linked(links[j].0, now)
      {
        assert links[i] in links && links[j] in links && links[i].0 != links[j].0;
      }
    }
  }

  lemma ListsDistinct(links: Dict<Id, Grouping>, items: seq<Key>, names: Naming)
    requires Lists(links, items, names)
    ensures DistinctKeys(links)
  {
  }

  lemma MeaningsDifferIff(items: seq<Key>, before: Naming, now: Naming)
    requires forall k | k in items :: !k.OtherKey?
    ensures AllDifferent(Meanings(items, before, now)) <==>
      AllDifferent(Streams(items, before)) && StreamsStayApart(items, before, now)
  {
    hide Linked, Item;
    var streams, meanings := Streams(items, before), Meanings(items, before, now);
    if AllDifferent(meanings) {
      forall i, j | 0 <= i < j < |streams|
        ensures streams[i] != streams[j]
      {
        assert meanings[i] != meanings[j];
      }
      forall x, y | x in streams && y in streams && x != y
        ensures Linked(x, now) != Linked(y, now)
      {
        var i :| 0 <= i < |streams| && streams[i] == x;
        var j :| 0 <= j < |streams| && streams[j] == y;
        assert i != j && meanings[i] == Linked(x, now) && meanings[j] == Linked(y, now);
      }
    }
    if AllDifferent(streams) && StreamsStayApart(items, before, now) {
      forall i, j | 0 <= i < j < |meanings|
        ensures meanings[i] != meanings[j]
      {
        assert streams[i] in streams && streams[j] in streams && streams[i] != streams[j];
      }
    }
  }

  /** From end to end for a list: each stream in it is an edge, and every edge stands; of the streams none is
      merged if and only if they stay apart once names are known, and of the items none is if and only if no two
      mean the same stream. */
  lemma {:induction false} ListBecomesEdgesIff(items: seq<Key>, links: Dict<Id, Grouping>, before: Naming, now: Naming,
                                               specs: map<string, ComponentSpec>)
    requires Lists(links, items, before) && Cleaned(links, now, specs).1.None?
    ensures forall k | k in items :: !k.OtherKey?
    ensures
      var after := Cleaned(links, now, specs).0;
      && (|after| == |Members(Streams(items, before))| <==> StreamsStayApart(items, before, now))
      && (|after| == |items| <==> AllDifferent(Meanings(items, before, now)))
      && (forall x | x in Streams(items, before) :: Has(after, Linked(x, now)))
      && (forall e | e in after :: Good(e.0, e.1, specs))
  {
    hide Lists, Streams, Meanings, Linked, Cleaned, Good, Has, Apart, StreamsStayApart, AllDifferent, Rest, Moved;
    ListsAll(links, items, before);
    ListsDistinct(links, items, before);
    ListHasStreams(links, items, before);
    SetSize(Streams(items, before));
    StreamsSize(items, before);
    ApartIffStreamsStayApart(links, items, before, now);
    MeaningsDifferIff(items, before, now);
    LinkingKeepsEdgesIff(links, now, specs);
    CleanedStands(links, now, specs);
    var after := Cleaned(links, now, specs).0;
    forall x | x in Streams(items, before)
      ensures Has(after, Linked(x, now))
    {
      assert Has(links, x);
      HasEntry(links, x);
    }
  }

  lemma HasEntry(d: Dict<Id, Grouping>, x: Id)
    requires Has(d, x)
    ensures exists l :: l in d && l.0 == x
  {
    var i :| 0 <= i < |d| && d[i].0 == x;
    assert d[i] in d;
  }

  lemma StreamsSize(items: seq<Key>, names: Naming)
    requires forall k | k in items :: !k.OtherKey?
    ensures |Streams(items, names)| == |items|
  {
  }

  /** A spec made from a list of inputs. */
  method NewSpecFromList(kind: Kind, outputs: map<string, StreamInfo>, name: Option<string>, items: seq<Key>,
                         names: Naming)
    returns (r: Reading<ComponentSpec>)
    ensures r.Read? <==> forall k | k in items :: !k.OtherKey?
    ensures r.Bad? ==> r.error == TypeError
    ensures r.Read? ==>
      && fresh(r.value) && fresh(r.value.Keys())
      && WellKeyed(r.value) && Lists(r.value.Links(), items, names)
      && r.value.kind == kind && r.value.outputs == outputs && r.value.name == name
  {
    hide Lists, Values;
    var read := SanitizeList(items, names);
    if read.Bad? {
      return Bad(read.error);
    }
    ListsDistinct(read.value, items, names);
    var edges := NewInputs(read.value);
    var spec := new ComponentSpec(kind, outputs, name, edges);
    return Read(spec);
  }

  // ---- keys and items, spelled out ----

  /** A spec is referred to by its name if it has one that is not empty, and by itself otherwise. */
  lemma ReferenceIs(spec: ComponentSpec, names: Naming, r: Ref)
    ensures ComponentId(spec, names) == r <==>
      || (r.Named? && r.name != "" && spec in names && names[spec] == Some(r.name))
      || (r == Object(spec) && (spec !in names || names[spec] == None || names[spec] == Some("")))
  {
  }

  /** What is wrong with an entry of a dictionary: a key that is neither a stream id nor a spec, a spec without a
      default stream, or else a value that is no grouping. */
  lemma FaultIs(key: Key, val: Val)
    ensures Fault(key, val) == Some(KeyError) <==> key.SpecKey? && "default" !in key.spec.outputs
    ensures Fault(key, val) == Some(TypeError) <==>
      key.OtherKey? || (val.OtherVal? && !(key.SpecKey? && "default" !in key.spec.outputs))
    ensures Fault(key, val) == None <==>
      val.GroupingVal? && (key.StreamKey? || (key.SpecKey? && "default" in key.spec.outputs))
  {
  }

  /** The first entry at fault decides. */
  lemma {:induction false} FirstFaultIs(inputs: Dict<Key, Val>, i: nat)
    requires i < |inputs| && Fault(inputs[i].0, inputs[i].1).Some?
    requires forall j | 0 <= j < i :: Fault(inputs[j].0, inputs[j].1).None?
    ensures FirstFault(inputs) == Fault(inputs[i].0, inputs[i].1)
  {
    if i > 0 {
      FirstFaultIs(inputs[1..], i - 1);
    }
  }

  /** The stream an item stands for, and when a direct grouping is inferred: only for a spec whose default stream is
      declared direct. */
  predicate StandsFor(key: Key, names: Naming, id: Id) {
    match key
    case StreamKey(given) => id == given
    case SpecKey(spec) => id.stream == "default" && id.component == ComponentId(spec, names)
    case OtherKey => false
  }

  predicate InfersDirect(key: Key) {
    key.SpecKey? && "default" in key.spec.outputs && key.spec.outputs["default"].direct
  }

  /** Reading a list, without its inner function: each entry is for the stream of an item that no later item shares,
      direct exactly if that item infers it and shuffled otherwise; and every item's stream has an entry. */
  lemma ListSpelledOut(dict: Dict<Id, Grouping>, items: seq<Key>, names: Naming)
    requires Lists(dict, items, names)
    ensures forall e | e in dict :: exists i ::
      && 0 <= i < |items| && StandsFor(items[i], names, e.0)
      && (forall j | i < j < |items| :: !StandsFor(items[j], names, e.0))
      && e.1 == if InfersDirect(items[i]) then DIRECT else SHUFFLE
    ensures forall k, id | k in items && StandsFor(k, names, id) :: Has(dict, id)
  {
    hide Item, Has;
    forall k | k in items
      ensures !k.OtherKey?
      ensures forall id :: StandsFor(k, names, id) <==> Item(k, names).0 == id
      ensures Item(k, names).1 == if InfersDirect(k) then DIRECT else SHUFFLE
    {
      ItemIs(k, names);
    }
    forall e | e in dict
      ensures exists i ::
        && 0 <= i < |items| && StandsFor(items[i], names, e.0)
        && (forall j | i < j < |items| :: !StandsFor(items[j], names, e.0))
        && e.1 == if InfersDirect(items[i]) then DIRECT else SHUFFLE
    {
      var i :| 0 <= i < |items| && Last(items, names, i) && Item(items[i], names) == e;
      assert items[i] in items && forall j | i < j < |items| :: items[j] in items;
    }
    ListHasStreams(dict, items, names);
    forall k, id | k in items && StandsFor(k, names, id)
      ensures Has(dict, id)
    {
      var i :| 0 <= i < |items| && items[i] == k;
      assert Streams(items, names)[i] == id;
    }
  }

  lemma ItemIs(key: Key, names: Naming)
    requires !key.OtherKey?
    ensures forall id :: StandsFor(key, names, id) <==> Item(key, names).0 == id
    ensures Item(key, names).1 == if InfersDirect(key) then DIRECT else SHUFFLE
  {
  }

  /** And reading a dictionary: a spec key stands for its default stream, a stream key for itself. */
  lemma TargetIs(key: Key, names: Naming, id: Id)
    requires !key.OtherKey?
    ensures Target(key, names) == StreamKey(id) <==> StandsFor(key, names, id)
  {
  }
}
