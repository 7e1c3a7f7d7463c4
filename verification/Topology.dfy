/** Class creation in the topology DSL: naming the specs and linking their inputs. */
module Topology {
  import opened Options
  import opened Dicts

  /** `GlobalStreamId.componentId`: the spec itself until names are known, then its name. */
  datatype Ref = Object(spec: ComponentSpec) | Named(name: string) | Missing

  /** The value of a stream id, by which keys are compared. */
  datatype Id = Id(component: Ref, stream: string)

  /** A fields grouping, or another one. */
  datatype Grouping = Fields(fields: seq<string>) | Unrestricted(kind: string)

  datatype StreamInfo = StreamInfo(outputFields: seq<string>, direct: bool)

  datatype Kind = Bolt | Spout | Neither

  datatype Error = TypeError | ValueError | KeyError

  class StreamId {
    var component: Ref
    const stream: string

    constructor (component: Ref, stream: string)
      ensures Value() == Id(component, stream)
    {
      this.component, this.stream := component, stream;
    }

    function Value(): Id
      reads this`component
    {
      Id(component, stream)
    }
  }

  /** One input: the key object and the grouping stored under it. */
  datatype Edge = Edge(key: StreamId, grouping: Grouping)

  class ComponentSpec {
    const kind: Kind
    const outputs: map<string, StreamInfo>
    var name: Option<string>
    var inputs: seq<Edge>

    constructor (kind: Kind, outputs: map<string, StreamInfo>, name: Option<string>, inputs: seq<Edge>)
      ensures this.kind == kind && this.outputs == outputs && this.name == name && this.inputs == inputs
    {
      this.kind, this.outputs, this.name, this.inputs := kind, outputs, name, inputs;
    }

    ghost function Keys(): set<StreamId>
      reads this`inputs
    {
      KeysOf(inputs)
    }

    /** The inputs by value. */
    ghost function Links(): Dict<Id, Grouping>
      reads this`inputs, Keys()`component
    {
      Values(inputs)
    }
  }

  ghost function KeysOf(d: seq<Edge>): set<StreamId> {
    set e <- d :: e.key
  }

  ghost function Values(d: seq<Edge>): (r: Dict<Id, Grouping>)
    reads KeysOf(d)`component
    ensures |r| == |d|
    ensures forall i | 0 <= i < |d| :: r[i] == (d[i].key.Value(), d[i].grouping)
  {
    if d == [] then []
    else
      assert KeysOf(d[1..]) <= KeysOf(d);
      [(d[0].key.Value(), d[0].grouping)] + Values(d[1..])
  }

  /** Deleting by value. */
  function Without(d: seq<Edge>, id: Id): seq<Edge>
    reads (set e <- d :: e.key)`component
  {
    if d == [] then []
    else if d[0].key.Value() == id then d[1..]
    else [d[0]] + Without(d[1..], id)
  }

  /** Inserting by value: a key that is there keeps its place and its key object. */
  function With(d: seq<Edge>, key: StreamId, grouping: Grouping): seq<Edge>
    reads (set e <- d :: e.key)`component, key`component
  {
    if d == [] then [Edge(key, grouping)]
    else if d[0].key.Value() == key.Value() then [Edge(d[0].key, grouping)] + d[1..]
    else [d[0]] + With(d[1..], key, grouping)
  }

  lemma ValuesCons(e: Edge, d: seq<Edge>)
    ensures Values([e] + d) == [(e.key.Value(), e.grouping)] + Values(d)
    ensures KeysOf([e] + d) == {e.key} + KeysOf(d)
  {
    assert ([e] + d)[1..] == d;
  }

  lemma WithoutCons(e: Edge, d: seq<Edge>, id: Id)
    ensures Without([e] + d, id) == if e.key.Value() == id then d else [e] + Without(d, id)
    ensures Without([], id) == []
  {
    assert ([e] + d)[1..] == d;
  }

  lemma WithCons(e: Edge, d: seq<Edge>, key: StreamId, grouping: Grouping)
    ensures With([e] + d, key, grouping) ==
            if e.key.Value() == key.Value() then [Edge(e.key, grouping)] + d else [e] + With(d, key, grouping)
    ensures With([], key, grouping) == [Edge(key, grouping)]
  {
    assert ([e] + d)[1..] == d;
  }

  lemma {:induction false} WithoutIsRemove(d: seq<Edge>, id: Id)
    ensures Values(Without(d, id)) == Remove(Values(d), id)
    ensures KeysOf(Without(d, id)) <= KeysOf(d)
  {
    hide *;
    if d == [] {
      NoValues();
      WithoutNone(id);
    } else {
      var e, tail := d[0], d[1..];
      var v := (e.key.Value(), e.grouping);
      assert d == [e] + tail;
      ValuesCons(e, tail);
      WithoutCons(e, tail, id);
      RemoveCons(v, Values(tail), id);
      WithoutIsRemove(tail, id);
      ValuesCons(e, Without(tail, id));
    }
  }

  lemma NoValues()
    ensures Values([]) == [] && KeysOf([]) == {}
  {
  }

  lemma WithoutNone(id: Id)
    ensures Without([], id) == [] && Remove<Id, Grouping>([], id) == []
  {
  }

  lemma {:induction false} WithIsPut(d: seq<Edge>, key: StreamId, grouping: Grouping)
    ensures Values(With(d, key, grouping)) == Put(Values(d), key.Value(), grouping)
    ensures KeysOf(With(d, key, grouping)) <= KeysOf(d) + {key}
  {
    hide *;
    NoValues();
    if d == [] {
      var e := Edge(key, grouping);
      WithCons(e, [], key, grouping);
      PutCons((key.Value(), grouping), [], key.Value(), grouping);
      ValuesCons(e, []);
      assert [e] + [] == [e];
      assert [(key.Value(), grouping)] + [] == [(key.Value(), grouping)];
    } else {
      var e, tail := d[0], d[1..];
      assert d == [e] + tail;
      ValuesCons(e, tail);
      WithCons(e, tail, key, grouping);
      PutCons((e.key.Value(), e.grouping), Values(tail), key.Value(), grouping);
      WithIsPut(tail, key, grouping);
      ValuesCons(e, With(tail, key, grouping));
      ValuesCons(Edge(e.key, grouping), tail);
    }
  }

  // ---- linking by value ----

  /** What each spec is called, if it has a name. */
  type Naming = map<ComponentSpec, Option<string>>

  /** What a key becomes: a spec is replaced by its name. */
  function Linked(id: Id, names: Naming): Id {
    match id.component
    case Object(spec) => Id(if spec in names && names[spec].Some? then Named(names[spec].value) else Missing, id.stream)
    case _ => id
  }

  function MovesOf(links: Dict<Id, Grouping>, names: Naming): seq<Move<Id, Grouping>> {
    seq(|links|, i requires 0 <= i < |links| => Move(links[i].0, Linked(links[i].0, names), links[i].1))
  }

  /** Why a link cannot stand, if it cannot. */
  function Check(to: Id, grouping: Grouping, specs: map<string, ComponentSpec>): Option<Error> {
    if !to.component.Named? || to.component.name !in specs then Some(KeyError)
    else
      var outputs := specs[to.component.name].outputs;
      if to.stream !in outputs then Some(KeyError)
      else if grouping.Fields? && exists f :: f in grouping.fields && f !in outputs[to.stream].outputFields
        then Some(ValueError)
      else None
  }

  /** A link to a declared component and one of its streams, grouped by fields of that stream. */
  predicate Good(id: Id, grouping: Grouping, specs: map<string, ComponentSpec>) {
    && id.component.Named? && id.component.name in specs
    && id.stream in specs[id.component.name].outputs
    && (grouping.Fields? ==>
          forall f | f in grouping.fields :: f in specs[id.component.name].outputs[id.stream].outputFields)
  }

  /** The inputs after cleaning, and the error that stopped it. */
  ghost function Clean(d: Dict<Id, Grouping>, moves: seq<Move<Id, Grouping>>, specs: map<string, ComponentSpec>)
    : (Dict<Id, Grouping>, Option<Error>)
    decreases |moves|
  {
    if moves == [] then (d, None)
    else if moves[0].from.component.Missing? then (d, Some(TypeError))
    else
      var d1 := Step(d, moves[0]);
      var error := Check(moves[0].to, moves[0].value, specs);
      if error.Some? then (d1, error) else Clean(d1, moves[1..], specs)
  }

  lemma {:induction false} CleanIsRekey(d: Dict<Id, Grouping>, moves: seq<Move<Id, Grouping>>,
                                        specs: map<string, ComponentSpec>)
    requires forall m | m in moves :: m.from.component.Missing? ==> m.to == m.from
    ensures Clean(d, moves, specs).1.None? <==> forall m | m in moves :: Good(m.to, m.value, specs)
    ensures Clean(d, moves, specs).1.None? ==> Clean(d, moves, specs).0 == Rekey(d, moves)
    decreases |moves|
  {
    if moves != [] {
      assert moves == [moves[0]] + moves[1..];
      CleanIsRekey(Step(d, moves[0]), moves[1..], specs);
      assert moves[0] in moves;
    }
  }

  /** What becomes of the inputs of one spec, and the error that stopped it. */
  ghost function Cleaned(links: Dict<Id, Grouping>, names: Naming, specs: map<string, ComponentSpec>)
    : (Dict<Id, Grouping>, Option<Error>)
  {
    Clean(links, MovesOf(links, names), specs)
  }

  // ---- linking in place ----

  /** The names are those that the specs bear now, and every spec a key refers to is among them. */
  ghost predicate Bear(names: Naming)
    reads names.Keys`name
  {
    forall s | s in names :: s.name == names[s]
  }

  ghost predicate Covers(names: Naming, links: Dict<Id, Grouping>) {
    forall l | l in links && l.0.component.Object? :: l.0.component.spec in names
  }

  /** A spec's inputs form a dictionary. */
  ghost predicate WellKeyed(spec: ComponentSpec)
    reads spec`inputs, spec.Keys()`component
  {
    DistinctKeys(spec.Links())
  }

  lemma StaysDistinct(d: Dict<Id, Grouping>, m: Move<Id, Grouping>)
    requires DistinctKeys(d)
    ensures DistinctKeys(Step(d, m)) && !Has(Remove(d, m.from), m.from)
  {
    RemoveHas(d, m.from, m.from);
    PutHas(Remove(d, m.from), m.to, m.value, m.to);
  }

  lemma CleanNext(d: Dict<Id, Grouping>, moves: seq<Move<Id, Grouping>>, i: nat, specs: map<string, ComponentSpec>)
    requires i < |moves|
    ensures
      var m := moves[i];
      Clean(d, moves[i..], specs) ==
      if m.from.component.Missing? then (d, Some(TypeError))
      else if Check(m.to, m.value, specs).Some? then (Step(d, m), Check(m.to, m.value, specs))
      else Clean(Step(d, m), moves[i + 1..], specs)
  {
    assert moves[i..][0] == moves[i] && moves[i..][1..] == moves[i + 1..];
  }

  /** One key: deleted under its old value, renamed in place, inserted under its new value. */
  method Reinsert(spec: ComponentSpec, key: StreamId, grouping: Grouping, ghost names: Naming)
    requires key.component.Object? && key.component.spec in names && Bear(names)
    requires WellKeyed(spec) && Has(spec.Links(), key.Value())
    modifies spec`inputs, key`component
    ensures key.Value() == Linked(old(key.Value()), names)
    ensures spec.Links() == Step(old(spec.Links()), Move(old(key.Value()), Linked(old(key.Value()), names), grouping))
    ensures spec.Keys() <= old(spec.Keys()) + {key}
  {
    hide Without, With, Remove, Put, Values;
    ghost var m := Move(key.Value(), Linked(key.Value(), names), grouping);
    ghost var links := spec.Links();
    StaysDistinct(links, m);
    WithoutIsRemove(spec.inputs, key.Value());
    spec.inputs := Without(spec.inputs, key.Value());
    key.component := if key.component.spec.name.Some? then Named(key.component.spec.name.value) else Missing;
    assert spec.Links() == Remove(links, m.from);
    WithIsPut(spec.inputs, key, grouping);
    spec.inputs := With(spec.inputs, key, grouping);
  }

  lemma KeysApart(d: seq<Edge>)
    requires DistinctKeys(Values(d))
    ensures forall i, j | 0 <= i < j < |d| :: d[i].key != d[j].key
  {
  }

  lemma CleanNone(d: Dict<Id, Grouping>, specs: map<string, ComponentSpec>)
    ensures Clean(d, [], specs) == (d, None)
  {
  }

  lemma MovesAreStable(links: Dict<Id, Grouping>, names: Naming)
    requires DistinctKeys(links)
    ensures Stable(MovesOf(links, names)) && Before(MovesOf(links, names)) == links
    ensures forall m | m in MovesOf(links, names) ::
      !m.to.component.Object? && (m.from.component.Missing? ==> m.to == m.from)
  {
    var moves := MovesOf(links, names);
    assert forall i | 0 <= i < |moves| :: !moves[i].to.component.Object?;
  }

  /** One turn of the loop. */
  method CleanKey(spec: ComponentSpec, key: StreamId, grouping: Grouping, specs: map<string, ComponentSpec>,
                  ghost names: Naming)
    returns (error: Option<Error>)
    requires WellKeyed(spec) && Has(spec.Links(), key.Value())
    requires Bear(names) && (key.component.Object? ==> key.component.spec in names)
    modifies spec`inputs, key`component
    ensures key.Value() == Linked(old(key.Value()), names) && spec.Keys() <= old(spec.Keys()) + {key}
    ensures old(key.Value()).component.Missing? ==> error == Some(TypeError) && spec.Links() == old(spec.Links())
    ensures !old(key.Value()).component.Missing? ==>
              && error == Check(key.Value(), grouping, specs)
              && spec.Links() == Step(old(spec.Links()), Move(old(key.Value()), key.Value(), grouping))
  {
    hide Check, DistinctKeys, Has, Values;
    if key.component.Object? {
      Reinsert(spec, key, grouping, names);
    } else if key.component.Missing? {
      return Some(TypeError);
    }
    error := Check(key.Value(), grouping, specs);
  }

  /** `clean_spec_inputs`: the inputs become, by value, what the rewriting of their keys yields, up to the first
      link that cannot stand. */
  method CleanSpecInputs(spec: ComponentSpec, specs: map<string, ComponentSpec>, ghost names: Naming)
    returns (error: Option<Error>)
    requires WellKeyed(spec) && Bear(names) && Covers(names, spec.Links())
    modifies spec`inputs, spec.Keys()`component
    ensures (spec.Links(), error) == Cleaned(old(spec.Links()), names, specs)
    ensures spec.Keys() <= old(spec.Keys())
  {
    hide Clean, Check, Step, Midway, Stable, DistinctKeys, Has, Values, Linked, KeyOf, Bear;
    error := None;
    var items := spec.inputs;
    ghost var links := spec.Links();
    ghost var moves := MovesOf(links, names);
    MovesAreStable(links, names);
    KeysApart(items);
    MidwayStart(moves);
    assert moves[0..] == moves;
    var i := 0;
    while i < |items|
      invariant 0 <= i <= |items| == |moves| && error == None
      invariant spec.Keys() <= KeysOf(items)
      invariant forall j | i <= j < |items| ::
        items[j].key.Value() == moves[j].from && items[j].grouping == moves[j].value
      invariant Midway(spec.Links(), moves, i)
      invariant Clean(links, moves, specs) == Clean(spec.Links(), moves[i..], specs)
    {
      var key, grouping := items[i].key, items[i].grouping;
      ghost var d := spec.Links();
      CleanNext(d, moves, i, specs);
      MidwayNext(d, moves, i);
      MidwayHas(d, moves, i);
      assert links[i] in links;
      error := CleanKey(spec, key, grouping, specs, names);
      if error.Some? {
        return;
      }
      i := i + 1;
    }
    assert moves[i..] == [];
    CleanNone(spec.Links(), specs);
  }

  // ---- what linking keeps ----

  /** `specs` maps each name to the spec that bears it. */
  ghost predicate NamedBy(specs: map<string, ComponentSpec>, names: Naming) {
    forall n | n in specs :: specs[n] in names && names[specs[n]] == Some(n)
  }

  /** Every spec that a key refers to is one of the topology's own. */
  ghost predicate Declared(links: Dict<Id, Grouping>, specs: map<string, ComponentSpec>) {
    forall l | l in links && l.0.component.Object? :: l.0.component.spec in specs.Values
  }

  /** No stream is an input both through its spec and through the spec's name. */
  ghost predicate Uniform(links: Dict<Id, Grouping>, names: Naming) {
    forall l, k | l in links && k in links && l.0.component.Object? && !k.0.component.Object? ::
      Linked(l.0, names) != k.0
  }

  lemma LinkedApart(a: Id, b: Id, names: Naming, specs: map<string, ComponentSpec>)
    requires NamedBy(specs, names) && a.component.Object? && b.component.Object?
    requires a.component.spec in specs.Values && b.component.spec in specs.Values
    ensures Linked(a, names) == Linked(b, names) ==> a == b
  {
  }

  /** No two keys name one stream once specs are replaced by their names. */
  ghost predicate Apart(links: Dict<Id, Grouping>, names: Naming) {
    forall i, j | 0 <= i < j < |links| :: Linked(links[i].0, names) != Linked(links[j].0, names)
  }

  /** As names are unique within a topology, only a stream that is an input both ways can be named twice. */
  lemma {:induction false} ApartIffUniform(links: Dict<Id, Grouping>, names: Naming, specs: map<string, ComponentSpec>)
    requires DistinctKeys(links) && NamedBy(specs, names) && Declared(links, specs)
    ensures Apart(links, names) <==> Uniform(links, names)
  {
    if Uniform(links, names) {
      forall i, j | 0 <= i < j < |links|
        ensures Linked(links[i].0, names) != Linked(links[j].0, names)
      {
        var a, b := links[i], links[j];
        assert a in links && b in links;
        if a.0.component.Object? && b.0.component.Object? {
          LinkedApart(a.0, b.0, names, specs);
        }
      }
    }
    if Apart(links, names) {
      forall l, k | l in links && k in links && l.0.component.Object? && !k.0.component.Object?
        ensures Linked(l.0, names) != k.0
      {
        var i :| 0 <= i < |links| && links[i] == l;
        var j :| 0 <= j < |links| && links[j] == k;
        assert Linked(links[j].0, names) == k.0 && i != j;
      }
    }
  }

  /** Cleaning without an error leaves distinct links that stand, one for every key there was. */
  lemma CleanedStands(links: Dict<Id, Grouping>, names: Naming, specs: map<string, ComponentSpec>)
    requires DistinctKeys(links) && Cleaned(links, names, specs).1.None?
    ensures
      var after := Cleaned(links, names, specs).0;
      && DistinctKeys(after)
      && (forall e | e in after :: Good(e.0, e.1, specs))
      && (forall l | l in links :: Has(after, Linked(l.0, names)))
  {
    hide Clean, Rekey, Stable, Has, Good;
    var moves := MovesOf(links, names);
    MovesAreStable(links, names);
    CleanIsRekey(links, moves, specs);
    RekeyLosesNothingIff(moves);
    var after := Rekey(Before(moves), moves);
    forall e | e in after
      ensures Good(e.0, e.1, specs)
    {
      var j :| 0 <= j < |moves| && e == (moves[j].to, moves[j].value);
      assert moves[j] in moves;
    }
    forall l | l in links
      ensures Has(after, Linked(l.0, names))
    {
      var j :| 0 <= j < |links| && links[j] == l;
      assert moves[j] in moves;
    }
  }

  /** Whatever the keys refer to: no link is merged or dropped if and only if no two keys name one stream; and
      then each link keeps its stream and grouping, the links that were by name first. */
  lemma LinkingKeepsEdgesIff(links: Dict<Id, Grouping>, names: Naming, specs: map<string, ComponentSpec>)
    requires DistinctKeys(links) && Cleaned(links, names, specs).1.None?
    ensures
      var moves, after, apart := MovesOf(links, names), Cleaned(links, names, specs).0, Apart(links, names);
      && |after| <= |links|
      && (|after| == |links| <==> apart)
      && (apart ==> after == Rest(moves, |moves|) + Moved(moves))
      && (apart ==> forall l | l in links :: (Linked(l.0, names), l.1) in after)
  {
    hide Clean, Rekey, Stable, Rest, Moved, Has;
    var moves := MovesOf(links, names);
    MovesAreStable(links, names);
    CleanIsRekey(links, moves, specs);
    assert DistinctTargets(moves) <==> Apart(links, names);
    RekeyLosesNothingIff(moves);
    if Apart(links, names) {
      RekeyKeepsAll(moves);
      forall l | l in links
        ensures (Linked(l.0, names), l.1) in Rekey(Before(moves), moves)
      {
        var j :| 0 <= j < |links| && links[j] == l;
        assert moves[j] in moves;
        TargetEntry(Rekey(Before(moves), moves), moves, j);
      }
    }
  }

  lemma CleanTwo(d: Dict<Id, Grouping>, m: Move<Id, Grouping>, k: Move<Id, Grouping>, specs: map<string, ComponentSpec>)
    requires !m.from.component.Missing? && !k.from.component.Missing?
    requires Good(m.to, m.value, specs) && Good(k.to, k.value, specs)
    ensures Clean(d, [m, k], specs) == (Step(Step(d, m), k), None)
  {
    hide Good, Step;
    GoodIffUnchecked(m.to, m.value, specs);
    GoodIffUnchecked(k.to, k.value, specs);
    assert [m, k][1..] == [k] && [k][1..] == [];
    assert Clean(Step(d, m), [k], specs) == Clean(Step(Step(d, m), k), [], specs);
  }

  lemma GoodIffUnchecked(to: Id, grouping: Grouping, specs: map<string, ComponentSpec>)
    ensures Good(to, grouping, specs) <==> Check(to, grouping, specs).None?
  {
  }

  /** Two links on different keys that come to the same one: only the grouping of the first is left, whether the
      second was there by name or is renamed as well. */
  lemma TwoBecomeOne(s: ComponentSpec, other: Id, g: string, h: string)
    requires "default" in s.outputs
    requires var names := map[s := Some("a")]
      + (if other.component.Object? then map[other.component.spec := Some("a")] else map[]);
             other != Id(Object(s), "default") && Linked(other, names) == Id(Named("a"), "default")
    ensures
      var names: Naming := map[s := Some("a")]
                           + (if other.component.Object? then map[other.component.spec := Some("a")] else map[]);
      var links := [(Id(Object(s), "default"), Unrestricted(g)), (other, Unrestricted(h))];
      && DistinctKeys(links) && !Apart(links, names) && NamedBy(map["a" := s], names)
      && Cleaned(links, names, map["a" := s]).1.None?
      && |Cleaned(links, names, map["a" := s]).0| == 1
  {
    var names: Naming := map[s := Some("a")]
                         + (if other.component.Object? then map[other.component.spec := Some("a")] else map[]);
    var specs := map["a" := s];
    var links := [(Id(Object(s), "default"), Unrestricted(g)), (other, Unrestricted(h))];
    var moves := MovesOf(links, names);
    assert moves == [moves[0], moves[1]];
    CleanTwo(links, moves[0], moves[1], specs);
    assert Linked(links[0].0, names) == Linked(links[1].0, names);
    LinkingKeepsEdgesIff(links, names, specs);
    CleanedStands(links, names, specs);
    assert links[0] in links;
  }

  /** Declared and named both ways, a stream becomes one input. */
  lemma NamedBothWaysMerges(s: ComponentSpec, g: string, h: string)
    requires "default" in s.outputs
    ensures
      var names: Naming := map[s := Some("a")];
      var links := [(Id(Object(s), "default"), Unrestricted(g)), (Id(Named("a"), "default"), Unrestricted(h))];
      && DistinctKeys(links) && NamedBy(map["a" := s], names) && Declared(links, map["a" := s])
      && Cleaned(links, names, map["a" := s]).1.None?
      && |Cleaned(links, names, map["a" := s]).0| == 1
  {
    assert map[s := Some("a")] + map[] == map[s := Some("a")];
    TwoBecomeOne(s, Id(Named("a"), "default"), g, h);
  }

  /** So do the streams of a declared spec and of one that another topology has given the same name. */
  lemma StrangerMerges(s: ComponentSpec, stranger: ComponentSpec, g: string, h: string)
    requires "default" in s.outputs && stranger != s
    ensures
      var names: Naming := map[s := Some("a")] + map[stranger := Some("a")];
      var links := [(Id(Object(s), "default"), Unrestricted(g)), (Id(Object(stranger), "default"), Unrestricted(h))];
      && DistinctKeys(links) && Uniform(links, names) && NamedBy(map["a" := s], names)
      && Cleaned(links, names, map["a" := s]).1.None?
      && |Cleaned(links, names, map["a" := s]).0| == 1
  {
    TwoBecomeOne(s, Id(Object(stranger), "default"), g, h);
  }

  lemma TargetEntry(after: Dict<Id, Grouping>, moves: seq<Move<Id, Grouping>>, j: nat)
    requires j < |moves| && DistinctTargets(moves) && Has(after, moves[j].to)
    requires forall e | e in after :: exists k | 0 <= k < |moves| :: e == (moves[k].to, moves[k].value)
    ensures (moves[j].to, moves[j].value) in after
  {
    var i :| 0 <= i < |after| && after[i].0 == moves[j].to;
    var e := after[i];
    assert e in after;
    var k :| 0 <= k < |moves| && e == (moves[k].to, moves[k].value);
    assert k == j;
  }

  // ---- class creation ----

  /** What a class body binds a name to. */
  datatype Attribute = SpecAttr(spec: ComponentSpec) | ComponentAttr | OtherAttr

  type ClassDict = seq<(string, Attribute)>

  /** The specs of a class body, in order, each with the name it is bound to. */
  function SpecItems(items: ClassDict): seq<(string, ComponentSpec)> {
    if items == [] then []
    else SpecItems(items[..|items| - 1])
         + match items[|items| - 1].1
           case SpecAttr(spec) => [(items[|items| - 1].0, spec)]
           case _ => []
  }

  ghost function SpecSet(items: ClassDict): set<ComponentSpec> {
    set x <- items | x.1.SpecAttr? :: x.1.spec
  }

  function GivenName(item: (string, ComponentSpec)): string
    reads item.1`name
  {
    if item.1.name.Some? then item.1.name.value else item.0
  }

  ghost predicate NoInstances(items: ClassDict) {
    forall x | x in items :: !x.1.ComponentAttr?
  }

  /** The name that each of them is to have. */
  ghost function NamesIn(items: ClassDict): (names: seq<string>)
    reads SpecSet(items)`name
    ensures |names| == |SpecItems(items)|
    ensures forall i | 0 <= i < |names| ::
      SpecItems(items)[i].1 in SpecSet(items) && names[i] == GivenName(SpecItems(items)[i])
  {
    SpecsBound(items);
    assert forall x | x in SpecItems(items) :: x.1 in SpecSet(items);
    Given(SpecItems(items))
  }

  ghost function Given(d: seq<(string, ComponentSpec)>): (names: seq<string>)
    reads (set x <- d :: x.1)`name
    ensures |names| == |d| && forall i | 0 <= i < |d| :: names[i] == GivenName(d[i])
  {
    if d == [] then []
    else
      assert d[0] in d && forall x | x in d[1..] :: x in d;
      [GivenName(d[0])] + Given(d[1..])
  }

  lemma SpecItemsNext(items: ClassDict, i: nat)
    requires i < |items|
    ensures SpecItems(items[..i + 1]) == SpecItems(items[..i])
      + if items[i].1.SpecAttr? then [(items[i].0, items[i].1.spec)] else []
    ensures SpecItems(items[..i + 1]) <= SpecItems(items)
  {
    assert items[..i + 1][..i] == items[..i];
    SpecItemsPrefix(items, i + 1);
  }

  lemma {:induction false} SpecItemsPrefix(items: ClassDict, i: nat)
    requires i <= |items|
    ensures SpecItems(items[..i]) <= SpecItems(items)
  {
    if i == |items| {
      assert items[..i] == items;
    } else {
      SpecItemsPrefix(items[..|items| - 1], i);
      assert items[..|items| - 1][..i] == items[..i];
    }
  }

  lemma {:induction false} SpecsBound(items: ClassDict)
    ensures (set x <- SpecItems(items) :: x.1) == SpecSet(items)
  {
    if items != [] {
      var before, last := items[..|items| - 1], items[|items| - 1];
      SpecsBound(before);
      assert items == before + [last];
      assert SpecSet(items) == SpecSet(before) + SpecSet([last]);
      assert SpecItems(items) == SpecItems(before) + if last.1.SpecAttr? then [(last.0, last.1.spec)] else [];
    }
  }

  /** No spec is bound twice, and no two specs have the same name. */
  ghost predicate NamesApart(d: seq<(string, ComponentSpec)>)
    reads (set x <- d :: x.1)`name
  {
    forall i, j | 0 <= i < j < |d| :: d[i].1 != d[j].1 && GivenName(d[i]) != GivenName(d[j])
  }

  lemma NoInstancesNone(items: ClassDict)
    ensures NoInstances(items[..0])
  {
  }

  lemma NoInstancesNext(items: ClassDict, i: nat)
    requires i < |items|
    ensures NoInstances(items[..i + 1]) <==> NoInstances(items[..i]) && !items[i].1.ComponentAttr?
    ensures items[i].1.ComponentAttr? ==> !NoInstances(items)
    ensures items[i].1.SpecAttr? ==> items[i].1.spec in SpecSet(items)
  {
    assert items[..i + 1] == items[..i] + [items[i]];
    assert items[i] in items;
  }

  /** A spec without a name takes that of the variable it is bound to. */
  method NameSpec(spec: ComponentSpec, name: string) returns (given: string)
    modifies spec`name
    ensures given == old(if spec.name.Some? then spec.name.value else name) && spec.name == Some(given)
  {
    if spec.name.None? {
      spec.name := Some(name);
    }
    given := spec.name.value;
  }

  /** `class_dict_to_specs`: every spec gets its name; it fails exactly when a component instance is among the
      attributes or two specs would share a name. */
  method ClassDictToSpecs(items: ClassDict)
    returns (order: seq<ComponentSpec>, specs: map<string, ComponentSpec>, error: Option<Error>)
    modifies SpecSet(items)`name
    ensures error.None? <==> NoInstances(items) && old(NamesApart(SpecItems(items)))
    ensures error == Some(TypeError) ==> !NoInstances(items)
    ensures error == Some(ValueError) ==> old(!NamesApart(SpecItems(items)))
    ensures error.None? ==>
      var d := SpecItems(items);
      && |order| == |d|
      && (forall i | 0 <= i < |d| :: order[i] == d[i].1 && order[i].name == Some(old(NamesIn(items))[i]))
      && (forall i, j | 0 <= i < j < |order| :: order[i] != order[j])
      && specs.Values == (set s <- order) == SpecSet(items)
      && (forall n | n in specs :: specs[n].name == Some(n))
  {
    hide SpecItems, NamesApart, NamesIn, Given, GivenName, NoInstances, Table, KeysOf, Values, Linked;
    order, specs, error := [], map[], None;
    ghost var d, names := SpecItems(items), NamesIn(items);
    NamesApartIs(items);
    NoSpecItems(items);
    NoInstancesNone(items);
    TableNone(names);
    var i := 0;
    while i < |items|
      invariant 0 <= i <= |items| && error == None
      invariant |order| <= |d| && SpecItems(items[..i]) == d[..|order|]
      invariant NoInstances(items[..i])
      invariant forall j | 0 <= j < |order| :: order[j] == d[j].1 && order[j].name == Some(names[j])
      invariant forall j | |order| <= j < |d| && d[j].1 !in order :: d[j].1.name == old(d[j].1.name)
      invariant Table(order, specs, names)
    {
      SpecItemsNext(items, i);
      NoInstancesNext(items, i);
      var (name, attribute) := items[i];
      match attribute {
        case SpecAttr(spec) =>
          assert d[|order|] == (name, spec) && SpecItems(items[..i + 1]) == d[..|order| + 1];
          TableClash(order, specs, names);
          var given := NameSpec(spec, name);
          assert spec !in order ==> given == names[|order|];
          if given in specs {
            return order, specs, Some(ValueError);
          }
          TableNext(order, specs, names, spec);
          specs, order := specs[given := spec], order + [spec];
        case ComponentAttr =>
          return order, specs, Some(TypeError);
        case OtherAttr =>
      }
      i := i + 1;
    }
    assert items[..i] == items;
    Concluded(items, order, specs, names);
  }

  lemma Concluded(items: ClassDict, order: seq<ComponentSpec>, specs: map<string, ComponentSpec>, names: seq<string>)
    requires Table(order, specs, names) && |order| == |SpecItems(items)|
    requires forall i | 0 <= i < |order| :: order[i] == SpecItems(items)[i].1 && order[i].name == Some(names[i])
    ensures specs.Values == (set s <- order) == SpecSet(items)
    ensures forall a, b | 0 <= a < b < |order| :: order[a] != order[b] && names[a] != names[b]
    ensures forall n | n in specs :: specs[n].name == Some(n)
  {
    hide SpecItems, SpecSet, Table;
    SpecsBound(items);
    TableIs(order, specs, names);
  }

  /** `specs` maps the first names to the specs in `order`, and no name or spec is there twice. */
  ghost predicate Table(order: seq<ComponentSpec>, specs: map<string, ComponentSpec>, names: seq<string>) {
    && |order| <= |names|
    && (forall j | 0 <= j < |order| :: names[j] in specs && specs[names[j]] == order[j])
    && (forall a, b | 0 <= a < b < |order| :: order[a] != order[b] && names[a] != names[b])
    && (forall n | n in specs :: exists a :: 0 <= a < |order| && names[a] == n)
  }

  lemma TableNone(names: seq<string>)
    ensures Table([], map[], names)
  {
  }

  lemma TableClash(order: seq<ComponentSpec>, specs: map<string, ComponentSpec>, names: seq<string>)
    requires Table(order, specs, names)
    ensures forall j | 0 <= j < |order| :: names[j] in specs && specs[names[j]] == order[j]
    ensures forall n | n in specs :: exists a :: 0 <= a < |order| && names[a] == n
  {
  }

  lemma TableNext(order: seq<ComponentSpec>, specs: map<string, ComponentSpec>, names: seq<string>, spec: ComponentSpec)
    requires Table(order, specs, names) && |order| < |names| && spec !in order && names[|order|] !in specs
    ensures Table(order + [spec], specs[names[|order|] := spec], names)
  {
  }

  lemma TableIs(order: seq<ComponentSpec>, specs: map<string, ComponentSpec>, names: seq<string>)
    requires Table(order, specs, names)
    ensures specs.Values == (set s <- order)
    ensures forall a, b | 0 <= a < b < |order| :: order[a] != order[b] && names[a] != names[b]
    ensures forall n | n in specs :: exists a :: 0 <= a < |order| && names[a] == n && specs[n] == order[a]
  {
    forall s | s in order
      ensures s in specs.Values
    {
      var a :| 0 <= a < |order| && order[a] == s;
      assert names[a] in specs;
    }
  }

  lemma NamesApartIs(items: ClassDict)
    ensures
      var d, names := SpecItems(items), NamesIn(items);
      && (NamesApart(d) <==> forall i, j | 0 <= i < j < |d| :: d[i].1 != d[j].1 && names[i] != names[j])
      && (forall i | 0 <= i < |d| :: names[i] == if d[i].1.name.Some? then d[i].1.name.value else d[i].0)
  {
    hide SpecItems, SpecSet, NamesIn, Given;
  }

  lemma NoSpecItems(items: ClassDict)
    ensures SpecItems(items[..0]) == []
  {
  }

  // ---- the metaclass ----

  datatype Result =
    | Created(bolts: map<string, ComponentSpec>, spouts: map<string, ComponentSpec>, specs: seq<ComponentSpec>)
    | Refused(error: Error)

  /** A bolt has an input, a spout has an output, and nothing else is a spec. */
  predicate Accepted(spec: ComponentSpec)
    reads spec`inputs
  {
    match spec.kind
    case Bolt => spec.inputs != []
    case Spout => spec.outputs != map[]
    case Neither => false
  }

  ghost function AllKeys(specs: set<ComponentSpec>): set<StreamId>
    reads specs`inputs
  {
    set s, k | s in specs && k in s.Keys() :: k
  }

  /** The specs of one kind among `some`, by name. */
  predicate Registers(register: map<string, ComponentSpec>, some: set<ComponentSpec>,
                      specs: map<string, ComponentSpec>, kind: Kind) {
    register == map n | n in specs && specs[n] in some && specs[n].kind == kind :: specs[n]
  }

  /** `add_bolt_spec` or `add_spout_spec`, then `clean_spec_inputs`. */
  method Link(spec: ComponentSpec, specs: map<string, ComponentSpec>, ghost names: Naming)
    returns (error: Option<Error>)
    requires WellKeyed(spec) && Bear(names) && Covers(names, spec.Links())
    modifies spec`inputs, spec.Keys()`component
    ensures error == if old(Accepted(spec)) then Cleaned(old(spec.Links()), names, specs).1
                     else if spec.kind == Neither then Some(TypeError) else Some(ValueError)
    ensures spec.Links() == if old(Accepted(spec)) then Cleaned(old(spec.Links()), names, specs).0
      else old(spec.Links())
    ensures spec.Keys() <= old(spec.Keys())
  {
    hide Cleaned, Values, DistinctKeys, Covers, Bear;
    match spec.kind {
      case Bolt =>
        if spec.inputs == [] {
          return Some(ValueError);
        }
      case Spout =>
        if spec.outputs == map[] {
          return Some(ValueError);
        }
      case Neither => return Some(TypeError);
    }
    error := CleanSpecInputs(spec, specs, names);
  }

  /** Each spec's inputs form a dictionary, and no key object is shared. */
  ghost predicate Separate(specs: set<ComponentSpec>)
    reads specs`inputs, AllKeys(specs)`component
  {
    && (forall s | s in specs :: WellKeyed(s))
    && (forall s, t | s in specs && t in specs && s != t :: s.Keys() !! t.Keys())
  }

  lemma RegistersNext(register: map<string, ComponentSpec>, done: set<ComponentSpec>, spec: ComponentSpec, kind: Kind,
                      names: Naming, specs: map<string, ComponentSpec>)
    requires Registers(register, done, specs, kind) && NamedBy(specs, names) && spec in specs.Values
    ensures spec in names && names[spec].Some?
    ensures
      var next := if spec.kind == kind then register[names[spec].value := spec] else register;
      Registers(next, done + {spec}, specs, kind)
  {
  }

  /** Linking one spec leaves the other ones as they were. */
  method LinkNext(spec: ComponentSpec, specs: map<string, ComponentSpec>, ghost names: Naming,
                  ghost others: set<ComponentSpec>)
    returns (error: Option<Error>)
    requires WellKeyed(spec) && Bear(names) && Covers(names, spec.Links())
    requires forall s | s in others :: s != spec && s.Keys() !! spec.Keys()
    modifies spec`inputs, spec.Keys()`component
    ensures error.None? <==> old(Accepted(spec)) && Cleaned(old(spec.Links()), names, specs).1.None?
    ensures error.None? ==> Cleaned(old(spec.Links()), names, specs) == (spec.Links(), None)
    ensures spec.Keys() <= old(spec.Keys())
    ensures forall s | s in others :: s.inputs == old(s.inputs) && s.Links() == old(s.Links())
  {
    hide Cleaned, Values, DistinctKeys, Accepted, Bear, Covers;
    error := Link(spec, specs, names);
  }

  /** The loop over the specs in `__new__`. */
  method LinkAll(order: seq<ComponentSpec>, specs: map<string, ComponentSpec>, ghost names: Naming)
    returns (bolts: map<string, ComponentSpec>, spouts: map<string, ComponentSpec>, error: Option<Error>)
    requires forall i, j | 0 <= i < j < |order| :: order[i] != order[j]
    requires Separate(set s <- order) && NamedBy(specs, names) && specs.Values == (set s <- order)
    requires Bear(names) && forall s | s in order :: Covers(names, s.Links())
    modifies (set s <- order)`inputs, AllKeys((set s <- order))`component
    ensures error.None? <==> forall s | s in order :: old(Accepted(s)) && Cleaned(old(s.Links()), names, specs).1.None?
    ensures error.None? ==> forall s | s in order :: s.Links() == Cleaned(old(s.Links()), names, specs).0
    ensures error.None? ==> Registers(bolts, specs.Values, specs, Bolt) && Registers(spouts, specs.Values, specs, Spout)
  {
    hide Cleaned, Values, DistinctKeys, Accepted, Registers, Covers, NamedBy, KeysOf;
    bolts, spouts, error := map[], map[], None;
    NoneRegistered(specs, Bolt);
    NoneRegistered(specs, Spout);
    ghost var all := set s <- order;
    ghost var done: set<ComponentSpec> := {};
    var i := 0;
    while i < |order|
      invariant 0 <= i <= |order| && error == None
      invariant done <= all && (forall j | 0 <= j < i :: order[j] in done)
        && (forall j | i <= j < |order| :: order[j] !in done)
      invariant forall s | s in done :: old(Accepted(s)) && Cleaned(old(s.Links()), names, specs) == (s.Links(), None)
      invariant forall s | s in all - done :: s.inputs == old(s.inputs) && s.Links() == old(s.Links())
      invariant forall s | s in all :: s.Keys() <= old(s.Keys())
      invariant Registers(bolts, done, specs, Bolt) && Registers(spouts, done, specs, Spout)
    {
      var spec := order[i];
      RegistersNext(bolts, done, spec, Bolt, names, specs);
      RegistersNext(spouts, done, spec, Spout, names, specs);
      error := LinkNext(spec, specs, names, all - {spec});
      if error.Some? {
        return;
      }
      if spec.kind == Bolt {
        bolts := bolts[spec.name.value := spec];
      } else if spec.kind == Spout {
        spouts := spouts[spec.name.value := spec];
      }
      done := done + {spec};
      i := i + 1;
    }
    assert done == all;
  }

  lemma NoneRegistered(specs: map<string, ComponentSpec>, kind: Kind)
    ensures Registers(map[], {}, specs, kind)
  {
  }

  /** No component instance among the attributes, and no two specs of one name. */
  ghost predicate Nameable(items: ClassDict)
    reads SpecSet(items)`name
  {
    SpecsBound(items);
    NoInstances(items) && NamesApart(SpecItems(items))
  }

  /** The links of a spec of the new class: they stand, and none was lost or merged unless two keys named one
      stream, which takes an input both by spec and by name when the specs are the topology's own. */
  ghost predicate WellLinked(after: Dict<Id, Grouping>, links: Dict<Id, Grouping>, names: Naming,
                             specs: map<string, ComponentSpec>) {
    && DistinctKeys(after)
    && (forall e | e in after :: Good(e.0, e.1, specs))
    && (links != [] ==> after != [])
    && (|after| == |links| <==> Apart(links, names))
    && (Apart(links, names) ==> forall l | l in links :: (Linked(l.0, names), l.1) in after)
    && (Declared(links, specs) ==> (Apart(links, names) <==> Uniform(links, names)))
  }

  lemma CleanedIsLinked(links: Dict<Id, Grouping>, names: Naming, specs: map<string, ComponentSpec>)
    requires DistinctKeys(links) && NamedBy(specs, names) && Cleaned(links, names, specs).1.None?
    ensures WellLinked(Cleaned(links, names, specs).0, links, names, specs)
  {
    hide Good, Declared, Uniform, Apart, Cleaned, NamedBy;
    CleanedStands(links, names, specs);
    if links != [] {
      assert links[0] in links;
    }
    LinkingKeepsEdgesIff(links, names, specs);
    if Declared(links, specs) {
      ApartIffUniform(links, names, specs);
    }
  }

  /** The specs of the class body, and those that their keys refer to. */
  ghost function References(items: ClassDict): set<ComponentSpec>
    reads SpecSet(items)`inputs, AllKeys(SpecSet(items))`component
  {
    SpecSet(items) + set s, k | s in SpecSet(items) && k in s.Keys() && k.component.Object? :: k.component.spec
  }

  lemma Covered(items: ClassDict, names: Naming)
    requires References(items) <= names.Keys
    ensures forall s | s in SpecSet(items) :: Covers(names, s.Links())
  {
    forall s, l | s in SpecSet(items) && l in s.Links() && l.0.component.Object?
      ensures l.0.component.spec in names
    {
      var i :| 0 <= i < |s.Links()| && s.Links()[i] == l;
      assert s.inputs[i] in s.inputs && s.inputs[i].key in s.Keys();
      assert l.0.component.spec in References(items);
    }
  }

  /** Naming the specs changes no link, and settles what every reference is called. */
  method NameAll(items: ClassDict)
    returns (order: seq<ComponentSpec>, specs: map<string, ComponentSpec>, ghost names: Naming, error: Option<Error>)
    modifies SpecSet(items)`name
    ensures error.None? <==> old(Nameable(items))
    ensures Bear(names) && forall s | s in SpecSet(items) :: Covers(names, s.Links())
    ensures forall s | s in SpecSet(items) ::
      s.inputs == old(s.inputs) && s.Links() == old(s.Links()) && Accepted(s) == old(Accepted(s))
    ensures error.None? ==>
              var d := SpecItems(items);
              && NamedBy(specs, names) && specs.Values == (set s <- order) == SpecSet(items)
              && (forall i, j | 0 <= i < j < |order| :: order[i] != order[j])
              && Listed(order, d)
              && forall i | 0 <= i < |d| :: d[i].1 in names && names[d[i].1] == Some(old(NamesIn(items))[i])
  {
    hide SpecItems, NamesApart, NoInstances, Covers;
    order, specs, error := ClassDictToSpecs(items);
    names := map s | s in References(items) :: s.name;
    Covered(items, names);
  }

  /** The specs of `d`, in order. */
  predicate Listed(order: seq<ComponentSpec>, d: seq<(string, ComponentSpec)>) {
    |order| == |d| && forall i | 0 <= i < |d| :: order[i] == d[i].1
  }

  /** `__new__`. */
  method NewTopology(classname: string, items: ClassDict, configIsDict: bool)
    returns (r: Result, ghost specs: map<string, ComponentSpec>, ghost names: Naming)
    requires Separate(SpecSet(items))
    modifies SpecSet(items)`name, SpecSet(items)`inputs, AllKeys(SpecSet(items))`component
    ensures Bear(names)
    ensures old(Nameable(items)) ==>
              var d := SpecItems(items);
              && NamedBy(specs, names) && specs.Values == SpecSet(items)
              && forall i | 0 <= i < |d| :: d[i].1 in names && names[d[i].1] == Some(old(NamesIn(items))[i])
    ensures r.Created? <==>
            && old(Nameable(items))
            && (forall s | s in SpecSet(items) :: old(Accepted(s)) && Cleaned(old(s.Links()), names, specs).1.None?)
            && (classname != "Topology" ==> exists s | s in SpecSet(items) :: s.kind == Spout)
            && configIsDict
    ensures r.Created? ==>
              && Listed(r.specs, SpecItems(items))
              && Registers(r.bolts, specs.Values, specs, Bolt) && Registers(r.spouts, specs.Values, specs, Spout)
              && forall s | s in SpecSet(items) ::
                   && s.Links() == Cleaned(old(s.Links()), names, specs).0
                   && WellLinked(s.Links(), old(s.Links()), names, specs)
    ensures r.Created? ==> forall s | s in SpecSet(items) ::
              match s.kind
              case Bolt => s.Links() != []
              case Spout => s.outputs != map[]
              case Neither => false
  {
    hide Cleaned, Values, DistinctKeys, Accepted, WellLinked, SpecItems, Registers, Nameable, NamedBy, Covers;
    ghost var links := map s | s in SpecSet(items) :: s.Links();
    AllFit(SpecSet(items));
    var order, byName, error;
    order, byName, names, error := NameAll(items);
    specs := byName;
    if error.Some? {
      return Refused(error.value), specs, names;
    }
    var bolts, spouts;
    bolts, spouts, error := LinkAll(order, byName, names);
    if error.Some? {
      return Refused(error.value), specs, names;
    }
    HasSpouts(spouts, specs);
    if classname != "Topology" && spouts == map[] {
      return Refused(ValueError), specs, names;
    }
    if !configIsDict {
      return Refused(TypeError), specs, names;
    }
    assert forall s | s in SpecSet(items) :: links[s] == old(s.Links());
    AllLinked(links, names, specs);
    AllLinkedAny(links, names, specs);
    r := Created(bolts, spouts, order);
  }

  /** What an accepted spec has. */
  ghost predicate Fits(spec: ComponentSpec)
    reads spec`inputs, spec.Keys()`component
  {
    match spec.kind
    case Bolt => spec.Links() != []
    case Spout => spec.outputs != map[]
    case Neither => false
  }

  lemma AllFit(specs: set<ComponentSpec>)
    ensures forall s | s in specs :: Accepted(s) <==> Fits(s)
  {
  }

  lemma AllLinkedAny(links: map<ComponentSpec, Dict<Id, Grouping>>, names: Naming, specs: map<string, ComponentSpec>)
    requires forall s | s in links :: WellLinked(Cleaned(links[s], names, specs).0, links[s], names, specs)
    ensures forall s | s in links :: links[s] != [] ==> Cleaned(links[s], names, specs).0 != []
  {
  }

  lemma AllLinked(links: map<ComponentSpec, Dict<Id, Grouping>>, names: Naming, specs: map<string, ComponentSpec>)
    requires NamedBy(specs, names)
    requires forall s | s in links :: DistinctKeys(links[s]) && Cleaned(links[s], names, specs).1.None?
    ensures forall s | s in links :: WellLinked(Cleaned(links[s], names, specs).0, links[s], names, specs)
  {
    forall s | s in links
      ensures WellLinked(Cleaned(links[s], names, specs).0, links[s], names, specs)
    {
      CleanedIsLinked(links[s], names, specs);
    }
  }

  lemma HasSpouts(spouts: map<string, ComponentSpec>, specs: map<string, ComponentSpec>)
    requires Registers(spouts, specs.Values, specs, Spout)
    ensures spouts != map[] <==> exists s | s in specs.Values :: s.kind == Spout
  {
    if s :| s in specs.Values && s.kind == Spout {
      var n :| n in specs && specs[n] == s;
      assert n in spouts;
    }
    if spouts != map[] {
      var n :| n in spouts;
      assert specs[n] in specs.Values;
    }
  }

  // ---- errors, spelled out ----

  /** A link to a component or stream that is not declared is a KeyError, one that stands but for a grouping field
      that its stream does not have a ValueError. */
  lemma CheckIs(to: Id, grouping: Grouping, specs: map<string, ComponentSpec>)
    ensures
      var declared := to.component.Named? && to.component.name in specs
        && to.stream in specs[to.component.name].outputs;
      && (Check(to, grouping, specs) == Some(KeyError) <==> !declared)
      && (Check(to, grouping, specs) == Some(ValueError) <==> declared && !Good(to, grouping, specs))
      && Check(to, grouping, specs) != Some(TypeError)
  {
  }

  /** The first link that cannot stand decides the error; a key without a component is a TypeError. */
  lemma {:induction false} CleanErrorIs(d: Dict<Id, Grouping>, moves: seq<Move<Id, Grouping>>, i: nat,
                                        specs: map<string, ComponentSpec>)
    requires i < |moves|
    requires forall j | 0 <= j < i :: !moves[j].from.component.Missing? && Good(moves[j].to, moves[j].value, specs)
    ensures moves[i].from.component.Missing? ==> Clean(d, moves, specs).1 == Some(TypeError)
    ensures !moves[i].from.component.Missing? && !Good(moves[i].to, moves[i].value, specs) ==>
      Clean(d, moves, specs).1 == Check(moves[i].to, moves[i].value, specs)
    decreases i
  {
    hide Step;
    GoodIffUnchecked(moves[0].to, moves[0].value, specs);
    if i > 0 {
      CleanErrorIs(Step(d, moves[0]), moves[1..], i - 1, specs);
    }
  }

  /** A spec is replaced by the name it bears, with the stream unchanged; any other key stays. */
  lemma LinkedIs(id: Id, names: Naming, name: string)
    ensures Linked(id, names) == Id(Named(name), id.stream) <==>
      || id.component == Named(name)
      || (id.component.Object? && id.component.spec in names && names[id.component.spec] == Some(name))
    ensures Linked(id, names).stream == id.stream
  {
  }
}
