/** No tuple is lost and none is resolved twice: conservation over whole runs of `BatchingBolt`. */
module BatchAccounting {
  import opened Options
  import opened BatchSpec

  /** How many of these tuples carry the id x. */
  function Times(tups: seq<Tup>, x: Id): nat {
    if tups == [] then 0 else (if tups[0].id == x then 1 else 0) + Times(tups[1..], x)
  }

  /** How many tuples with id x wait in `_batches`. */
  function Pending(b: seq<Entry>, x: Id): nat {
    if b == [] then 0 else Times(b[0].tups, x) + Pending(b[1..], x)
  }

  function Count(log: seq<Event>, e: Event): nat {
    multiset(log)[e]
  }

  /** How often x was read, as data or as a tick. */
  function Reads(log: seq<Event>, x: Id): nat {
    Count(log, Data(x)) + Count(log, Tick(x))
  }

  function Answered(log: seq<Event>, x: Id): nat {
    Count(log, Ack(x)) + Count(log, Fail(x))
  }

  // ---- what scripts add to the counts ----

  lemma {:induction false} TimesConcat(a: seq<Tup>, b: seq<Tup>, x: Id)
    ensures Times(a + b, x) == Times(a, x) + Times(b, x)
  {
    if a == [] {
      assert a + b == b;
    } else {
      assert (a + b)[1..] == a[1..] + b;
      TimesConcat(a[1..], b, x);
    }
  }

  lemma {:induction false} TimesIn(tups: seq<Tup>, x: Id)
    ensures Times(tups, x) > 0 <==> x in Ids(tups)
  {
    if tups != [] {
      TimesIn(tups[1..], x);
      assert tups == [tups[0]] + tups[1..];
    }
  }

  lemma {:induction false} PendingConcat(a: seq<Entry>, b: seq<Entry>, x: Id)
    ensures Pending(a + b, x) == Pending(a, x) + Pending(b, x)
  {
    if a == [] {
      assert a + b == b;
    } else {
      assert (a + b)[1..] == a[1..] + b;
      PendingConcat(a[1..], b, x);
    }
  }

  /** Replacing the list under a key changes the pending count by the difference. */
  lemma PendingPut(b: seq<Entry>, k: Key, tups: seq<Tup>, x: Id)
    ensures Pending(Put(b, k, tups), x) == Pending(b, x) - Times(Lookup(b, k), x) + Times(tups, x)
  {
    var i := Find(b, k);
    if i < |b| {
      assert b == b[..i] + ([b[i]] + b[i + 1..]);
      assert Put(b, k, tups) == b[..i] + ([Entry(k, tups)] + b[i + 1..]);
      PendingConcat(b[..i], [b[i]] + b[i + 1..], x);
      PendingConcat(b[..i], [Entry(k, tups)] + b[i + 1..], x);
    } else {
      PendingConcat(b, [Entry(k, tups)], x);
    }
  }

  lemma CountConcat(a: seq<Event>, b: seq<Event>, e: Event)
    ensures Count(a + b, e) == Count(a, e) + Count(b, e)
  {
  }

  lemma {:induction false} AcksCount(tups: seq<Tup>, x: Id)
    ensures Count(Acks(tups), Ack(x)) == Times(tups, x)
    ensures Count(Acks(tups), Data(x)) == Count(Acks(tups), Tick(x)) == Count(Acks(tups), Fail(x)) == 0
  {
    if tups == [] {
      assert Acks(tups) == [];
    } else {
      assert Acks(tups) == [Ack(tups[0].id)] + Acks(tups[1..]);
      AcksCount(tups[1..], x);
    }
  }

  lemma {:induction false} FailsCount(tups: seq<Tup>, x: Id)
    ensures Count(Fails(tups), Fail(x)) == Times(tups, x)
    ensures Count(Fails(tups), Data(x)) == Count(Fails(tups), Tick(x)) == Count(Fails(tups), Ack(x)) == 0
  {
    if tups == [] {
      assert Fails(tups) == [];
    } else {
      assert Fails(tups) == [Fail(tups[0].id)] + Fails(tups[1..]);
      FailsCount(tups[1..], x);
    }
  }

  /** A script that the pipe takes is appended to the trace as it stands. */
  lemma {:induction false} PlayAppends(log: seq<Event>, room: nat, script: seq<Event>)
    ensures Play(log, room, script).ok ==> Play(log, room, script).log == log + script
    decreases |script|
  {
    if script != [] && (!IsMessage(script[0]) || room > 0) {
      PlayAppends(log + [script[0]], if IsMessage(script[0]) then room - 1 else room, script[1..]);
      assert log + [script[0]] + script[1..] == log + script;
    }
  }

  /** A script that the pipe may cut adds to a trace nothing but some of its events. */
  lemma {:induction false} PlayAddsFrom(log: seq<Event>, room: nat, script: seq<Event>)
    ensures forall e | e in Play(log, room, script).log :: e in log || e in script
    decreases |script|
  {
    if script != [] && (!IsMessage(script[0]) || room > 0) {
      PlayAddsFrom(log + [script[0]], if IsMessage(script[0]) then room - 1 else room, script[1..]);
      assert script == [script[0]] + script[1..];
    }
  }

  /** The batches that a flush completes. */
  function Completed(b: seq<Entry>, fault: Fault): nat
    ensures Completed(b, fault) <= |b|
  {
    if FaultIn(b, fault) then fault.index else |b|
  }

  /** A flush acks exactly the tuples of the batches it completes. */
  lemma {:induction false} FlushCount(cfg: Config, b: seq<Entry>, fault: Fault, i: nat, x: Id)
    requires cfg.autoAck && i <= Completed(b, fault)
    ensures Count(FlushScript(cfg, b, fault, i), Ack(x)) == Pending(b[i..Completed(b, fault)], x)
    ensures
      var script := FlushScript(cfg, b, fault, i);
      Count(script, Data(x)) == Count(script, Tick(x)) == Count(script, Fail(x)) == 0
    decreases |b| - i
  {
    hide Count, Acks, Times;
    var n := Completed(b, fault);
    if i < n {
      var call, acks, later := [Batch(b[i].key, b[i].tups)], Acks(b[i].tups), FlushScript(cfg, b, fault, i + 1);
      FlushCount(cfg, b, fault, i + 1, x);
      AcksCount(b[i].tups, x);
      assert b[i..n][1..] == b[i + 1..n];
      forall e | e in {Ack(x), Data(x), Tick(x), Fail(x)}
        ensures Count(call + acks + later, e) == Count(acks, e) + Count(later, e)
      {
        CountConcat(call + acks, later, e);
        CountConcat(call, acks, e);
        CallCount(b[i].key, b[i].tups, e);
      }
    } else {
      NothingCounted(cfg, b, fault, x);
    }
  }

  lemma CallCount(key: Key, tups: seq<Tup>, e: Event)
    requires !e.Batch?
    ensures Count([Batch(key, tups)], e) == 0
  {
  }

  /** Once the completed batches are through, a call that raises is all that is left. */
  lemma NothingCounted(cfg: Config, b: seq<Entry>, fault: Fault, x: Id)
    ensures
      var script := FlushScript(cfg, b, fault, Completed(b, fault));
      Count(script, Ack(x)) == Count(script, Data(x)) == Count(script, Tick(x)) == Count(script, Fail(x)) == 0
  {
  }

  // ---- the invariant of the run loop ----

  /** Every tuple read so far with id x was acked, was failed, or waits in a batch: as many times as it was
      read, no more and no less. */
  predicate Conserved(log: seq<Event>, pending: nat, x: Id) {
    Reads(log, x) == Answered(log, x) + pending
  }

  /** No two data tuples read share an id. */
  ghost predicate DistinctData(log: seq<Event>) {
    forall x :: Count(log, Data(x)) <= 1
  }

  predicate DefaultFlags(cfg: Config) {
    cfg.autoAck && cfg.autoFail
  }

  /** What holds for one id at the head of the run loop. */
  predicate HeldFor(s: State, x: Id) {
    && Conserved(s.log, Pending(s.batches, x), x)
    && Pending(s.batches, x) <= Count(s.log, Data(x))
    && Count(s.log, Tick(x)) <= Count(s.log, Ack(x))
  }

  /** Nothing is owed beyond what is pending. */
  ghost predicate Settled(s: State) {
    UniqueKeys(s.batches) && forall x :: HeldFor(s, x)
  }

  ghost predicate LoopHead(cfg: Config, s: State) {
    Settled(s) && (cfg.exitOnException ==> s.current == [])
  }

  /** No current tuple lies outside the batches that the handler would wipe out: its guard `tup.id not in failed`
      fails for each of them. */
  predicate FindsAll(cfg: Config, s: State) {
    NotIn(s.current, Ids(Wiped(cfg, s.batches, s.key, 0))) == []
  }

  /** `group_key` raised on a data tuple. */
  predicate KeyRaised(turn: Turn) {
    turn.read.Got? && Arrival(turn.read.tup).Data? && turn.key == KeyRaises(Ordinary)
  }

  /** And the logger then kept that from the handler. */
  predicate Muffled(turn: Turn) {
    KeyRaised(turn) && turn.loggerRaises
  }

  /** A read raises, the exception is handled, and the handler finds every tuple that is still current. */
  predicate FindsAllIn(cfg: Config, s: State, turn: Turn) {
    turn.read.Malformed? && !turn.loggerRaises ==> FindsAll(cfg, s)
  }

  /** Pending tuples with id x that the handler is about to fail, plus current ones outside any wiped batch. */
  function Leftover(cfg: Config, s: State, x: Id): nat {
    Times(NotIn(s.current, Ids(Wiped(cfg, s.batches, s.key, 0))), x)
  }

  /** What holds for one id when an exception has left `_run`: current tuples outside every wiped batch are
      owed on top of the pending ones. */
  predicate OwedFor(cfg: Config, s: State, x: Id) {
    && Conserved(s.log, Pending(s.batches, x) + Leftover(cfg, s, x), x)
    && Pending(s.batches, x) <= Count(s.log, Data(x))
    && Count(s.log, Tick(x)) <= Count(s.log, Ack(x))
  }

  ghost predicate Interrupted(cfg: Config, s: State) {
    UniqueKeys(s.batches) && forall x :: OwedFor(cfg, s, x)
  }

  // ---- the handler ----

  lemma {:induction false} WipedAll(cfg: Config, b: seq<Entry>, key: Key, i: nat, x: Id)
    requires cfg.exitOnException && i <= |b|
    ensures Times(Wiped(cfg, b, key, i), x) == Pending(b[i..], x)
    decreases |b| - i
  {
    if i < |b| {
      WipedAll(cfg, b, key, i + 1, x);
      TimesConcat(b[i].tups, Wiped(cfg, b, key, i + 1), x);
      assert b[i..][1..] == b[i + 1..];
    }
  }

  lemma {:induction false} WipedOne(cfg: Config, b: seq<Entry>, key: Key, i: nat)
    requires !cfg.exitOnException && UniqueKeys(b) && i <= |b|
    ensures Wiped(cfg, b, key, i) == if i <= Find(b, key) < |b| then Lookup(b, key) else []
    decreases |b| - i
  {
    hide Wiped, Find, UniqueKeys;
    WipedNext(cfg, b, key, i);
    if i < |b| {
      var later := Wiped(cfg, b, key, i + 1);
      WipedOne(cfg, b, key, i + 1);
      KeyAtFind(b, key, i);
      assert [] + later == later;
      assert b[i].tups + [] == b[i].tups;
    }
  }

  lemma WipedNext(cfg: Config, b: seq<Entry>, key: Key, i: nat)
    requires i <= |b|
    ensures Wiped(cfg, b, key, i) ==
      if i == |b| then []
      else (if cfg.exitOnException || b[i].key == key then b[i].tups else []) + Wiped(cfg, b, key, i + 1)
  {
  }

  lemma KeyAtFind(b: seq<Entry>, key: Key, i: nat)
    requires UniqueKeys(b) && i < |b|
    ensures b[i].key == key <==> i == Find(b, key)
  {
    assert Find(b, key) < |b| ==> b[Find(b, key)].key == key;
  }

  lemma UniquePut(b: seq<Entry>, k: Key, tups: seq<Tup>)
    requires UniqueKeys(b)
    ensures UniqueKeys(Put(b, k, tups))
  {
  }

  lemma {:induction false} HandlerCount(cfg: Config, s: State, x: Id)
    requires cfg.autoFail
    ensures
      var script := HandlerScript(cfg, s);
      && Count(script, Fail(x)) == Times(Wiped(cfg, s.batches, s.key, 0), x) + Leftover(cfg, s, x)
      && Count(script, Data(x)) == Count(script, Tick(x)) == Count(script, Ack(x)) == 0
  {
    hide Wiped, NotIn, Times, Fails, Count;
    var wiped := Wiped(cfg, s.batches, s.key, 0);
    var left := NotIn(s.current, Ids(wiped));
    FailsCount(wiped, x);
    FailsCount(left, x);
    forall e | e in {Fail(x), Data(x), Tick(x), Ack(x)}
      ensures Count([Error, Sync] + (Fails(wiped) + Fails(left)), e) == Count(Fails(wiped), e) + Count(Fails(left), e)
    {
      CountConcat(Fails(wiped), Fails(left), e);
      CountConcat([Error, Sync], Fails(wiped) + Fails(left), e);
      assert Count([Error, Sync], e) == 0 by {
        NoSuch(e);
      }
    }
  }

  lemma NoSuch(e: Event)
    requires !e.Error? && !e.Sync?
    ensures Count([Error, Sync], e) == 0
  {
  }

  lemma HandlerSettlesFor(cfg: Config, s: State, x: Id)
    requires cfg.autoFail && UniqueKeys(s.batches) && OwedFor(cfg, s, x)
    ensures
      var log := s.log + HandlerScript(cfg, s);
      var pending := Pending(Put(s.batches, s.key, []), x);
      && Conserved(log, if cfg.exitOnException then 0 else pending, x)
      && pending <= Count(log, Data(x))
      && Count(log, Tick(x)) <= Count(log, Ack(x))
  {
    HandlerCount(cfg, s, x);
    PendingPut(s.batches, s.key, [], x);
    if cfg.exitOnException {
      WipedAll(cfg, s.batches, s.key, 0, x);
    } else {
      WipedOne(cfg, s.batches, s.key, 0);
    }
  }

  /** The handler fails what is owed and nothing else: everything when the process exits, and otherwise the
      batch under `_current_key`, whose tuples stop being pending. */
  lemma HandlerSettles(cfg: Config, s: State)
    requires cfg.autoFail && Interrupted(cfg, s)
    requires Handle(cfg, s).Ok?
    ensures
      var s1 := Handle(cfg, s).state;
      && UniqueKeys(s1.batches) && s1.key == None
      && (!cfg.exitOnException ==> LoopHead(cfg, s1))
      && (cfg.exitOnException ==>
        forall x :: Conserved(s1.log, 0, x) && Count(s1.log, Tick(x)) <= Count(s1.log, Ack(x)))
  {
    PlayAppends(s.log, s.room, HandlerScript(cfg, s));
    UniquePut(s.batches, s.key, []);
    forall x
      ensures OwedFor(cfg, s, x)
    {
    }
    forall x
      ensures
        var s1 := Handle(cfg, s).state;
        && Conserved(s1.log, if cfg.exitOnException then 0 else Pending(s1.batches, x), x)
        && Pending(s1.batches, x) <= Count(s1.log, Data(x)) && Count(s1.log, Tick(x)) <= Count(s1.log, Ack(x))
    {
      HandlerSettlesFor(cfg, s, x);
    }
  }

  // ---- one pass ----

  lemma {:induction false} NoneLeft(tups: seq<Tup>, failed: set<Id>)
    requires Ids(tups) <= failed
    ensures NotIn(tups, failed) == []
  {
    if tups != [] {
      assert tups[0].id in Ids(tups);
      assert forall t | t in tups[1..] :: t in tups;
      NoneLeft(tups[1..], failed);
    }
  }

  lemma {:induction false} SuffixPending(a: seq<Entry>, b: seq<Entry>, n: nat, x: Id)
    requires |a| == |b| && n <= |b|
    requires forall i | 0 <= i < |b| :: a[i].tups == if i < n then [] else b[i].tups
    ensures Pending(a, x) == Pending(b[n..], x)
  {
    if b != [] {
      SuffixPending(a[1..], b[1..], if n == 0 then 0 else n - 1, x);
      assert n > 0 ==> b[1..][n - 1..] == b[n..];
      assert b[0..] == b && b[1..][0..] == b[1..];
    }
  }

  lemma {:induction false} WipedContains(cfg: Config, b: seq<Entry>, key: Key, i: nat, j: nat)
    requires i <= j < |b| && (cfg.exitOnException || b[j].key == key)
    ensures Ids(b[j].tups) <= Ids(Wiped(cfg, b, key, i))
    decreases j - i
  {
    var wiped := Wiped(cfg, b, key, i);
    if i < j {
      WipedContains(cfg, b, key, i + 1, j);
      assert forall t | t in Wiped(cfg, b, key, i + 1) :: t in wiped;
    } else {
      assert forall t | t in b[j].tups :: t in wiped;
    }
  }

  lemma FlushCounts(cfg: Config, s: State, fault: Fault, x: Id)
    requires cfg.autoAck && HeldFor(s, x)
    ensures
      var log := s.log + FlushScript(cfg, s.batches, fault, 0);
      var pending := Pending(s.batches[Completed(s.batches, fault)..], x);
      && Conserved(log, pending, x)
      && pending <= Count(log, Data(x))
      && Count(log, Tick(x)) <= Count(log, Ack(x))
  {
    hide FlushScript;
    var n := Completed(s.batches, fault);
    FlushCount(cfg, s.batches, fault, 0, x);
    assert s.batches[0..n] + s.batches[n..] == s.batches;
    PendingConcat(s.batches[0..n], s.batches[n..], x);
  }

  /** A flush moves tuples from pending to acked; interrupted, it leaves the batch that raised, and the
      later ones, pending, and the handler's leftover empty. */
  lemma FlushSettles(cfg: Config, s: State, fault: Fault)
    requires cfg.autoAck && Settled(s)
    ensures match Flush(cfg, s, fault)
      case Ok(s1) => Settled(s1) && s1.batches == []
      case Raised(s1) => Settled(s1) && Interrupted(cfg, s1)
      case Gone(_) => true
  {
    var b := s.batches;
    var n := Completed(b, fault);
    PlayAppends(s.log, s.room, FlushScript(cfg, b, fault, 0));
    EmptiedInPlace(b, n);
    if FaultIn(b, fault) {
      WipedContains(cfg, Emptied(b, n), b[n].key, 0, n);
      NoneLeft(b[n].tups, Ids(Wiped(cfg, Emptied(b, n), b[n].key, 0)));
    }
    var r := Flush(cfg, s, fault);
    forall x
      ensures !r.Gone? ==> HeldFor(r.state, x)
      ensures r.Raised? ==> OwedFor(cfg, r.state, x)
    {
      assert HeldFor(s, x);
      FlushCounts(cfg, s, fault, x);
      SuffixPending(Emptied(b, n), b, n, x);
    }
  }

  /** Any further progress that sends nothing but acks of ticks read keeps the books. */
  lemma TickAcked(s: State, x: Id, id: Id)
    requires HeldFor(s, x)
    ensures HeldFor(s.(log := s.log + [Tick(id)] + [Ack(id)]), x)
  {
  }

  lemma SameBooks(s: State, s1: State)
    requires Settled(s) && s1.batches == s.batches && s1.log == s.log
    ensures Settled(s1)
  {
    forall x
      ensures HeldFor(s1, x)
    {
      assert HeldFor(s, x);
    }
  }

  lemma TickSettles(cfg: Config, s: State, t: Tup, fault: Fault)
    requires cfg.autoAck && Settled(s)
    ensures match ProcessTick(cfg, s.(current := [t], log := s.log + [Tick(t.id)]), t, fault)
      case Ok(s1) => Settled(s1)
      case Raised(s1) => Settled(s1) && Interrupted(cfg, s1)
      case Gone(_) => true
  {
    hide Play;
    hide FlushScript;
    var s1 := s.(current := [t], log := s.log + [Tick(t.id)]);
    var p := Play(s1.log, s1.room, [Ack(t.id)]);
    PlayAppends(s1.log, s1.room, [Ack(t.id)]);
    if p.ok {
      var s2 := s1.(ticks := s1.ticks + 1, log := p.log, room := p.room);
      forall x
        ensures HeldFor(s2, x)
      {
        TickAcked(s, x, t.id);
      }
      FlushSettles(cfg, s2, fault);
      var r := Flush(cfg, s2, fault);
      if r.Ok? {
        SameBooks(r.state, r.state.(ticks := 0));
      }
    }
  }

  /** Filing a tuple makes it pending. */
  lemma FilingSettles(s: State, t: Tup, k: Key)
    requires Settled(s)
    ensures
      var tups := Lookup(s.batches, k) + [t];
      Settled(s.(batches := Put(s.batches, k, tups), current := [t], log := s.log + [Data(t.id)] + [Keyed(t, k)]))
  {
    var tups := Lookup(s.batches, k) + [t];
    UniquePut(s.batches, k, tups);
    forall x
      ensures
        var log := s.log + [Data(t.id)] + [Keyed(t, k)];
        HeldFor(s.(batches := Put(s.batches, k, tups), current := [t], log := log), x)
    {
      assert HeldFor(s, x);
      PendingPut(s.batches, k, tups, x);
      TimesConcat(Lookup(s.batches, k), [t], x);
    }
  }

  lemma NotWiped(cfg: Config, b: seq<Entry>, key: Key, x: Id)
    requires UniqueKeys(b) && Pending(b, x) == 0
    ensures x !in Ids(Wiped(cfg, b, key, 0))
  {
    if cfg.exitOnException {
      WipedAll(cfg, b, key, 0, x);
      assert b[0..] == b;
    } else {
      WipedOne(cfg, b, key, 0);
      PendingPut(b, key, [], x);
    }
    TimesIn(Wiped(cfg, b, key, 0), x);
  }

  /** A raising `group_key` leaves the tuple to the handler, which will not take it for one of the pending
      tuples because its id is new. */
  lemma RaisingKeySettles(cfg: Config, s: State, t: Tup)
    requires Settled(s) && DistinctData(s.log + [Data(t.id)])
    ensures Interrupted(cfg, s.(current := [t], log := s.log + [Data(t.id)]))
  {
    var s1 := s.(current := [t], log := s.log + [Data(t.id)]);
    assert Count(s1.log, Data(t.id)) <= 1 && HeldFor(s, t.id);
    NotWiped(cfg, s.batches, s.key, t.id);
    assert NotIn([t], Ids(Wiped(cfg, s.batches, s.key, 0))) == [t] + NotIn([], Ids(Wiped(cfg, s.batches, s.key, 0)));
    forall x
      ensures OwedFor(cfg, s1, x)
    {
      assert HeldFor(s, x);
      assert Leftover(cfg, s1, x) == Times([t], x);
    }
  }

  lemma {:induction false} BeatSettles(s: State, t: Tup)
    requires Settled(s) && IsHeartbeat(t)
    ensures
      var p := Play(s.log + [Beat], s.room, [Sync]);
      p.ok ==> Settled(s.(current := [t], log := p.log, room := p.room))
  {
    hide Play;
    var p := Play(s.log + [Beat], s.room, [Sync]);
    PlayAppends(s.log + [Beat], s.room, [Sync]);
    forall x
      ensures p.ok ==> HeldFor(s.(current := [t], log := p.log, room := p.room), x)
    {
      assert HeldFor(s, x);
    }
  }

  lemma MalformedSettles(cfg: Config, s: State)
    requires Settled(s) && FindsAll(cfg, s)
    ensures Interrupted(cfg, s)
  {
    forall x
      ensures OwedFor(cfg, s, x)
    {
      assert HeldFor(s, x);
    }
  }

  /** `_run` keeps the books, or leaves the handler what it owes; unless `group_key` raised, they are right even
      without the handler. */
  lemma RunOnceSettles(cfg: Config, s: State, turn: Turn)
    requires DefaultFlags(cfg) && LoopHead(cfg, s)
    requires DistinctData(s.log + if turn.read.Got? then [Arrival(turn.read.tup)] else [])
    ensures match RunOnce(cfg, s, turn)
      case Ok(s1) => LoopHead(cfg, s1)
      case Raised(s1) =>
        && !turn.read.AtEnd? && (turn.read.Malformed? ==> s1 == s)
        && (turn.read.Got? || FindsAll(cfg, s) ==> Interrupted(cfg, s1))
        && (!KeyRaised(turn) ==> Settled(s1))
      case Gone(_) => true
  {
    hide Play, Process, ProcessTick, Settled, Interrupted, DistinctData, FindsAll;
    if turn.read.Malformed? {
      if FindsAll(cfg, s) {
        MalformedSettles(cfg, s);
      }
    } else if turn.read.Got? {
      var t := turn.read.tup;
      if IsHeartbeat(t) {
        BeatSettles(s, t);
        var p := Play(s.log + [Beat], s.room, [Sync]);
        CurrentCleared(Ok(s.(current := [t], log := p.log, room := p.room)));
      } else if IsTick(t) {
        TickSettles(cfg, s, t, turn.fault);
        CurrentCleared(ProcessTick(cfg, s.(current := [t], log := s.log + [Tick(t.id)]), t, turn.fault));
      } else {
        FilingOrRaising(cfg, s, t, turn.key);
        CurrentCleared(Process(s.(current := [t], log := s.log + [Data(t.id)]), t, turn.key));
      }
    }
  }

  lemma FilingOrRaising(cfg: Config, s: State, t: Tup, key: KeyOutcome)
    requires DefaultFlags(cfg) && LoopHead(cfg, s) && DistinctData(s.log + [Data(t.id)])
    ensures match Process(s.(current := [t], log := s.log + [Data(t.id)]), t, key)
      case Ok(s1) => Settled(s1)
      case Raised(s1) => Interrupted(cfg, s1) && key == KeyRaises(Ordinary)
      case Gone(_) => true
  {
    hide Settled, Interrupted, DistinctData, Put, Lookup;
    if key.Returns? {
      FilingSettles(s, t, key.key);
    } else {
      RaisingKeySettles(cfg, s, t);
    }
  }

  lemma FindsAllWhenNone(cfg: Config, s: State)
    requires s.current == []
    ensures FindsAll(cfg, s)
  {
  }

  /** One pass of the run loop keeps the books; leaving with status 1 after the handler, it closes them. */
  lemma PassSettles(cfg: Config, s: State, turn: Turn)
    requires DefaultFlags(cfg) && LoopHead(cfg, s)
    requires cfg.exitOnException || (FindsAllIn(cfg, s, turn) && !Muffled(turn))
    requires DistinctData(s.log + if turn.read.Got? then [Arrival(turn.read.tup)] else [])
    ensures match Pass(cfg, s, turn)
      case Running(s1) => LoopHead(cfg, s1)
      case Exited(status, handled, log) =>
        status == 1 && handled ==>
          forall x :: Conserved(log, 0, x) && Count(log, Tick(x)) <= Count(log, Ack(x))
  {
    hide RunOnce, Handle, Settled, Interrupted, Conserved, Count, FindsAll, DistinctData;
    if cfg.exitOnException {
      FindsAllWhenNone(cfg, s);
    }
    RunOnceSettles(cfg, s, turn);
    var r := RunOnce(cfg, s, turn);
    if r.Raised? && !turn.loggerRaises {
      HandlerSettlesWhenOk(cfg, r.state);
    }
  }

  lemma HandlerSettlesWhenOk(cfg: Config, s: State)
    requires cfg.autoFail && Interrupted(cfg, s)
    ensures Handle(cfg, s).Ok? ==>
      var s1 := Handle(cfg, s).state;
      && (!cfg.exitOnException ==> LoopHead(cfg, s1))
      && (cfg.exitOnException ==>
        forall x :: Conserved(s1.log, 0, x) && Count(s1.log, Tick(x)) <= Count(s1.log, Ack(x)))
  {
    if Handle(cfg, s).Ok? {
      HandlerSettles(cfg, s);
    }
  }

  /** `_run` clears the current tuples on the way out. */
  lemma CurrentCleared(r: Result)
    ensures r.Ok? && Settled(r.state) ==> Settled(r.state.(current := []))
  {
    if r.Ok? && Settled(r.state) {
      SameBooks(r.state, r.state.(current := []));
    }
  }

  // ---- whole runs ----

  function LogOf(p: Worker): seq<Event> {
    if p.Running? then p.state.log else p.log
  }

  function ResultLog(r: Result): seq<Event> {
    if r.Gone? then r.log else r.state.log
  }

  lemma {:induction false} PlayExtends(log: seq<Event>, room: nat, script: seq<Event>)
    ensures log <= Play(log, room, script).log
    decreases |script|
  {
    if script != [] && (!IsMessage(script[0]) || room > 0) {
      PlayExtends(log + [script[0]], if IsMessage(script[0]) then room - 1 else room, script[1..]);
    }
  }

  lemma FlushExtends(cfg: Config, s: State, fault: Fault)
    ensures s.log <= ResultLog(Flush(cfg, s, fault))
  {
    PlayExtends(s.log, s.room, FlushScript(cfg, s.batches, fault, 0));
  }

  /** The trace only grows, starting with what was read. */
  lemma PassExtends(cfg: Config, s: State, turn: Turn)
    ensures s.log + (if turn.read.Got? then [Arrival(turn.read.tup)] else []) <= LogOf(Pass(cfg, s, turn))
  {
    hide Play;
    hide FlushScript;
    var r := RunOnce(cfg, s, turn);
    if turn.read.Got? {
      var t := turn.read.tup;
      var s1 := s.(current := [t], log := s.log + [Arrival(t)]);
      PlayExtends(s1.log, s1.room, [Sync]);
      PlayExtends(s1.log, s1.room, [Ack(t.id)]);
      var p := Play(s1.log, s1.room, [Ack(t.id)]);
      FlushExtends(cfg, s1.(ticks := s1.ticks + 1, log := p.log, room := p.room), turn.fault);
    }
    if r.Raised? {
      PlayExtends(r.state.log, r.state.room, HandlerScript(cfg, r.state));
    }
  }

  lemma DistinctPrefix(a: seq<Event>, b: seq<Event>)
    requires a <= b && DistinctData(b)
    ensures DistinctData(a)
  {
    assert b == a + b[|a|..];
    forall x
      ensures Count(a, Data(x)) <= 1
    {
      assert Count(b, Data(x)) == Count(a, Data(x)) + Count(b[|a|..], Data(x));
    }
  }

  /** Whenever a handled exception came from a read, the handler found every tuple still current. */
  predicate MalformedFindAll(cfg: Config, room: nat, turns: seq<Turn>) {
    turns == [] ||
    var p := Run(cfg, room, turns[..|turns| - 1]);
    && MalformedFindAll(cfg, room, turns[..|turns| - 1])
    && (p.Running? ==> FindsAllIn(cfg, p.state, turns[|turns| - 1]))
  }

  predicate NoneMuffled(turns: seq<Turn>) {
    forall turn | turn in turns :: !Muffled(turn)
  }

  /** What the bolt relies on without `exit_on_exception`. */
  predicate CalmInput(cfg: Config, room: nat, turns: seq<Turn>) {
    cfg.exitOnException || (NoneMuffled(turns) && MalformedFindAll(cfg, room, turns))
  }

  lemma {:induction false} RunSettles(cfg: Config, room: nat, turns: seq<Turn>)
    requires DefaultFlags(cfg) && CalmInput(cfg, room, turns)
    requires DistinctData(LogOf(Run(cfg, room, turns)))
    ensures match Run(cfg, room, turns)
      case Running(s) => LoopHead(cfg, s)
      case Exited(status, handled, log) =>
        status == 1 && handled ==>
          forall x :: Conserved(log, 0, x) && Count(log, Tick(x)) <= Count(log, Ack(x))
  {
    if turns == [] {
      assert forall x :: HeldFor(Initial.(room := room), x);
    } else {
      var before, turn := turns[..|turns| - 1], turns[|turns| - 1];
      var p := Run(cfg, room, before);
      if p.Running? {
        var seen := p.state.log + if turn.read.Got? then [Arrival(turn.read.tup)] else [];
        PassExtends(cfg, p.state, turn);
        DistinctPrefix(seen, LogOf(Run(cfg, room, turns)));
        DistinctPrefix(p.state.log, seen);
        RunSettles(cfg, room, before);
        PassSettles(cfg, p.state, turn);
      } else {
        RunSettles(cfg, room, before);
      }
    }
  }

  /** Whenever `run` leaves with status 1 after a handler that did not raise, every tuple that was read has
      been answered: in total as often as it was read, a data tuple by one ack or one fail and never both, a
      tick by an ack. This holds wherever the exception arose. */
  lemma ExitAccounting(cfg: Config, room: nat, turns: seq<Turn>, log: seq<Event>)
    requires DefaultFlags(cfg) && cfg.exitOnException
    requires Run(cfg, room, turns) == Exited(1, true, log) && DistinctData(log)
    ensures forall x :: Count(log, Data(x)) + Count(log, Tick(x)) == Count(log, Ack(x)) + Count(log, Fail(x))
    ensures forall x | Data(x) in log && Tick(x) !in log :: Count(log, Ack(x)) + Count(log, Fail(x)) == 1
    ensures forall x | Data(x) !in log :: Count(log, Ack(x)) == Count(log, Tick(x)) && Fail(x) !in log
  {
    RunSettles(cfg, room, turns);
    forall x
      ensures Conserved(log, 0, x) && Count(log, Tick(x)) <= Count(log, Ack(x)) && Count(log, Data(x)) <= 1
    {
    }
  }

  /** With `exit_on_exception` off, at every head of the loop the data tuples read are split between acked,
      failed and pending, each exactly once. */
  lemma PendingAccounting(cfg: Config, room: nat, turns: seq<Turn>, s: State)
    requires DefaultFlags(cfg) && !cfg.exitOnException && CalmInput(cfg, room, turns)
    requires Run(cfg, room, turns) == Running(s) && DistinctData(s.log)
    ensures forall x :: Conserved(s.log, Pending(s.batches, x), x)
    ensures forall x | Data(x) in s.log && Tick(x) !in s.log ::
      Count(s.log, Ack(x)) + Count(s.log, Fail(x)) + Pending(s.batches, x) == 1
    ensures forall x | Data(x) !in s.log ::
      Count(s.log, Ack(x)) == Count(s.log, Tick(x)) && Fail(x) !in s.log && Pending(s.batches, x) == 0
  {
    RunSettles(cfg, room, turns);
    forall x
      ensures HeldFor(s, x) && Count(s.log, Data(x)) <= 1
    {
    }
  }

  // ---- one failing batch, and what the code does not promise ----

  lemma {:induction false} FindAt(b: seq<Entry>, i: nat)
    requires UniqueKeys(b) && i < |b|
    ensures Find(b, b[i].key) == i
  {
    assert b[Find(b, b[i].key)].key == b[i].key;
  }

  /** A tick whose flush raises at batch i, with `exit_on_exception` off: the batches before i are acked, the
      tuples of batch i are failed once, and the later batches stay pending under their keys, unanswered. */
  lemma FailingBatch(cfg: Config, s: State, turn: Turn, s1: State)
    requires DefaultFlags(cfg) && !cfg.exitOnException && UniqueKeys(s.batches) && !turn.loggerRaises
    requires turn.read.Got? && IsTick(turn.read.tup) && !IsHeartbeat(turn.read.tup)
    requires s.ticks + 1 > cfg.ticksBetweenBatches
    requires FaultIn(s.batches, turn.fault) && Pass(cfg, s, turn) == Running(s1)
    ensures
      var b, i := s.batches, turn.fault.index;
      && s1.ticks == s.ticks + 1 && UniqueKeys(s1.batches) && s1.batches != []
      && (forall j | 0 <= j < |b| :: Find(s1.batches, b[j].key) == j && |s1.batches| == |b|)
      && (forall j | 0 <= j < |b| :: Lookup(s1.batches, b[j].key) == if j <= i then [] else b[j].tups)
      && forall x ::
        && Count(s1.log, Ack(x)) == Count(s.log, Ack(x)) + (if turn.read.tup.id == x then 1 else 0) + Pending(b[..i], x)
        && Count(s1.log, Fail(x)) == Count(s.log, Fail(x)) + Times(b[i].tups, x)
  {
    hide Pass, Put, Emptied, Lookup, FlushScript, Fails, Count, Pending, Times;
    var b, i, t := s.batches, turn.fault.index, turn.read.tup;
    var flush, fails := FlushScript(cfg, b, turn.fault, 0), Fails(b[i].tups);
    FailingBatchTrace(cfg, s, turn, s1);
    FailingBatchStores(cfg, b, i);
    forall x
      ensures Count(s1.log, Ack(x)) == Count(s.log, Ack(x)) + (if t.id == x then 1 else 0) + Pending(b[..i], x)
      ensures Count(s1.log, Fail(x)) == Count(s.log, Fail(x)) + Times(b[i].tups, x)
    {
      FlushCount(cfg, b, turn.fault, 0, x);
      assert b[0..i] == b[..i];
      FailsCount(b[i].tups, x);
      TraceCount(s.log, t.id, flush, fails, Ack(x));
      TraceCount(s.log, t.id, flush, fails, Fail(x));
    }
  }

  lemma TraceCount(log: seq<Event>, id: Id, flush: seq<Event>, fails: seq<Event>, e: Event)
    requires e.Ack? || e.Fail?
    ensures Count(log + [Tick(id), Ack(id)] + flush + [Error, Sync] + fails, e) ==
            Count(log, e) + (if e == Ack(id) then 1 else 0) + Count(flush, e) + Count(fails, e)
  {
  }

  lemma FailingBatchTrace(cfg: Config, s: State, turn: Turn, s1: State)
    requires DefaultFlags(cfg) && !cfg.exitOnException && UniqueKeys(s.batches) && !turn.loggerRaises
    requires turn.read.Got? && IsTick(turn.read.tup) && !IsHeartbeat(turn.read.tup)
    requires s.ticks + 1 > cfg.ticksBetweenBatches
    requires FaultIn(s.batches, turn.fault) && Pass(cfg, s, turn) == Running(s1)
    ensures
      var b, i, id := s.batches, turn.fault.index, turn.read.tup.id;
      && s1.batches == Put(Emptied(b, i), b[i].key, []) && s1.ticks == s.ticks + 1 && s1.key == None
      && s1.log == s.log + [Tick(id), Ack(id)] + FlushScript(cfg, b, turn.fault, 0) + [Error, Sync] + Fails(b[i].tups)
  {
    hide Play;
    hide FlushScript;
    hide Put;
    hide RunOnce;
    var b, i := s.batches, turn.fault.index;
    TickRaises(cfg, s, turn);
    var broken := RunOnce(cfg, s, turn).state;
    FailingBatchStores(cfg, b, i);
    WipedOne(cfg, Emptied(b, i), b[i].key, 0);
    assert Fails([]) == [];
    assert HandlerScript(cfg, broken) == [Error, Sync] + Fails(b[i].tups);
    PlayAppends(broken.log, broken.room, HandlerScript(cfg, broken));
  }

  lemma TickRaises(cfg: Config, s: State, turn: Turn)
    requires turn.read.Got? && IsTick(turn.read.tup) && !IsHeartbeat(turn.read.tup)
    requires s.ticks + 1 > cfg.ticksBetweenBatches
    requires FaultIn(s.batches, turn.fault) && !RunOnce(cfg, s, turn).Gone?
    ensures
      var b, i, id, r := s.batches, turn.fault.index, turn.read.tup.id, RunOnce(cfg, s, turn);
      && r.Raised?
      && r.state.batches == Emptied(b, i) && r.state.current == b[i].tups && r.state.key == b[i].key
      && r.state.ticks == s.ticks + 1
      && r.state.log == s.log + [Tick(id), Ack(id)] + FlushScript(cfg, b, turn.fault, 0)
  {
    hide Play;
    hide FlushScript;
    hide Emptied;
    var b, t := s.batches, turn.read.tup;
    var read := s.(current := [t], log := s.log + [Tick(t.id)]);
    PlayAppends(read.log, read.room, [Ack(t.id)]);
    var p := Play(read.log, read.room, [Ack(t.id)]);
    PlayAppends(p.log, p.room, FlushScript(cfg, b, turn.fault, 0));
    assert read.log + [Ack(t.id)] == s.log + [Tick(t.id), Ack(t.id)];
  }

  /** The dictionary after the handler of a flush that raised at batch i. */
  lemma {:induction false} FailingBatchStores(cfg: Config, b: seq<Entry>, i: nat)
    requires UniqueKeys(b) && i < |b| && !cfg.exitOnException
    ensures
      var broken := Emptied(b, i);
      && UniqueKeys(broken)
      && Lookup(broken, b[i].key) == b[i].tups
      && NotIn(b[i].tups, Ids(Wiped(cfg, broken, b[i].key, 0))) == []
      && UniqueKeys(Put(broken, b[i].key, [])) && |Put(broken, b[i].key, [])| == |b|
      && (forall j | 0 <= j < |b| :: Find(Put(broken, b[i].key, []), b[j].key) == j)
      && forall j | 0 <= j < |b| :: Lookup(Put(broken, b[i].key, []), b[j].key) == if j <= i then [] else b[j].tups
  {
    var broken := Emptied(b, i);
    EmptiedInPlace(b, i);
    FindAt(broken, i);
    assert broken[i].key == b[i].key;
    WipedOne(cfg, broken, b[i].key, 0);
    NoneLeft(b[i].tups, Ids(b[i].tups));
    var after := Put(broken, b[i].key, []);
    UniquePut(broken, b[i].key, []);
    forall j | 0 <= j < |b|
      ensures Find(after, b[j].key) == j && Lookup(after, b[j].key) == if j <= i then [] else b[j].tups
    {
      assert after[j].key == b[j].key;
      FindAt(after, j);
    }
  }

  lemma HandlerBalance(cfg: Config, s: State, x: Id)
    requires cfg.autoFail && UniqueKeys(s.batches) && HeldFor(s, x)
    ensures
      var pending := if cfg.exitOnException then 0 else Pending(Put(s.batches, s.key, []), x);
      Conserved(s.log + HandlerScript(cfg, s), pending, x) <==> Leftover(cfg, s, x) == 0
  {
    hide HandlerScript;
    HandlerCount(cfg, s, x);
    PendingPut(s.batches, s.key, [], x);
    if cfg.exitOnException {
      WipedAll(cfg, s.batches, s.key, 0, x);
    } else {
      WipedOne(cfg, s.batches, s.key, 0);
    }
  }

  /** The books are right after the handler: nothing stays pending in a process about to exit. */
  ghost predicate Balanced(cfg: Config, s: State) {
    forall x :: BalancedFor(cfg, s, x)
  }

  predicate BalancedFor(cfg: Config, s: State, x: Id) {
    Conserved(s.log, if cfg.exitOnException then 0 else Pending(s.batches, x), x)
  }

  /** When nothing is owed beyond what is pending, the handler keeps the books if and only if no current tuple
      lies outside the batches it wipes out; any such tuple is answered once too often. */
  lemma HandlerKeepsBooksIff(cfg: Config, s: State, s1: State)
    requires cfg.autoFail && Settled(s) && Handle(cfg, s) == Ok(s1)
    ensures Balanced(cfg, s1) <==> FindsAll(cfg, s)
  {
    hide HandlerScript;
    hide Wiped;
    hide NotIn;
    hide Play;
    var left := NotIn(s.current, Ids(Wiped(cfg, s.batches, s.key, 0)));
    PlayAppends(s.log, s.room, HandlerScript(cfg, s));
    assert s1.log == s.log + HandlerScript(cfg, s) && s1.batches == Put(s.batches, s.key, []);
    if left == [] {
      forall x
        ensures BalancedFor(cfg, s1, x)
      {
        assert HeldFor(s, x) && Leftover(cfg, s, x) == Times(left, x);
        HandlerBalance(cfg, s, x);
      }
    } else {
      var x := left[0].id;
      assert HeldFor(s, x) && Leftover(cfg, s, x) > 0;
      HandlerBalance(cfg, s, x);
      assert !BalancedFor(cfg, s1, x);
    }
  }

  /** `_current_tups` is not cleared after a handled exception, so a malformed read with `exit_on_exception`
      off is booked correctly exactly when the tuples left there are among those being failed. */
  lemma MalformedReadKeepsBooksIff(cfg: Config, s: State, turn: Turn, s1: State)
    requires DefaultFlags(cfg) && !cfg.exitOnException && LoopHead(cfg, s)
    requires turn.read.Malformed? && !turn.loggerRaises && Pass(cfg, s, turn) == Running(s1)
    ensures Balanced(cfg, s1) <==> FindsAll(cfg, s)
  {
    HandlerKeepsBooksIff(cfg, s, s1);
  }

  /** Such a state is reached: a tuple whose `group_key` raised is failed again by a malformed read. */
  lemma FailedTwice(t: Tup)
    requires !IsHeartbeat(t) && !IsTick(t)
    ensures
      var turns := [Turn(Got(t), KeyRaises(Ordinary), NoFault, false),
        Turn(Malformed, KeyRaises(Ordinary), NoFault, false)];
      var p := Run(Config(true, true, false, 1), 6, turns);
      p.Running? && Count(p.state.log, Fail(t.id)) == 2 && Count(p.state.log, Data(t.id)) == 1
  {
    var cfg := Config(true, true, false, 1);
    var t1, t2 := Turn(Got(t), KeyRaises(Ordinary), NoFault, false),
      Turn(Malformed, KeyRaises(Ordinary), NoFault, false);
    var s0 := Initial.(room := 6);
    var read := s0.(current := [t], log := [Data(t.id)]);
    var script := [Error, Sync, Fail(t.id)];
    var s1 := State([Entry(None, [])], [t], None, 0, [Data(t.id)] + script, 3);
    assert RunOnce(cfg, s0, t1) == Raised(read);
    HandleUnfiled(cfg, read, t);
    HandleUnfiled(cfg, s1, t);
    assert [t1, t2][..1] == [t1] && [t1][..0] == [];
    assert Run(cfg, 6, [t1]) == Pass(cfg, s0, t1) == Running(s1);
    assert Run(cfg, 6, [t1, t2]) == Pass(cfg, s1, t2);
  }

  /** The handler on a bolt whose only tuple never reached a batch. */
  lemma HandleUnfiled(cfg: Config, s: State, t: Tup)
    requires cfg.autoFail && s.current == [t] && s.key == None && s.room >= 3
    requires s.batches == [] || s.batches == [Entry(None, [])]
    ensures Handle(cfg, s) ==
      Ok(State([Entry(None, [])], [t], None, s.ticks, s.log + [Error, Sync, Fail(t.id)], s.room - 3))
  {
    assert Wiped(cfg, s.batches, None, 0) == [];
    assert NotIn([t], {}) == [t] + NotIn([], {});
    assert Fails([]) == [] && Fails([t]) == [Fail(t.id)] && Ids([]) == {};
    assert HandlerScript(cfg, s) == [Error, Sync, Fail(t.id)];
    PlayThree(s.log, s.room, [Error, Sync, Fail(t.id)]);
  }

  lemma PlayThree(log: seq<Event>, room: nat, script: seq<Event>)
    requires |script| == 3 && room >= 3 && forall e | e in script :: IsMessage(e)
    ensures Play(log, room, script) == Played(log + script, room - 3, true)
  {
    assert script[1..][1..][1..] == [];
    assert Play(log + [script[0]] + [script[1]], room - 2, script[1..][1..]) ==
      Played(log + [script[0]] + [script[1]] + [script[2]], room - 3, true);
  }

  // ---- what each operation does to the books of one id, from any state ----

  lemma LookupAt(b: seq<Entry>, i: nat)
    requires UniqueKeys(b) && i < |b|
    ensures Lookup(b, b[i].key) == b[i].tups
  {
    FindAt(b, i);
  }

  /** What a flush leaves, told without the pipe. */
  lemma FlushState(cfg: Config, s: State, fault: Fault)
    requires !Flush(cfg, s, fault).Gone?
    ensures
      var s1, b := Flush(cfg, s, fault).state, s.batches;
      && s1.log == s.log + FlushScript(cfg, b, fault, 0)
      && (Flush(cfg, s, fault).Raised? <==> FaultIn(b, fault))
      && if FaultIn(b, fault) then
           s1.batches == Emptied(b, fault.index) && s1.current == b[fault.index].tups && s1.key == b[fault.index].key
         else s1.batches == [] && s1.current == if b == [] then s.current else b[|b| - 1].tups
  {
    hide FlushScript, Play, Emptied;
    PlayAppends(s.log, s.room, FlushScript(cfg, s.batches, fault, 0));
  }

  lemma EmptiedPending(b: seq<Entry>, n: nat, x: Id)
    requires UniqueKeys(b) && n <= |b|
    ensures UniqueKeys(Emptied(b, n)) && Pending(Emptied(b, n), x) == Pending(b[n..], x)
    ensures Pending(b[0..n], x) + Pending(b[n..], x) == Pending(b, x)
    ensures Pending([], x) == 0 && (n == |b| ==> Pending(b[n..], x) == 0)
  {
    EmptiedInPlace(b, n);
    SuffixPending(Emptied(b, n), b, n, x);
    assert b[0..n] + b[n..] == b;
    PendingConcat(b[0..n], b[n..], x);
  }

  lemma BatchPending(b: seq<Entry>, i: nat, x: Id)
    requires i < |b|
    ensures Times(b[i].tups, x) <= Pending(b, x)
  {
    assert b == b[..i] + ([b[i]] + b[i + 1..]);
    PendingConcat(b[..i], [b[i]] + b[i + 1..], x);
  }

  lemma FlushAccounts(cfg: Config, s: State, fault: Fault, x: Id)
    requires cfg.autoAck && UniqueKeys(s.batches) && !Flush(cfg, s, fault).Gone?
    ensures
      var s1 := Flush(cfg, s, fault).state;
      && UniqueKeys(s1.batches)
      && Count(s1.log, Ack(x)) + Pending(s1.batches, x) == Count(s.log, Ack(x)) + Pending(s.batches, x)
      && Pending(s1.batches, x) <= Pending(s.batches, x)
      && Count(s1.log, Fail(x)) == Count(s.log, Fail(x))
      && Count(s1.log, Data(x)) == Count(s.log, Data(x)) && Count(s1.log, Tick(x)) == Count(s.log, Tick(x))
      && (x in Ids(s1.current) ==> x in Ids(s.current) || Pending(s.batches, x) > 0)
      && (Flush(cfg, s, fault).Raised? <==> FaultIn(s.batches, fault))
      && (FaultIn(s.batches, fault) ==> s1.current == Lookup(s1.batches, s1.key))
  {
    hide Flush, FlushScript, Emptied, Pending, Times, Lookup, Count;
    var b, n, s1 := s.batches, Completed(s.batches, fault), Flush(cfg, s, fault).state;
    var script := FlushScript(cfg, b, fault, 0);
    FlushState(cfg, s, fault);
    FlushCount(cfg, b, fault, 0, x);
    CountConcat(s.log, script, Ack(x));
    CountConcat(s.log, script, Fail(x));
    CountConcat(s.log, script, Data(x));
    CountConcat(s.log, script, Tick(x));
    EmptiedPending(b, n, x);
    if b != [] {
      var last := if FaultIn(b, fault) then n else |b| - 1;
      BatchPending(b, last, x);
      TimesIn(b[last].tups, x);
    }
    if FaultIn(b, fault) {
      EmptiedInPlace(b, n);
      LookupAt(Emptied(b, n), n);
    }
  }

  lemma {:induction false} NotInTimes(tups: seq<Tup>, failed: set<Id>, x: Id)
    ensures Times(NotIn(tups, failed), x) == if x in failed then 0 else Times(tups, x)
  {
    if tups != [] {
      NotInTimes(tups[1..], failed, x);
      TimesConcat([tups[0]], NotIn(tups[1..], failed), x);
      assert [] + NotIn(tups[1..], failed) == NotIn(tups[1..], failed);
    }
  }

  lemma HandlerAccounts(cfg: Config, s: State, x: Id)
    requires cfg.autoFail && UniqueKeys(s.batches) && Handle(cfg, s).Ok?
    ensures
      var s1 := Handle(cfg, s).state;
      var wiped := Times(Wiped(cfg, s.batches, s.key, 0), x);
      && UniqueKeys(s1.batches) && s1.current == s.current
      && Pending(s1.batches, x) == Pending(s.batches, x) - Times(Lookup(s.batches, s.key), x)
      && wiped == (if cfg.exitOnException then Pending(s.batches, x) else Times(Lookup(s.batches, s.key), x))
      && Count(s1.log, Fail(x)) == Count(s.log, Fail(x)) + wiped + Leftover(cfg, s, x)
      && Leftover(cfg, s, x) == (if wiped > 0 then 0 else Times(s.current, x))
      && Count(s1.log, Ack(x)) == Count(s.log, Ack(x))
      && Count(s1.log, Data(x)) == Count(s.log, Data(x)) && Count(s1.log, Tick(x)) == Count(s.log, Tick(x))
  {
    hide HandlerScript;
    var wiped := Wiped(cfg, s.batches, s.key, 0);
    PlayAppends(s.log, s.room, HandlerScript(cfg, s));
    HandlerCount(cfg, s, x);
    NotInTimes(s.current, Ids(wiped), x);
    TimesIn(wiped, x);
    UniquePut(s.batches, s.key, []);
    PendingPut(s.batches, s.key, [], x);
    if cfg.exitOnException {
      WipedAll(cfg, s.batches, s.key, 0, x);
      assert s.batches[0..] == s.batches;
    } else {
      WipedOne(cfg, s.batches, s.key, 0);
    }
  }

  lemma ReadCounts(log: seq<Event>, e: Event, x: Id)
    requires e.Data? || e.Tick? || e.Beat?
    ensures Count(log + [e], Ack(x)) == Count(log, Ack(x)) && Count(log + [e], Fail(x)) == Count(log, Fail(x))
    ensures Count(log + [e], Data(x)) == Count(log, Data(x)) + if e == Data(x) then 1 else 0
    ensures Count(log + [e], Tick(x)) == Count(log, Tick(x)) + if e == Tick(x) then 1 else 0
  {
  }

  // ---- whole runs, whatever is read and logged ----

  /** How often x was read as a data tuple whose `group_key` then raised: it is in no batch, and only the second
      loop of the handler can answer it. */
  function Unfiled(cfg: Config, room: nat, turns: seq<Turn>, x: Id): nat {
    if turns == [] then 0
    else
      var before, turn := turns[..|turns| - 1], turns[|turns| - 1];
      Unfiled(cfg, room, before, x)
      + if Run(cfg, room, before).Running? then UnfiledIn(turn, x) else 0
  }

  function UnfiledIn(turn: Turn, x: Id): nat {
    if KeyRaised(turn) && turn.read.tup.id == x then 1 else 0
  }

  /** How often that loop fails x: a current tuple outside the batches that the handler wipes out. */
  function Loose(cfg: Config, room: nat, turns: seq<Turn>, x: Id): nat {
    if turns == [] then 0
    else
      var before, p := turns[..|turns| - 1], Run(cfg, room, turns[..|turns| - 1]);
      Loose(cfg, room, before, x) + if p.Running? then LooseIn(cfg, p.state, turns[|turns| - 1], x) else 0
  }

  function LooseIn(cfg: Config, s: State, turn: Turn, x: Id): nat {
    var r := RunOnce(cfg, s, turn);
    if r.Raised? && !turn.loggerRaises then Leftover(cfg, r.state, x) else 0
  }

  lemma TickBalances(cfg: Config, s: State, t: Tup, fault: Fault, x: Id)
    requires DefaultFlags(cfg) && UniqueKeys(s.batches) && !ProcessTick(cfg, s, t, fault).Gone?
    ensures
      var s1 := ProcessTick(cfg, s, t, fault).state;
      && UniqueKeys(s1.batches)
      && Reads(s1.log, x) == Reads(s.log, x) && Count(s1.log, Data(x)) == Count(s.log, Data(x))
      && Pending(s1.batches, x) <= Pending(s.batches, x)
      && Answered(s1.log, x) + Pending(s1.batches, x) ==
         Answered(s.log, x) + Pending(s.batches, x) + if t.id == x then 1 else 0
  {
    hide Play, Flush, Pending, Count;
    var p := Play(s.log, s.room, [Ack(t.id)]);
    PlayAppends(s.log, s.room, [Ack(t.id)]);
    AckCounts(s.log, t.id, x);
    var s1 := s.(ticks := s.ticks + 1, log := p.log, room := p.room);
    if s1.ticks > cfg.ticksBetweenBatches && s1.batches != [] {
      FlushAccounts(cfg, s1, fault, x);
    }
  }

  lemma AckCounts(log: seq<Event>, id: Id, x: Id)
    ensures Answered(log + [Ack(id)], x) == Answered(log, x) + if id == x then 1 else 0
    ensures Reads(log + [Ack(id)], x) == Reads(log, x)
    ensures Count(log + [Ack(id)], Data(x)) == Count(log, Data(x))
  {
  }

  lemma FilingBalances(s: State, t: Tup, k: Key, x: Id)
    requires UniqueKeys(s.batches)
    ensures
      var s1 := Process(s, t, Returns(k)).state;
      && UniqueKeys(s1.batches)
      && Reads(s1.log, x) == Reads(s.log, x) && Answered(s1.log, x) == Answered(s.log, x)
      && Count(s1.log, Data(x)) == Count(s.log, Data(x))
      && Pending(s1.batches, x) == Pending(s.batches, x) + if t.id == x then 1 else 0
  {
    var tups := Lookup(s.batches, k) + [t];
    UniquePut(s.batches, k, tups);
    PendingPut(s.batches, k, tups, x);
    TimesConcat(Lookup(s.batches, k), [t], x);
    assert Times([t], x) == if t.id == x then 1 else 0;
  }

  lemma BeatCounts(log: seq<Event>, room: nat, x: Id)
    requires Play(log, room, [Sync]).ok
    ensures
      var log1 := Play(log, room, [Sync]).log;
      && Reads(log1, x) == Reads(log, x) && Answered(log1, x) == Answered(log, x)
      && Count(log1, Data(x)) == Count(log, Data(x))
  {
    PlayAppends(log, room, [Sync]);
  }

  /** An id that no data tuple had is in no batch. */
  predicate Known(s: State, x: Id) {
    Count(s.log, Data(x)) == 0 ==> Pending(s.batches, x) == 0
  }

  /** From any state, `_run` answers or files what it read, unless `group_key` raised. */
  lemma RunOnceBalances(cfg: Config, s: State, turn: Turn, x: Id)
    requires DefaultFlags(cfg) && UniqueKeys(s.batches) && !RunOnce(cfg, s, turn).Gone?
    ensures
      var s1 := RunOnce(cfg, s, turn).state;
      && UniqueKeys(s1.batches)
      && Answered(s1.log, x) + Pending(s1.batches, x) + Reads(s.log, x) + UnfiledIn(turn, x) ==
         Answered(s.log, x) + Pending(s.batches, x) + Reads(s1.log, x)
      && (RunOnce(cfg, s, turn).Ok? ==> UnfiledIn(turn, x) == 0)
      && (Known(s, x) ==> Known(s1, x))
  {
    hide Play, ProcessTick, Pending, Count, Put, Lookup;
    if turn.read.Got? {
      var t := turn.read.tup;
      var s1 := s.(current := [t], log := s.log + [Arrival(t)]);
      ReadCounts(s.log, Arrival(t), x);
      if IsHeartbeat(t) {
        BeatCounts(s1.log, s1.room, x);
      } else if IsTick(t) {
        TickBalances(cfg, s1, t, turn.fault, x);
      } else if turn.key.Returns? {
        FilingBalances(s1, t, turn.key.key, x);
      }
    }
  }

  lemma PassBalances(cfg: Config, s: State, turn: Turn, s1: State, x: Id)
    requires DefaultFlags(cfg) && UniqueKeys(s.batches) && Pass(cfg, s, turn) == Running(s1)
    ensures UniqueKeys(s1.batches) && (Known(s, x) ==> Known(s1, x))
    ensures Answered(s1.log, x) + Pending(s1.batches, x) + Reads(s.log, x) + UnfiledIn(turn, x) ==
            Answered(s.log, x) + Pending(s.batches, x) + Reads(s1.log, x) + LooseIn(cfg, s, turn, x)
  {
    hide RunOnce, Handle, Pending, Count, Times, Leftover, UnfiledIn;
    RunOnceBalances(cfg, s, turn, x);
    var r := RunOnce(cfg, s, turn);
    if r.Raised? && !turn.loggerRaises {
      HandlerAccounts(cfg, r.state, x);
      TimesIn(Lookup(r.state.batches, r.state.key), x);
    }
  }

  /** At every loop head of every run, for every id: what was read, and what the handler failed outside the
      batches it wiped, is what was answered, what waits, and what no batch ever held. */
  lemma {:induction false} RunBalances(cfg: Config, room: nat, turns: seq<Turn>, s: State, x: Id)
    requires DefaultFlags(cfg) && Run(cfg, room, turns) == Running(s)
    ensures UniqueKeys(s.batches) && Known(s, x)
    ensures Reads(s.log, x) + Loose(cfg, room, turns, x) ==
            Answered(s.log, x) + Pending(s.batches, x) + Unfiled(cfg, room, turns, x)
  {
    hide Pass, LooseIn, UnfiledIn;
    if turns != [] {
      var before, turn := turns[..|turns| - 1], turns[|turns| - 1];
      var s0 := Run(cfg, room, before).state;
      RunBalances(cfg, room, before, s0, x);
      PassBalances(cfg, s0, turn, s, x);
    }
  }

  lemma FreshIsFound(cfg: Config, s: State)
    requires UniqueKeys(s.batches) && (s.current == [] || s.current == Lookup(s.batches, s.key))
    ensures FindsAll(cfg, s)
  {
    var i := Find(s.batches, s.key);
    if i < |s.batches| {
      WipedContains(cfg, s.batches, s.key, 0, i);
      NoneLeft(s.current, Ids(Wiped(cfg, s.batches, s.key, 0)));
    }
  }

  // ---- exactly when the books are right ----

  /** How often a read raised and the handler, finding x current but in no batch it wipes out, failed it again. */
  function Again(cfg: Config, room: nat, turns: seq<Turn>, x: Id): nat {
    if turns == [] then 0
    else
      var before, p := turns[..|turns| - 1], Run(cfg, room, turns[..|turns| - 1]);
      Again(cfg, room, before, x) + if p.Running? then AgainIn(cfg, p.state, turns[|turns| - 1], x) else 0
  }

  function AgainIn(cfg: Config, s: State, turn: Turn, x: Id): nat {
    if turn.read.Malformed? && !turn.loggerRaises then Leftover(cfg, s, x) else 0
  }

  /** How often x was read, `group_key` raised on it, and so did the logger. */
  function Dropped(turns: seq<Turn>, x: Id): nat {
    if turns == [] then 0 else Dropped(turns[..|turns| - 1], x) + DroppedIn(turns[|turns| - 1], x)
  }

  function DroppedIn(turn: Turn, x: Id): nat {
    if Muffled(turn) && turn.read.tup.id == x then 1 else 0
  }

  lemma NoneLeftover(cfg: Config, s: State, x: Id)
    requires FindsAll(cfg, s)
    ensures Leftover(cfg, s, x) == 0
  {
  }

  /** A tick whose flush raises leaves the handler nothing outside the batch that raised. */
  lemma TickFindsAll(cfg: Config, s: State, t: Tup, fault: Fault)
    requires DefaultFlags(cfg) && UniqueKeys(s.batches) && ProcessTick(cfg, s, t, fault).Raised?
    ensures FindsAll(cfg, ProcessTick(cfg, s, t, fault).state)
  {
    hide Play, Flush, FindsAll;
    var p := Play(s.log, s.room, [Ack(t.id)]);
    var s1 := s.(ticks := s.ticks + 1, log := p.log, room := p.room);
    FlushAccounts(cfg, s1, fault, None);
    FreshIsFound(cfg, Flush(cfg, s1, fault).state);
  }

  /** A new id is in no batch, so the second loop fails it exactly once. */
  lemma NewIsLeftover(cfg: Config, s: State, t: Tup, x: Id)
    requires UniqueKeys(s.batches) && s.current == [t] && Pending(s.batches, t.id) == 0
    ensures Leftover(cfg, s, x) == if t.id == x then 1 else 0
  {
    hide Wiped, Pending;
    var failed := Ids(Wiped(cfg, s.batches, s.key, 0));
    NotWiped(cfg, s.batches, s.key, t.id);
    NotInTimes([t], failed, x);
    assert Times([t], x) == if t.id == x then 1 else 0;
  }

  /** On one turn the second loop fails what `group_key` kept out of the batches, less what the logger muffled,
      plus what a malformed read makes it fail again. */
  lemma TurnNets(cfg: Config, s: State, turn: Turn, x: Id)
    requires DefaultFlags(cfg) && UniqueKeys(s.batches) && !RunOnce(cfg, s, turn).Gone?
    requires turn.read.Got? && Arrival(turn.read.tup).Data? ==> Pending(s.batches, turn.read.tup.id) == 0
    ensures LooseIn(cfg, s, turn, x) + DroppedIn(turn, x) == UnfiledIn(turn, x) + AgainIn(cfg, s, turn, x)
  {
    hide Play, ProcessTick, Put, Leftover, Pending;
    if turn.read.Got? {
      var t := turn.read.tup;
      var s1 := s.(current := [t], log := s.log + [Arrival(t)]);
      if !IsHeartbeat(t) && IsTick(t) {
        if ProcessTick(cfg, s1, t, turn.fault).Raised? {
          TickFindsAll(cfg, s1, t, turn.fault);
          NoneLeftover(cfg, ProcessTick(cfg, s1, t, turn.fault).state, x);
        }
      } else if !IsHeartbeat(t) && turn.key.KeyRaises? {
        NewIsLeftover(cfg, s1, t, x);
      }
    }
  }

  /** A data tuple just read has an id that was not read before. */
  lemma NewId(log: seq<Event>, id: Id)
    requires Count(log + [Data(id)], Data(id)) <= 1
    ensures Count(log, Data(id)) == 0
  {
  }

  /** Malformed reads and raising loggers included: what was read, and what a malformed read made the handler fail
      again, is what was answered, what waits, and what the logger dropped. */
  lemma {:induction false} RunNets(cfg: Config, room: nat, turns: seq<Turn>, s: State, x: Id)
    requires DefaultFlags(cfg) && Run(cfg, room, turns) == Running(s) && DistinctData(s.log)
    ensures Loose(cfg, room, turns, x) + Dropped(turns, x) == Unfiled(cfg, room, turns, x) + Again(cfg, room, turns, x)
    ensures Reads(s.log, x) + Again(cfg, room, turns, x) ==
            Answered(s.log, x) + Pending(s.batches, x) + Dropped(turns, x)
  {
    hide Pass, LooseIn, UnfiledIn, AgainIn, DroppedIn, Reads, Answered, Pending, Count, DistinctData;
    RunBalances(cfg, room, turns, s, x);
    if turns != [] {
      var before, turn := turns[..|turns| - 1], turns[|turns| - 1];
      var s0 := Run(cfg, room, before).state;
      PassExtends(cfg, s0, turn);
      var seen := s0.log + if turn.read.Got? then [Arrival(turn.read.tup)] else [];
      DistinctPrefix(seen, s.log);
      DistinctPrefix(s0.log, seen);
      RunNets(cfg, room, before, s0, x);
      TurnIsNew(cfg, room, before, s0, turn);
      StaysRunning(cfg, s0, turn);
      TurnNets(cfg, s0, turn, x);
    }
  }

  lemma StaysRunning(cfg: Config, s: State, turn: Turn)
    ensures Pass(cfg, s, turn).Running? ==> !RunOnce(cfg, s, turn).Gone?
  {
  }

  lemma TurnIsNew(cfg: Config, room: nat, before: seq<Turn>, s: State, turn: Turn)
    requires DefaultFlags(cfg) && Run(cfg, room, before) == Running(s)
    requires DistinctData(s.log + if turn.read.Got? then [Arrival(turn.read.tup)] else [])
    ensures UniqueKeys(s.batches)
    ensures turn.read.Got? && Arrival(turn.read.tup).Data? ==> Pending(s.batches, turn.read.tup.id) == 0
  {
    hide Run, Count, Loose, Unfiled, Reads, Answered;
    RunBalances(cfg, room, before, s, None);
    if turn.read.Got? && Arrival(turn.read.tup).Data? {
      var id := turn.read.tup.id;
      assert Count(s.log + [Data(id)], Data(id)) <= 1;
      NewId(s.log, id);
      RunBalances(cfg, room, before, s, id);
    }
  }

  /** x was acked, was failed or waits as often as it was read. */
  predicate Kept(s: State, x: Id) {
    Conserved(s.log, Pending(s.batches, x), x)
  }

  predicate Squared(cfg: Config, room: nat, turns: seq<Turn>, x: Id) {
    Again(cfg, room, turns, x) == Dropped(turns, x)
  }

  /** With distinct data ids, whatever is read and logged, the books of an id are right if and only if malformed
      reads made the handler fail it again exactly as often as the logger dropped it. */
  lemma {:induction false} RunKeepsBooksIff(cfg: Config, room: nat, turns: seq<Turn>, s: State)
    requires DefaultFlags(cfg) && Run(cfg, room, turns) == Running(s) && DistinctData(s.log)
    ensures forall x :: Kept(s, x) <==> Squared(cfg, room, turns, x)
  {
    forall x
      ensures Kept(s, x) <==> Squared(cfg, room, turns, x)
    {
      RunNets(cfg, room, turns, s, x);
    }
  }

  lemma {:induction false} DroppedIff(turns: seq<Turn>)
    ensures NoneMuffled(turns) ==> forall x :: Dropped(turns, x) == 0
    ensures !NoneMuffled(turns) ==> exists x :: Dropped(turns, x) > 0
  {
    if turns != [] {
      var before, turn := turns[..|turns| - 1], turns[|turns| - 1];
      DroppedIff(before);
      assert turns == before + [turn];
      assert turn in turns && forall t | t in before :: t in turns;
      if Muffled(turn) {
        assert Dropped(turns, turn.read.tup.id) > 0;
      } else if !NoneMuffled(before) {
        var x :| Dropped(before, x) > 0;
        assert Dropped(turns, x) > 0;
      } else {
        assert forall t | t in turns :: t in before || t == turn;
        forall x
          ensures Dropped(turns, x) == 0
        {
          assert Dropped(before, x) == 0;
        }
      }
    }
  }

  lemma {:induction false} AgainIff(cfg: Config, room: nat, turns: seq<Turn>)
    ensures MalformedFindAll(cfg, room, turns) ==> forall x :: Again(cfg, room, turns, x) == 0
    ensures !MalformedFindAll(cfg, room, turns) ==> exists x :: Again(cfg, room, turns, x) > 0
  {
    hide Wiped, NotIn, Pass;
    if turns != [] {
      var before, turn := turns[..|turns| - 1], turns[|turns| - 1];
      var p := Run(cfg, room, before);
      AgainIff(cfg, room, before);
      if p.Running? && !FindsAllIn(cfg, p.state, turn) {
        var left := NotIn(p.state.current, Ids(Wiped(cfg, p.state.batches, p.state.key, 0)));
        assert Leftover(cfg, p.state, left[0].id) > 0;
        assert Again(cfg, room, turns, left[0].id) > 0;
      } else if !MalformedFindAll(cfg, room, before) {
        var x :| Again(cfg, room, before, x) > 0;
        assert Again(cfg, room, turns, x) > 0;
      } else {
        forall x
          ensures Again(cfg, room, turns, x) == 0
        {
          assert Again(cfg, room, before, x) == 0;
        }
      }
    }
  }

  /** With any logger, and no exception of a read that reaches the handler: all books are right if and only if no
      data tuple was read on which `group_key` and then the logger raised. */
  lemma {:induction false} KeptIffNoneMuffled(cfg: Config, room: nat, turns: seq<Turn>, s: State)
    requires DefaultFlags(cfg) && Run(cfg, room, turns) == Running(s) && DistinctData(s.log)
    requires forall turn | turn in turns && turn.read.Malformed? :: turn.loggerRaises
    ensures (forall x :: Kept(s, x)) <==> NoneMuffled(turns)
  {
    hide Kept, NoneMuffled, Run, DistinctData;
    RunKeepsBooksIff(cfg, room, turns, s);
    DroppedIff(turns);
    NoneAgain(cfg, room, turns);
    if NoneMuffled(turns) {
      assert forall x :: Squared(cfg, room, turns, x);
    } else {
      var x :| Dropped(turns, x) > 0;
      assert !Squared(cfg, room, turns, x);
    }
  }

  lemma {:induction false} NoneAgain(cfg: Config, room: nat, turns: seq<Turn>)
    requires forall turn | turn in turns && turn.read.Malformed? :: turn.loggerRaises
    ensures forall x :: Again(cfg, room, turns, x) == 0
  {
    hide Run;
    if turns != [] {
      var before := turns[..|turns| - 1];
      assert turns[|turns| - 1] in turns && forall t | t in before :: t in turns;
      NoneAgain(cfg, room, before);
      forall x
        ensures Again(cfg, room, turns, x) == 0
      {
        assert Again(cfg, room, before, x) == 0;
      }
    }
  }

  /** With a logger that never keeps a raising `group_key` from the handler: all books are right if and only if
      the handler, whenever a read raised, found every tuple that was still current in the batches it wiped. */
  lemma {:induction false} KeptIffMalformedFindAll(cfg: Config, room: nat, turns: seq<Turn>, s: State)
    requires DefaultFlags(cfg) && Run(cfg, room, turns) == Running(s) && DistinctData(s.log)
    requires NoneMuffled(turns)
    ensures (forall x :: Kept(s, x)) <==> MalformedFindAll(cfg, room, turns)
  {
    hide Kept, NoneMuffled, Run, DistinctData, MalformedFindAll;
    RunKeepsBooksIff(cfg, room, turns, s);
    DroppedIff(turns);
    AgainIff(cfg, room, turns);
    if MalformedFindAll(cfg, room, turns) {
      assert forall x :: Squared(cfg, room, turns, x);
    } else {
      var x :| Again(cfg, room, turns, x) > 0;
      assert !Squared(cfg, room, turns, x);
    }
  }

  /** One more failing side: when the logger raises as well, a tuple whose `group_key` raised is gone. */
  lemma {:induction false} LoggerDropsTuple(t: Tup, room: nat)
    requires !IsHeartbeat(t) && !IsTick(t)
    ensures
      var p := Run(Config(true, true, false, 1), room, [Turn(Got(t), KeyRaises(Ordinary), NoFault, true)]);
      && p.Running? && Data(t.id) in p.state.log
      && Answered(p.state.log, t.id) + Pending(p.state.batches, t.id) == 0
  {
    var cfg, turn := Config(true, true, false, 1), Turn(Got(t), KeyRaises(Ordinary), NoFault, true);
    var s0 := Initial.(room := room);
    var s1 := s0.(current := [t], log := [Data(t.id)]);
    assert [turn][..0] == [] && s0.log + [Data(t.id)] == s1.log;
    assert RunOnce(cfg, s0, turn) == Raised(s1);
    assert Run(cfg, room, [turn]) == Pass(cfg, s0, turn) == Running(s1);
  }
}
