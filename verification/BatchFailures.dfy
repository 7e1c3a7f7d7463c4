/** `BatchingBolt` when user code raises and `exit_on_exception` is off: what the next ticks make good, how long a
    tuple waits, when the process leaves, and what a pass leaves in the fields. */
module BatchFailures {
  import opened Options
  import opened BatchSpec
  import opened BatchAccounting
  import opened BatchGrouping

  // ---- the tick after a failed flush ----

  /** A flush calls `process_batch` once for each key, up to the call that raises. */
  lemma {:induction false} FaultyFlushCalls(cfg: Config, log: seq<Event>, b: seq<Entry>, fault: Fault, i: nat, k: Key)
    requires UniqueKeys(b) && i <= |b| && (FaultIn(b, fault) ==> i <= fault.index)
    ensures
      var last := if FaultIn(b, fault) then fault.index else |b| - 1;
      Calls(log + FlushScript(cfg, b, fault, i), k) ==
      Calls(log, k) + if i <= Find(b, k) <= last then [Lookup(b, k)] else []
    decreases |b| - i
  {
    hide Calls, BatchScript;
    var script := FlushScript(cfg, b, fault, i);
    if i == |b| {
      assert log + [] == log;
    } else {
      FindIsFirst(b, i, k);
      if fault.FaultAt? && fault.index == i {
        RaisingCall(log, b[i], k);
      } else {
        var next := log + BatchScript(cfg, b[i]);
        assert log + script == next + FlushScript(cfg, b, fault, i + 1);
        OneCall(cfg, log, b[i], k);
        FaultyFlushCalls(cfg, next, b, fault, i + 1, k);
      }
    }
    assert forall calls: seq<seq<Tup>> :: calls + [] == calls;
  }

  lemma RaisingCall(log: seq<Event>, e: Entry, k: Key)
    ensures Calls(log + [Batch(e.key, e.tups)], k) == Calls(log, k) + if e.key == k then [e.tups] else []
  {
    assert (log + [Batch(e.key, e.tups)])[..|log|] == log;
  }

  /** The failed flush itself calls `process_batch` for the batches up to the one that raises, and for no other. */
  lemma FailedFlushCalls(cfg: Config, s: State, turn: Turn, s1: State, k: Key)
    requires DefaultFlags(cfg) && !cfg.exitOnException && UniqueKeys(s.batches) && !turn.loggerRaises
    requires IsTickTurn(turn) && s.ticks + 1 > cfg.ticksBetweenBatches
    requires FaultIn(s.batches, turn.fault) && Pass(cfg, s, turn) == Running(s1)
    ensures Calls(s1.log, k) ==
      Calls(s.log, k) + if Find(s.batches, k) <= turn.fault.index then [Lookup(s.batches, k)] else []
  {
    hide Pass, Calls, SinceFlush, FlushScript, Fails;
    var b, i, id := s.batches, turn.fault.index, turn.read.tup.id;
    FailingBatchTrace(cfg, s, turn, s1);
    var acked := s.log + [Tick(id), Ack(id)];
    var flushed := acked + FlushScript(cfg, b, turn.fault, 0);
    SilentScript(s.log, [Tick(id), Ack(id)], k);
    FaultyFlushCalls(cfg, acked, b, turn.fault, 0, k);
    FailsAreSilent(b[i].tups);
    assert s1.log == flushed + ([Error, Sync] + Fails(b[i].tups));
    SilentScript(flushed, [Error, Sync] + Fails(b[i].tups), k);
  }

  lemma FailsAreSilent(tups: seq<Tup>)
    ensures Silent([Error, Sync] + Fails(tups))
  {
  }

  /** A flush that raised at batch i leaves the counter running. So the very next tick, if nothing raises, hands
      over every later batch under its key, and each of the earlier keys an empty one, and nothing is left. */
  lemma FlushAfterFailure(cfg: Config, s: State, turn: Turn, s1: State, next: Turn, s2: State)
    requires DefaultFlags(cfg) && !cfg.exitOnException && UniqueKeys(s.batches) && !turn.loggerRaises
    requires IsTickTurn(turn) && s.ticks + 1 > cfg.ticksBetweenBatches
    requires FaultIn(s.batches, turn.fault) && Pass(cfg, s, turn) == Running(s1)
    requires QuietTurn(next) && IsTickTurn(next) && Pass(cfg, s1, next) == Running(s2)
    ensures s1.ticks == s.ticks + 1
    ensures s2.batches == [] && s2.ticks == 0
    ensures
      var b, i := s.batches, turn.fault.index;
      forall j | 0 <= j < |b| ::
        Calls(s2.log, b[j].key) == Calls(s1.log, b[j].key) + [if j <= i then [] else b[j].tups]
  {
    hide Pass, Calls, SinceFlush, FlushScript;
    var b, i, id := s.batches, turn.fault.index, next.read.tup.id;
    FailingBatch(cfg, s, turn, s1);
    QuietPass(cfg, s1, next, s2);
    var acked := s1.log + [Tick(id), Ack(id)];
    forall j | 0 <= j < |b|
      ensures Calls(s2.log, b[j].key) == Calls(s1.log, b[j].key) + [if j <= i then [] else b[j].tups]
    {
      SilentScript(s1.log, [Tick(id), Ack(id)], b[j].key);
      FlushCalls(cfg, acked, s1.batches, 0, b[j].key);
    }
  }

  // ---- waiting, when flushes may fail ----

  /** User code may raise in `process_batch`, and the logger after it. */
  predicate Tolerable(turn: Turn) {
    turn.read.Got? && turn.key.Returns?
  }

  predicate AllTolerable(turns: seq<Turn>) {
    forall turn | turn in turns :: Tolerable(turn)
  }

  /** The ticks in whose flush, if there is one, nothing raises. */
  function QuietTicks(turns: seq<Turn>): nat {
    if turns == [] then 0
    else
      var turn := turns[|turns| - 1];
      QuietTicks(turns[..|turns| - 1]) + if IsTickTurn(turn) && turn.fault.NoFault? then 1 else 0
  }

  /** The call that raises hands its batch over as well. */
  lemma {:induction false} ScriptHands(cfg: Config, b: seq<Entry>, fault: Fault, i: nat, k: Key)
    requires i <= Find(b, k) < |b| && (FaultIn(b, fault) ==> Find(b, k) <= fault.index)
    ensures Batch(k, Lookup(b, k)) in FlushScript(cfg, b, fault, i)
    decreases |b| - i
  {
    if i < Find(b, k) {
      ScriptHands(cfg, b, fault, i + 1, k);
    }
  }

  /** What a tick leaves of a bolt that stays in its loop although its flush raised. */
  lemma FailedTick(cfg: Config, s: State, turn: Turn, s1: State)
    requires UniqueKeys(s.batches) && IsTickTurn(turn) && Flushes(cfg, s, turn) && FaultIn(s.batches, turn.fault)
    requires Pass(cfg, s, turn) == Running(s1)
    ensures UniqueKeys(s1.batches) && s1.ticks == s.ticks + 1
    ensures forall k | turn.fault.index < Find(s.batches, k) :: Lookup(s1.batches, k) == Lookup(s.batches, k)
    ensures
      var id := turn.read.tup.id;
      s.log + [Tick(id), Ack(id)] + FlushScript(cfg, s.batches, turn.fault, 0) <= s1.log
  {
    hide RunOnce, Play, FlushScript, HandlerScript, Emptied, Lookup, Put;
    var b, i := s.batches, turn.fault.index;
    TickRaises(cfg, s, turn);
    var r := RunOnce(cfg, s, turn).state;
    EmptiedInPlace(b, i);
    PlayExtends(r.log, r.room, HandlerScript(cfg, r));
    UniquePut(r.batches, b[i].key, []);
    forall k | i < Find(b, k)
      ensures Lookup(s1.batches, k) == Lookup(b, k)
    {
      EmptiedLater(b, i, k);
      LookupPut(r.batches, b[i].key, [], k);
      KeyAtFind(b, k, i);
    }
  }

  lemma EmptiedLater(b: seq<Entry>, i: nat, k: Key)
    requires UniqueKeys(b) && i <= |b| && i <= Find(b, k)
    ensures Lookup(Emptied(b, i), k) == Lookup(b, k)
  {
    hide Emptied;
    EmptiedInPlace(b, i);
    var e, j := Emptied(b, i), Find(b, k);
    if j < |b| {
      LookupAt(e, j);
      assert e[j].key == k;
    }
  }

  /** What a tick leaves that flushes, or that has nothing to flush, without an exception. */
  lemma ReturningTick(cfg: Config, s: State, turn: Turn, s1: State)
    requires IsTickTurn(turn) && !(Flushes(cfg, s, turn) && FaultIn(s.batches, turn.fault))
    requires Pass(cfg, s, turn) == Running(s1)
    ensures
      var id := turn.read.tup.id;
      var acked := s.log + [Tick(id), Ack(id)];
      if Flushes(cfg, s, turn) then
        s1.batches == [] && s1.ticks == 0 && s1.log == acked + FlushScript(cfg, s.batches, turn.fault, 0)
      else
        s1.batches == s.batches && s1.ticks == s.ticks + 1 && s1.log == acked
  {
    hide Play, FlushScript;
    var t := turn.read.tup;
    var read := s.(current := [t], log := s.log + [Tick(t.id)]);
    PlayAppends(read.log, read.room, [Ack(t.id)]);
    var p := Play(read.log, read.room, [Ack(t.id)]);
    PlayAppends(p.log, p.room, FlushScript(cfg, s.batches, turn.fault, 0));
    assert forall e, f :: s.log + [e] + [f] == s.log + [e, f];
    assert !RunOnce(cfg, s, turn).Raised?;
  }

  /** A turn that is no tick: a heartbeat changes nothing, a data tuple joins its batch. */
  lemma OtherPass(cfg: Config, s: State, turn: Turn, s1: State)
    requires Tolerable(turn) && !IsTickTurn(turn) && Pass(cfg, s, turn) == Running(s1)
    ensures s.log <= s1.log && s1.ticks == s.ticks
    ensures
      var t, k := turn.read.tup, turn.key.key;
      s1.batches == if IsHeartbeat(t) then s.batches else Put(s.batches, k, Lookup(s.batches, k) + [t])
  {
    hide Play;
    PlayExtends(s.log + [Beat], s.room, [Sync]);
  }

  lemma HandedLater(log: seq<Event>, s: State, s1: State, k: Key, t: Tup)
    requires log <= s.log <= s1.log && HandedIn(s.log[|log|..], k, t)
    ensures HandedIn(s1.log[|log|..], k, t)
  {
    var tups :| Batch(k, tups) in s.log[|log|..] && t in tups;
    assert Batch(k, tups) in s1.log[|log|..];
  }

  lemma HandedNow(log: seq<Event>, before: seq<Event>, script: seq<Event>, after: seq<Event>, k: Key, tups: seq<Tup>,
                  t: Tup)
    requires log <= before && before + script <= after && Batch(k, tups) in script && t in tups
    ensures HandedIn(after[|log|..], k, t)
  {
    var i :| 0 <= i < |script| && script[i] == Batch(k, tups);
    assert after[|before| + i] == script[i];
    assert after[|log|..][|before| + i - |log|] == script[i];
  }

  /** One more turn of a tuple's wait. */
  lemma WaitOn(cfg: Config, start: seq<Event>, s0: State, turn: Turn, s: State, k: Key, t: Tup)
    requires Tolerable(turn) && Pass(cfg, s0, turn) == Running(s) && start <= s0.log && UniqueKeys(s0.batches)
    ensures UniqueKeys(s.batches) && s0.log <= s.log
    ensures t in Lookup(s0.batches, k) ==>
      || HandedIn(s.log[|start|..], k, t)
      || (&& t in Lookup(s.batches, k)
          && s.ticks == s0.ticks + (if IsTickTurn(turn) then 1 else 0)
          && (IsTickTurn(turn) && turn.fault.NoFault? ==> s.ticks <= cfg.ticksBetweenBatches))
  {
    hide Pass, FlushScript, Put;
    var b, id := s0.batches, turn.read.tup.id;
    if !IsTickTurn(turn) {
      OtherPass(cfg, s0, turn, s);
      if !IsHeartbeat(turn.read.tup) {
        var key := turn.key.key;
        UniquePut(b, key, Lookup(b, key) + [turn.read.tup]);
        LookupPut(b, key, Lookup(b, key) + [turn.read.tup], k);
      }
    } else {
      var acked, script := s0.log + [Tick(id), Ack(id)], FlushScript(cfg, b, turn.fault, 0);
      var failed := Flushes(cfg, s0, turn) && FaultIn(b, turn.fault);
      if failed {
        FailedTick(cfg, s0, turn, s);
      } else {
        ReturningTick(cfg, s0, turn, s);
      }
      if Flushes(cfg, s0, turn) && t in Lookup(b, k) && (failed ==> Find(b, k) <= turn.fault.index) {
        ScriptHands(cfg, b, turn.fault, 0, k);
        HandedNow(start, acked, script, s.log, k, Lookup(b, k), t);
      }
    }
  }

  /** A tuple's wait over a run: handed over, or pending with a counter that has seen every tick since. */
  lemma {:induction false} WaitThrough(cfg: Config, room: nat, pre: seq<Turn>, post: seq<Turn>, mid: State, k: Key,
                                       t: Tup, s: State)
    requires AllTolerable(pre + post) && Run(cfg, room, pre) == Running(mid) && t in Lookup(mid.batches, k)
    requires UniqueKeys(mid.batches) && mid.ticks >= 0 && Run(cfg, room, pre + post) == Running(s)
    ensures mid.log <= s.log && UniqueKeys(s.batches)
    ensures
      || HandedIn(s.log[|mid.log|..], k, t)
      || (&& t in Lookup(s.batches, k) && s.ticks == mid.ticks + Ticks(post)
          && QuietTicks(post) <= Ticks(post) && QuietTicks(post) <= cfg.ticksBetweenBatches)
  {
    hide Run, Pass, Lookup, Ticks, QuietTicks, HandedIn, Tolerable, IsTickTurn, UniqueKeys;
    TicksNext(post);
    QuietTicksNext(post);
    if post == [] {
      assert pre + post == pre;
    } else {
      var before, turn := post[..|post| - 1], post[|post| - 1];
      assert (pre + post)[..|pre + post| - 1] == pre + before;
      assert turn in pre + post && forall u | u in pre + before :: u in pre + post;
      RunNext(cfg, room, pre + post);
      var s0 := Run(cfg, room, pre + before).state;
      WaitThrough(cfg, room, pre, before, mid, k, t, s0);
      WaitOn(cfg, mid.log, s0, turn, s, k, t);
      if HandedIn(s0.log[|mid.log|..], k, t) {
        HandedLater(mid.log, s0, s, k, t);
      }
    }
  }

  lemma QuietTicksNext(turns: seq<Turn>)
    ensures QuietTicks(turns) ==
      if turns == [] then 0
      else QuietTicks(turns[..|turns| - 1])
           + if IsTickTurn(turns[|turns| - 1]) && turns[|turns| - 1].fault.NoFault? then 1 else 0
  {
  }

  lemma {:induction false} UniqueRun(cfg: Config, room: nat, turns: seq<Turn>, s: State)
    requires AllTolerable(turns) && Run(cfg, room, turns) == Running(s)
    ensures UniqueKeys(s.batches) && s.ticks >= 0
  {
    if turns != [] {
      var before, turn := turns[..|turns| - 1], turns[|turns| - 1];
      assert turn in turns && forall u | u in before :: u in turns;
      var s0 := Run(cfg, room, before).state;
      UniqueRun(cfg, room, before, s0);
      WaitOn(cfg, [], s0, turn, s, None, Tup(None, "", "", 0));
    }
  }

  /** Waiting, when flushes may fail at any batch and loggers may raise: a tuple filed under k has been handed to
      `process_batch` once `ticks_between_batches` + 1 ticks have followed it in which nothing raised, whatever
      failed in between. */
  lemma WaitingBoundWithFailures(cfg: Config, room: nat, pre: seq<Turn>, turn: Turn, post: seq<Turn>, mid: State,
                                 s: State)
    requires AllTolerable(pre + [turn] + post) && turn.read.Got? && IsData(turn.read.tup)
    requires Run(cfg, room, pre + [turn]) == Running(mid) && Run(cfg, room, pre + [turn] + post) == Running(s)
    requires QuietTicks(post) > cfg.ticksBetweenBatches
    ensures turn.key.Returns?
    ensures mid.log <= s.log && HandedIn(s.log[|mid.log|..], turn.key.key, turn.read.tup)
  {
    hide Pass, Put;
    assert turn in pre + [turn] + post && forall u | u in pre + [turn] :: u in pre + [turn] + post;
    assert forall u | u in pre :: u in pre + [turn];
    var k, t := turn.key.key, turn.read.tup;
    assert (pre + [turn])[..|pre + [turn]| - 1] == pre;
    var s0 := Run(cfg, room, pre).state;
    OtherPass(cfg, s0, turn, mid);
    LookupPut(s0.batches, k, Lookup(s0.batches, k) + [t], k);
    UniqueRun(cfg, room, pre + [turn], mid);
    WaitThrough(cfg, room, pre + [turn], post, mid, k, t, s);
  }
}
