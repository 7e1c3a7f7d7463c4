/** Runs of `BatchingBolt` without exceptions: what `process_batch` is handed, and how soon. */
module BatchGrouping {
  import opened BatchSpec
  import opened BatchAccounting

  predicate QuietTurn(t: Turn) {
    t.read.Got? && t.key.Returns? && t.fault.NoFault?
  }

  predicate Quiet(turns: seq<Turn>) {
    forall t | t in turns :: QuietTurn(t)
  }

  predicate IsData(t: Tup) {
    !IsHeartbeat(t) && !IsTick(t)
  }

  /** The data tuples of the input whose group key is k, in arrival order. */
  function Arrived(turns: seq<Turn>, k: Key): seq<Tup>
    requires Quiet(turns)
  {
    if turns == [] then []
    else
      var t := turns[|turns| - 1];
      assert t in turns && forall u | u in turns[..|turns| - 1] :: u in turns;
      Arrived(turns[..|turns| - 1], k) + if IsData(t.read.tup) && t.key.key == k then [t.read.tup] else []
  }

  /** The batches handed to `process_batch` under k, in order. */
  function Calls(log: seq<Event>, k: Key): seq<seq<Tup>> {
    if log == [] then []
    else
      var e := log[|log| - 1];
      Calls(log[..|log| - 1], k) + if e.Batch? && e.key == k then [e.tups] else []
  }

  function Flatten(batches: seq<seq<Tup>>): seq<Tup> {
    if batches == [] then [] else Flatten(batches[..|batches| - 1]) + batches[|batches| - 1]
  }

  /** The tuples filed under k since the last call of `process_batch`. */
  function SinceFlush(log: seq<Event>, k: Key): seq<Tup> {
    if log == [] || log[|log| - 1].Batch? then []
    else
      var e := log[|log| - 1];
      SinceFlush(log[..|log| - 1], k) + if e.Keyed? && e.key == k then [e.tup] else []
  }

  /** The batches a tick is about to flush are not empty, and its counter has run out. */
  predicate Flushes(cfg: Config, s: State, turn: Turn) {
    && turn.read.Got? && IsTick(turn.read.tup) && !IsHeartbeat(turn.read.tup)
    && s.ticks + 1 > cfg.ticksBetweenBatches && s.batches != []
  }

  /** A script without calls and filings is invisible here. */
  predicate Silent(script: seq<Event>) {
    forall e | e in script :: !e.Batch? && !e.Keyed?
  }

  lemma {:induction false} SilentScript(log: seq<Event>, script: seq<Event>, k: Key)
    requires Silent(script)
    ensures Calls(log + script, k) == Calls(log, k) && SinceFlush(log + script, k) == SinceFlush(log, k)
  {
    if script == [] {
      assert log + script == log;
    } else {
      var n := |script| - 1;
      assert (log + script)[..|log + script| - 1] == log + script[..n];
      SilentScript(log, script[..n], k);
    }
  }

  lemma OneCall(cfg: Config, log: seq<Event>, e: Entry, k: Key)
    ensures
      var after := log + BatchScript(cfg, e);
      && Calls(after, k) == Calls(log, k) + (if e.key == k then [e.tups] else [])
      && SinceFlush(after, k) == []
  {
    var call := [Batch(e.key, e.tups)];
    var acks := if cfg.autoAck then Acks(e.tups) else [];
    assert log + BatchScript(cfg, e) == (log + call) + acks;
    assert (log + call)[..|log + call| - 1] == log;
    SilentScript(log + call, acks, k);
  }

  /** A flush without exceptions makes one call for each key, with all its tuples. */
  lemma {:induction false} FlushCalls(cfg: Config, log: seq<Event>, b: seq<Entry>, i: nat, k: Key)
    requires UniqueKeys(b) && i <= |b|
    ensures
      var after := log + FlushScript(cfg, b, NoFault, i);
      && Calls(after, k) == Calls(log, k) + (if i <= Find(b, k) < |b| then [Lookup(b, k)] else [])
      && (i < |b| ==> SinceFlush(after, k) == [])
    decreases |b| - i
  {
    hide BatchScript;
    hide Calls;
    hide SinceFlush;
    if i == |b| {
      assert log + [] == log;
    } else {
      var next := log + BatchScript(cfg, b[i]);
      assert log + FlushScript(cfg, b, NoFault, i) == next + FlushScript(cfg, b, NoFault, i + 1);
      OneCall(cfg, log, b[i], k);
      FlushCalls(cfg, next, b, i + 1, k);
      assert next + [] == next;
      FindIsFirst(b, i, k);
    }
  }

  lemma FindIsFirst(b: seq<Entry>, i: nat, k: Key)
    requires UniqueKeys(b) && i < |b|
    ensures b[i].key == k <==> Find(b, k) == i
  {
  }

  /** What one quiet turn does to a bolt that stays in its loop. */
  lemma QuietPass(cfg: Config, s: State, turn: Turn, s1: State)
    requires QuietTurn(turn) && Pass(cfg, s, turn) == Running(s1)
    ensures
      var t, k := turn.read.tup, turn.key.key;
      if IsHeartbeat(t) then
        s1.batches == s.batches && s1.ticks == s.ticks && s1.log == s.log + [Beat, Sync]
      else if IsTick(t) then
        if Flushes(cfg, s, turn) then
          s1.batches == [] && s1.ticks == 0
            && s1.log == s.log + [Tick(t.id), Ack(t.id)] + FlushScript(cfg, s.batches, NoFault, 0)
        else
          s1.batches == s.batches && s1.ticks == s.ticks + 1 && s1.log == s.log + [Tick(t.id), Ack(t.id)]
      else
        && s1.batches == Put(s.batches, k, Lookup(s.batches, k) + [t]) && s1.ticks == s.ticks
        && s1.log == s.log + [Data(t.id), Keyed(t, k)]
  {
    hide Play;
    hide FlushScript;
    var t := turn.read.tup;
    var read := s.(current := [t], log := s.log + [Arrival(t)]);
    PlayAppends(read.log, read.room, [Sync]);
    PlayAppends(read.log, read.room, [Ack(t.id)]);
    var p := Play(read.log, read.room, [Ack(t.id)]);
    PlayAppends(p.log, p.room, FlushScript(cfg, s.batches, turn.fault, 0));
    assert forall e, f :: s.log + [e] + [f] == s.log + [e, f];
    assert RunOnce(cfg, s, turn).Ok?;
  }

  /** What the dictionary holds at the head of the loop. */
  ghost predicate Sorted(log: seq<Event>, b: seq<Entry>) {
    && UniqueKeys(b)
    && (forall i | 0 <= i < |b| :: b[i].tups != [])
    && forall k :: SinceFlush(log, k) == Lookup(b, k)
  }

  lemma LookupPut(b: seq<Entry>, k: Key, tups: seq<Tup>, k1: Key)
    ensures Lookup(Put(b, k, tups), k1) == if k1 == k then tups else Lookup(b, k1)
  {
    var r := Put(b, k, tups);
    var i, j := Find(r, k1), Find(b, k1);
    assert forall m | 0 <= m < |b| :: r[m].key == b[m].key;
    if j < |b| {
      assert r[j].key == k1;
    } else if k1 == k {
      assert r[|b|].key == k;
    }
  }

  /** The calls for key k that a turn must make: one with everything filed since the last flush, if this turn
      flushes and there is anything. */
  function Handed(cfg: Config, s: State, turn: Turn, k: Key): seq<seq<Tup>> {
    if Flushes(cfg, s, turn) && SinceFlush(s.log, k) != [] then [SinceFlush(s.log, k)] else []
  }

  /** A quiet turn keeps the dictionary sorted by key, and either calls `process_batch` once for every key
      with the tuples filed since the last flush, or not at all. */
  lemma FlushPartition(cfg: Config, s: State, turn: Turn, s1: State)
    requires QuietTurn(turn) && Sorted(s.log, s.batches) && Pass(cfg, s, turn) == Running(s1)
    ensures Sorted(s1.log, s1.batches)
    ensures forall k :: Calls(s1.log, k) == Calls(s.log, k) + Handed(cfg, s, turn, k)
  {
    QuietPass(cfg, s, turn, s1);
    var t, k := turn.read.tup, turn.key.key;
    if IsData(t) {
      UniquePut(s.batches, k, Lookup(s.batches, k) + [t]);
    }
    forall k1
      ensures SinceFlush(s1.log, k1) == Lookup(s1.batches, k1)
      ensures Calls(s1.log, k1) == Calls(s.log, k1) + Handed(cfg, s, turn, k1)
    {
      PartitionFor(cfg, s, turn, s1, k1);
    }
  }

  lemma PartitionFor(cfg: Config, s: State, turn: Turn, s1: State, k1: Key)
    requires QuietTurn(turn) && Sorted(s.log, s.batches) && Pass(cfg, s, turn) == Running(s1)
    ensures SinceFlush(s1.log, k1) == Lookup(s1.batches, k1)
    ensures Calls(s1.log, k1) == Calls(s.log, k1) + Handed(cfg, s, turn, k1)
  {
    hide Pass;
    hide FlushScript;
    QuietPass(cfg, s, turn, s1);
    var t, k := turn.read.tup, turn.key.key;
    assert SinceFlush(s.log, k1) == Lookup(s.batches, k1);
    if IsHeartbeat(t) {
      SilentScript(s.log, [Beat, Sync], k1);
    } else if IsTick(t) {
      var acked := s.log + [Tick(t.id), Ack(t.id)];
      SilentScript(s.log, [Tick(t.id), Ack(t.id)], k1);
      if Flushes(cfg, s, turn) {
        FlushCalls(cfg, acked, s.batches, 0, k1);
      }
    } else {
      SilentScript(s.log, [Data(t.id)], k1);
      var read := s.log + [Data(t.id)];
      assert s1.log == read + [Keyed(t, k)];
      assert s1.log[..|s1.log| - 1] == read;
      LookupPut(s.batches, k, Lookup(s.batches, k) + [t], k1);
    }
  }

  // ---- whole runs ----

  lemma {:induction false} SortedRun(cfg: Config, room: nat, turns: seq<Turn>, s: State)
    requires Quiet(turns) && Run(cfg, room, turns) == Running(s)
    ensures Sorted(s.log, s.batches) && s.ticks >= 0
    ensures forall k :: Arrived(turns, k) == Flatten(Calls(s.log, k)) + Lookup(s.batches, k)
  {
    if turns != [] {
      var before, turn := turns[..|turns| - 1], turns[|turns| - 1];
      assert turn in turns && forall t | t in before :: t in turns;
      var s0 := Run(cfg, room, before).state;
      SortedRun(cfg, room, before, s0);
      FlushPartition(cfg, s0, turn, s);
      QuietPass(cfg, s0, turn, s);
      forall k
        ensures Arrived(turns, k) == Flatten(Calls(s.log, k)) + Lookup(s.batches, k)
      {
        ArrivedStep(cfg, s0, turn, s, before, k);
      }
    }
  }

  lemma {:induction false} ArrivedStep(cfg: Config, s0: State, turn: Turn, s: State, before: seq<Turn>, k: Key)
    requires Quiet(before) && QuietTurn(turn) && Sorted(s0.log, s0.batches) && Pass(cfg, s0, turn) == Running(s)
    requires Arrived(before, k) == Flatten(Calls(s0.log, k)) + Lookup(s0.batches, k)
    ensures
      var t := turn.read.tup;
      Arrived(before, k) + (if IsData(t) && turn.key.key == k then [t] else []) ==
      Flatten(Calls(s.log, k)) + Lookup(s.batches, k)
  {
    hide Pass;
    hide FlushScript;
    hide Calls;
    hide SinceFlush;
    hide Find;
    hide Put;
    hide Arrived;
    QuietPass(cfg, s0, turn, s);
    FlushPartition(cfg, s0, turn, s);
    assert Calls(s.log, k) == Calls(s0.log, k) + Handed(cfg, s0, turn, k);
    assert SinceFlush(s0.log, k) == Lookup(s0.batches, k);
    if IsData(turn.read.tup) {
      LookupPut(s0.batches, turn.key.key, Lookup(s0.batches, turn.key.key) + [turn.read.tup], k);
    }
    assert Calls(s0.log, k) + [] == Calls(s0.log, k);
    var calls := Calls(s0.log, k) + [SinceFlush(s0.log, k)];
    assert calls[..|calls| - 1] == Calls(s0.log, k);
  }

  /** Grouping: whatever the input, for every key the batches handed to `process_batch`, one after the other,
      followed by what is pending, are that key's tuples in arrival order. */
  lemma GroupingRefinement(cfg: Config, room: nat, turns: seq<Turn>, s: State, k: Key)
    requires Quiet(turns) && Run(cfg, room, turns) == Running(s)
    ensures Flatten(Calls(s.log, k)) + Lookup(s.batches, k) == Arrived(turns, k)
    ensures Lookup(s.batches, k) == SinceFlush(s.log, k)
  {
    SortedRun(cfg, room, turns, s);
  }

  predicate IsTickTurn(t: Turn) {
    t.read.Got? && IsTick(t.read.tup) && !IsHeartbeat(t.read.tup)
  }

  function Ticks(turns: seq<Turn>): nat {
    if turns == [] then 0 else Ticks(turns[..|turns| - 1]) + if IsTickTurn(turns[|turns| - 1]) then 1 else 0
  }

  /** After every tick, pending batches mean that the counter has not run out. */
  lemma TickBound(cfg: Config, s: State, turn: Turn, s1: State)
    requires QuietTurn(turn) && IsTickTurn(turn) && Pass(cfg, s, turn) == Running(s1)
    ensures s1.batches != [] ==> s1.ticks <= cfg.ticksBetweenBatches
  {
    QuietPass(cfg, s, turn, s1);
  }

  /** t was handed to `process_batch` under k in this stretch of the trace. */
  ghost predicate HandedIn(log: seq<Event>, k: Key, t: Tup) {
    exists tups :: Batch(k, tups) in log && t in tups
  }

  lemma {:induction false} FlushHands(cfg: Config, b: seq<Entry>, i: nat, k: Key, t: Tup)
    requires i <= Find(b, k) < |b| && t in Lookup(b, k)
    ensures HandedIn(FlushScript(cfg, b, NoFault, i), k, t)
    decreases |b| - i
  {
    if i == Find(b, k) {
      assert Batch(k, b[i].tups) in FlushScript(cfg, b, NoFault, i);
    } else {
      FlushHands(cfg, b, i + 1, k, t);
      var tups :| Batch(k, tups) in FlushScript(cfg, b, NoFault, i + 1) && t in tups;
      assert Batch(k, tups) in FlushScript(cfg, b, NoFault, i);
    }
  }

  /** The state of one tuple's wait: handed over by now, or still pending with a counter that has seen every
      tick since and has not run out. */
  lemma {:induction false} Wait(cfg: Config, room: nat, pre: seq<Turn>, post: seq<Turn>, mid: State, k: Key, t: Tup,
                                s: State)
    requires Quiet(pre + post) && Run(cfg, room, pre) == Running(mid) && t in Lookup(mid.batches, k)
    requires Run(cfg, room, pre + post) == Running(s)
    ensures mid.log <= s.log
    ensures
      || HandedIn(s.log[|mid.log|..], k, t)
      || (t in Lookup(s.batches, k) && Ticks(post) <= s.ticks
        && (Ticks(post) > 0 ==> s.ticks <= cfg.ticksBetweenBatches))
  {
    hide Run, Pass, Lookup, Ticks, HandedIn, QuietTurn, IsTickTurn;
    TicksNext(post);
    if post == [] {
      assert pre + post == pre;
      NeverNegative(cfg, room, pre, s);
    } else {
      var before, turn := post[..|post| - 1], post[|post| - 1];
      assert (pre + post)[..|pre + post| - 1] == pre + before;
      assert turn in pre + post && forall u | u in pre + before :: u in pre + post;
      RunNext(cfg, room, pre + post);
      var s0 := Run(cfg, room, pre + before).state;
      Wait(cfg, room, pre, before, mid, k, t, s0);
      WaitStep(cfg, mid.log, s0, turn, s, k, t);
    }
  }

  lemma RunNext(cfg: Config, room: nat, turns: seq<Turn>)
    requires turns != [] && Run(cfg, room, turns).Running?
    ensures
      var p := Run(cfg, room, turns[..|turns| - 1]);
      p.Running? && Run(cfg, room, turns) == Pass(cfg, p.state, turns[|turns| - 1])
  {
  }

  lemma TicksNext(turns: seq<Turn>)
    ensures Ticks(turns) ==
      if turns == [] then 0 else Ticks(turns[..|turns| - 1]) + if IsTickTurn(turns[|turns| - 1]) then 1 else 0
  {
  }

  lemma NeverNegative(cfg: Config, room: nat, turns: seq<Turn>, s: State)
    requires Quiet(turns) && Run(cfg, room, turns) == Running(s)
    ensures s.ticks >= 0
  {
    SortedRun(cfg, room, turns, s);
  }

  lemma WaitStep(cfg: Config, start: seq<Event>, s0: State, turn: Turn, s: State, k: Key, t: Tup)
    requires QuietTurn(turn) && Pass(cfg, s0, turn) == Running(s) && start <= s0.log
    ensures start <= s.log
    ensures HandedIn(s0.log[|start|..], k, t) ==> HandedIn(s.log[|start|..], k, t)
    ensures t in Lookup(s0.batches, k) ==>
      || HandedIn(s.log[|start|..], k, t)
      || (t in Lookup(s.batches, k) && s.ticks == s0.ticks + (if IsTickTurn(turn) then 1 else 0)
          && (IsTickTurn(turn) ==> s.ticks <= cfg.ticksBetweenBatches))
  {
    hide Pass;
    hide FlushScript;
    QuietPass(cfg, s0, turn, s);
    if Flushes(cfg, s0, turn) {
      var script := FlushScript(cfg, s0.batches, NoFault, 0);
      assert s.log[|start|..] == s0.log[|start|..] + [Tick(turn.read.tup.id), Ack(turn.read.tup.id)] + script;
      if t in Lookup(s0.batches, k) {
        FlushHands(cfg, s0.batches, 0, k, t);
        var tups :| Batch(k, tups) in script && t in tups;
        assert Batch(k, tups) in s.log[|start|..];
      }
    } else if IsData(turn.read.tup) {
      LookupPut(s0.batches, turn.key.key, Lookup(s0.batches, turn.key.key) + [turn.read.tup], k);
    }
    assert s0.log <= s.log;
    if HandedIn(s0.log[|start|..], k, t) {
      var tups :| Batch(k, tups) in s0.log[|start|..] && t in tups;
      assert Batch(k, tups) in s.log[|start|..];
    }
  }

  /** Waiting: a tuple filed under k has been handed to `process_batch` once `ticks_between_batches` + 1 ticks
      have followed it. */
  lemma WaitingBound(cfg: Config, room: nat, pre: seq<Turn>, turn: Turn, post: seq<Turn>, mid: State, s: State)
    requires QuietTurn(turn) && IsData(turn.read.tup) && Quiet(pre + [turn] + post)
    requires Run(cfg, room, pre + [turn]) == Running(mid) && Run(cfg, room, pre + [turn] + post) == Running(s)
    requires Ticks(post) > cfg.ticksBetweenBatches
    ensures mid.log <= s.log && HandedIn(s.log[|mid.log|..], turn.key.key, turn.read.tup)
  {
    var k, t := turn.key.key, turn.read.tup;
    assert turn in pre + [turn] + post;
    assert (pre + [turn])[..|pre + [turn]| - 1] == pre;
    var s0 := Run(cfg, room, pre).state;
    QuietPass(cfg, s0, turn, mid);
    LookupPut(s0.batches, k, Lookup(s0.batches, k) + [t], k);
    Wait(cfg, room, pre + [turn], post, mid, k, t, s);
  }
}
