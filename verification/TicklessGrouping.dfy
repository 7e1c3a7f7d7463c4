/** What the tickless bolt files under which key, and what its timer hands to `process_batch`. */
module TicklessGrouping {
  import opened Options
  import opened BatchSpec
  import opened BatchAccounting
  import opened BatchGrouping
  import opened Tickless

  // ---- one lock section ----

  /** One lock section: a heartbeat is answered by a sync, a tick by its ack, and a data tuple joins the tuples
      under the key that `group_key` returned for it, and no others. */
  lemma SectionFiles(s: State, t: Tup, key: Key)
    requires RunSection(s, t, key).Ok?
    ensures
      var s1 := RunSection(s, t, key).state;
      && (IsHeartbeat(t) ==> s1.log == s.log + [Sync])
      && (!IsHeartbeat(t) && IsTick(t) ==> s1.log == s.log + [Ack(t.id)])
      && (IsData(t) ==> s1.log == s.log + [Keyed(t, key)])
      && forall k :: Lookup(s1.batches, k) == Lookup(s.batches, k) + if IsData(t) && k == key then [t] else []
  {
    hide Play, Put, Lookup;
    PlayAppends(s.log, s.room, [if IsHeartbeat(t) then Sync else Ack(t.id)]);
    forall k
      ensures Lookup(RunSection(s, t, key).state.batches, k) ==
        Lookup(s.batches, k) + if IsData(t) && k == key then [t] else []
    {
      LookupPut(s.batches, key, Lookup(s.batches, key) + [t], k);
      assert Lookup(s.batches, k) + [] == Lookup(s.batches, k);
    }
  }

  // ---- from the steps alone ----

  /** The tuple that the latest read returned. */
  function LastRead(steps: seq<Step>): Option<Tup> {
    if steps == [] then None
    else if steps[|steps| - 1].ReadTuple? then Some(steps[|steps| - 1].tup)
    else LastRead(steps[..|steps| - 1])
  }

  /** The data tuples for which `group_key` returned k, in the order of their lock sections. */
  function Filed(steps: seq<Step>, k: Key): seq<Tup> {
    if steps == [] then []
    else
      var before, step := steps[..|steps| - 1], steps[|steps| - 1];
      Filed(before, k)
      + match LastRead(before)
        case Some(t) => if step.Section? && step.key == k && IsData(t) then [t] else []
        case None => []
  }

  lemma {:induction false} HeldIsLastRead(cfg: Config, room: nat, steps: seq<Step>, b: Bolt)
    requires Exec(cfg, room, steps) == Some(b) && b.main.Holding?
    ensures LastRead(steps) == Some(b.main.tup)
  {
    hide Flush, Handle, RunSection;
    if steps != [] {
      var before := steps[..|steps| - 1];
      var b0 := Exec(cfg, room, before).value;
      if b0.main.Holding? {
        HeldIsLastRead(cfg, room, before, b0);
      }
    }
  }

  // ---- whatever is raised: nothing is ever under a wrong key ----

  /** Every tuple in a batch, and every tuple handed over, was filed under that key. */
  ghost predicate UnderItsKey(b: Bolt, steps: seq<Step>, k: Key) {
    && (forall t | t in Lookup(b.core.batches, k) :: t in Filed(steps, k))
    && (forall tups, t | Batch(k, tups) in b.core.log && t in tups :: t in Filed(steps, k))
  }

  lemma {:induction false} ScriptFrom(cfg: Config, b: seq<Entry>, fault: Fault, i: nat, k: Key, tups: seq<Tup>)
    requires UniqueKeys(b) && i <= |b| && Batch(k, tups) in FlushScript(cfg, b, fault, i)
    ensures tups == Lookup(b, k)
    decreases |b| - i
  {
    if i < |b| {
      if Batch(k, tups) == Batch(b[i].key, b[i].tups) {
        LookupAt(b, i);
      } else {
        ScriptFrom(cfg, b, fault, i + 1, k, tups);
      }
    }
  }

  lemma EmptiedFrom(b: seq<Entry>, n: nat, k: Key)
    requires UniqueKeys(b) && n <= |b|
    ensures Lookup(Emptied(b, n), k) == [] || Lookup(Emptied(b, n), k) == Lookup(b, k)
  {
    hide Emptied;
    EmptiedInPlace(b, n);
    var i := Find(Emptied(b, n), k);
    if i < |b| {
      LookupAt(b, i);
    }
  }

  lemma StepKeepsKeys(cfg: Config, b: Bolt, step: Step, steps: seq<Step>, k: Key)
    requires Enabled(b, step) && Apply(cfg, b, step).Some? && UniqueKeys(b.core.batches)
    requires UnderItsKey(b, steps, k) && (b.main.Holding? ==> LastRead(steps) == Some(b.main.tup))
    ensures UniqueKeys(Apply(cfg, b, step).value.core.batches)
    ensures UnderItsKey(Apply(cfg, b, step).value, steps + [step], k)
  {
    hide Flush, Handle, RunSection, FlushScript, Emptied, UniqueKeys, Lookup, Put, Filed;
    FiledNext(steps, step, k);
    var s := b.core;
    match step
    case Section(key) =>
      SectionFiles(s, b.main.tup, key);
      SectionKeepsUnique(s, b.main.tup, key);
    case Timer(fault) =>
      FlushState(cfg, s, fault);
      NoEntries(k);
      if FaultIn(s.batches, fault) {
        EmptiedFrom(s.batches, fault.index, k);
        EmptiedUnique(s.batches, fault.index);
      }
      forall tups, t | Batch(k, tups) in FlushScript(cfg, s.batches, fault, 0) && t in tups
        ensures t in Filed(steps, k)
      {
        ScriptFrom(cfg, s.batches, fault, 0, k, tups);
      }
    case HandleException =>
      HandlerKeepsKeys(cfg, s, k);
    case _ =>
  }

  lemma FiledNext(steps: seq<Step>, step: Step, k: Key)
    ensures Filed(steps + [step], k) == Filed(steps, k)
      + if step.Section? && step.key == k && LastRead(steps).Some? && IsData(LastRead(steps).value)
        then [LastRead(steps).value] else []
  {
    assert (steps + [step])[..|steps|] == steps;
  }

  lemma NoEntries(k: Key)
    ensures Lookup([], k) == [] && UniqueKeys([])
  {
  }

  lemma EmptiedUnique(b: seq<Entry>, n: nat)
    requires UniqueKeys(b) && n <= |b|
    ensures UniqueKeys(Emptied(b, n))
  {
    EmptiedInPlace(b, n);
  }

  lemma SectionKeepsUnique(s: State, t: Tup, key: Key)
    requires UniqueKeys(s.batches) && RunSection(s, t, key).Ok?
    ensures UniqueKeys(RunSection(s, t, key).state.batches)
  {
    hide Play, Put, Lookup, UniqueKeys;
    UniquePut(s.batches, key, Lookup(s.batches, key) + [t]);
  }

  lemma HandlerKeepsKeys(cfg: Config, s: State, k: Key)
    requires UniqueKeys(s.batches) && Handle(cfg, s).Ok?
    ensures
      var s1 := Handle(cfg, s).state;
      && UniqueKeys(s1.batches)
      && (Lookup(s1.batches, k) == [] || Lookup(s1.batches, k) == Lookup(s.batches, k))
      && forall e | e in s1.log && e.Batch? :: e in s.log
  {
    hide Play, HandlerScript, Put, Lookup, UniqueKeys;
    var script := HandlerScript(cfg, s);
    PlayAppends(s.log, s.room, script);
    HandlerIsSilent(cfg, s);
    UniquePut(s.batches, s.key, []);
    LookupPut(s.batches, s.key, [], k);
  }

  lemma HandlerIsSilent(cfg: Config, s: State)
    ensures Silent(HandlerScript(cfg, s))
  {
  }

  /** Over every interleaving, exceptions and handlers included: a tuple is only ever in the batch of the key that
      `group_key` returned for it, and is only ever handed over under that key. */
  lemma {:induction false} NothingUnderAWrongKey(cfg: Config, room: nat, steps: seq<Step>, b: Bolt, k: Key)
    requires Exec(cfg, room, steps) == Some(b)
    ensures UniqueKeys(b.core.batches) && UnderItsKey(b, steps, k)
  {
    hide Apply, Enabled;
    if steps == [] {
      NoEntries(k);
    } else {
      var before, step := steps[..|steps| - 1], steps[|steps| - 1];
      var b0 := Exec(cfg, room, before).value;
      NothingUnderAWrongKey(cfg, room, before, b0, k);
      if b0.main.Holding? {
        HeldIsLastRead(cfg, room, before, b0);
      }
      StepKeepsKeys(cfg, b0, step, before, k);
      assert before + [step] == steps;
    }
  }

  // ---- when nothing is raised ----

  predicate NoFaults(steps: seq<Step>) {
    forall step | step in steps && step.Timer? :: step.fault.NoFault?
  }

  /** No exception is under way, so every signal is a stray one. */
  predicate Undisturbed(b: Bolt) {
    !b.caught && !b.excInfo && !b.main.Handling?
  }

  /** What is told of one key: handed over, one flush after the other, and then pending, is what was filed. */
  ghost predicate GroupedFor(b: Bolt, steps: seq<Step>, k: Key) {
    && Flatten(Calls(b.core.log, k)) + Lookup(b.core.batches, k) == Filed(steps, k)
    && SinceFlush(b.core.log, k) == Lookup(b.core.batches, k)
  }

  lemma CallsMade(calls: seq<seq<Tup>>, tups: seq<Tup>)
    ensures Flatten(calls + [tups]) == Flatten(calls) + tups
  {
    assert (calls + [tups])[..|calls|] == calls;
  }

  /** A timer flush hands over, under each key, all that is pending there, and leaves nothing. */
  lemma TimerHands(cfg: Config, s: State, k: Key)
    requires UniqueKeys(s.batches) && Flush(cfg, s, NoFault).Ok?
    requires SinceFlush(s.log, k) == Lookup(s.batches, k)
    ensures
      var s1 := Flush(cfg, s, NoFault).state;
      && s1.batches == []
      && Calls(s1.log, k) == Calls(s.log, k) + (if Find(s.batches, k) < |s.batches| then [Lookup(s.batches, k)] else [])
      && SinceFlush(s1.log, k) == []
  {
    hide Flush, FlushScript, Calls, SinceFlush, UniqueKeys;
    FlushState(cfg, s, NoFault);
    FlushCalls(cfg, s.log, s.batches, 0, k);
    if s.batches == [] {
      assert FlushScript(cfg, s.batches, NoFault, 0) == [] by {
        NothingToFlush(cfg);
      }
      assert s.log + [] == s.log;
    }
  }

  lemma NothingToFlush(cfg: Config)
    ensures FlushScript(cfg, [], NoFault, 0) == []
  {
  }

  lemma StepGroups(cfg: Config, b: Bolt, step: Step, steps: seq<Step>, k: Key)
    requires Enabled(b, step) && Apply(cfg, b, step).Some? && UniqueKeys(b.core.batches)
    requires Undisturbed(b) && (step.Timer? ==> step.fault.NoFault?)
    requires GroupedFor(b, steps, k) && (b.main.Holding? ==> LastRead(steps) == Some(b.main.tup))
    ensures Undisturbed(Apply(cfg, b, step).value)
    ensures GroupedFor(Apply(cfg, b, step).value, steps + [step], k)
  {
    hide Flush, Handle, RunSection, FlushScript, UniqueKeys, Find, Filed, Calls, SinceFlush, Flatten;
    FiledNext(steps, step, k);
    var s := b.core;
    match step
    case ReadTuple(t) =>
      SilentScript(s.log, [Arrival(t)], k);
    case Section(key) =>
      var t := b.main.tup;
      SectionFiles(s, t, key);
      SilentScript(s.log, [Sync], k);
      SilentScript(s.log, [Ack(t.id)], k);
      KeyedNext(s.log, t, key, k);
    case Timer(fault) =>
      FlushState(cfg, s, fault);
      TimerHands(cfg, s, k);
      CallsMade(Calls(s.log, k), Lookup(s.batches, k));
      NoEntries(k);
      assert Calls(s.log, k) + [] == Calls(s.log, k);
    case _ =>
  }

  lemma KeyedNext(log: seq<Event>, t: Tup, key: Key, k: Key)
    ensures Calls(log + [Keyed(t, key)], k) == Calls(log, k)
    ensures SinceFlush(log + [Keyed(t, key)], k) == SinceFlush(log, k) + if k == key then [t] else []
  {
    assert (log + [Keyed(t, key)])[..|log|] == log;
  }

  lemma {:induction false} ExecGroups(cfg: Config, room: nat, steps: seq<Step>, b: Bolt, k: Key)
    requires Exec(cfg, room, steps) == Some(b) && NoFaults(steps)
    ensures Undisturbed(b) && GroupedFor(b, steps, k)
  {
    hide Apply, Enabled;
    if steps != [] {
      var before, step := steps[..|steps| - 1], steps[|steps| - 1];
      assert step in steps && forall u | u in before :: u in steps;
      var b0 := Exec(cfg, room, before).value;
      ExecGroups(cfg, room, before, b0, k);
      NothingUnderAWrongKey(cfg, room, before, b0, k);
      if b0.main.Holding? {
        HeldIsLastRead(cfg, room, before, b0);
      }
      StepGroups(cfg, b0, step, before, k);
      assert before + [step] == steps;
    }
  }

  /** Grouping over interleavings: as long as no flush raises, whenever the timer fires and whatever signals
      stray, under every key the batches handed to `process_batch`, one after the other, followed by what is
      pending, are the data tuples for which `group_key` returned that key, in order. */
  lemma TimerGroups(cfg: Config, room: nat, steps: seq<Step>, b: Bolt, k: Key)
    requires Exec(cfg, room, steps) == Some(b) && NoFaults(steps)
    ensures Flatten(Calls(b.core.log, k)) + Lookup(b.core.batches, k) == Filed(steps, k)
    ensures Lookup(b.core.batches, k) == SinceFlush(b.core.log, k)
  {
    ExecGroups(cfg, room, steps, b, k);
  }

  // ---- leaving ----

  /** The main thread leaves when its input ends, with status 2, and from the except clause exactly under
      `exit_on_exception`, with status 1; otherwise it goes back to reading. */
  lemma ThreadLeaves(cfg: Config, b: Bolt, step: Step)
    requires Enabled(b, step) && Apply(cfg, b, step).Some?
    ensures
      var main := Apply(cfg, b, step).value.main;
      && (step.ReadEnds? ==> main == Left(2, false))
      && (step.HandleException? || step.LoggerRaises? ==>
            if cfg.exitOnException then main == Left(1, step.HandleException?) else main == Reading)
      && (main.Left? && !b.main.Left? ==> step.ReadEnds? || step.HandleException? || step.LoggerRaises?)
      && (main.Handling? && !b.main.Handling? ==> step.Signal? && b.excInfo)
  {
  }
}
