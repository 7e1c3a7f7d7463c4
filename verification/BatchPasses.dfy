/** `BatchingBolt`: when a pass of the run loop leaves and with which status, what it leaves in the fields, and what
    the flags switch off. */
module BatchPasses {
  import opened Options
  import opened BatchSpec
  import opened BatchAccounting
  import opened BatchGrouping

  // ---- leaving ----

  /** What is raised in this pass if the pipe holds: by a read, by `group_key`, or by a flush. */
  function RaisedIn(cfg: Config, s: State, turn: Turn): Option<Exc> {
    match turn.read
    case AtEnd => Some(WentAway)
    case Malformed => Some(Ordinary)
    case Got(t) =>
      if IsHeartbeat(t) then None
      else if IsTick(t) then
        if Flushes(cfg, s, turn) && FaultIn(s.batches, turn.fault) then Some(turn.fault.exc) else None
      else if turn.key.KeyRaises? then Some(turn.key.exc) else None
  }

  /** How many messages a trace holds. */
  function Messages(log: seq<Event>): nat {
    if log == [] then 0 else Messages(log[..|log| - 1]) + if IsMessage(log[|log| - 1]) then 1 else 0
  }

  lemma {:induction false} PlaySends(log: seq<Event>, room: nat, script: seq<Event>)
    ensures
      var p := Play(log, room, script);
      Messages(p.log) + p.room == Messages(log) + room && (!p.ok ==> p.room == 0)
    decreases |script|
  {
    if script != [] && (!IsMessage(script[0]) || room > 0) {
      assert (log + [script[0]])[..|log|] == log;
      PlaySends(log + [script[0]], if IsMessage(script[0]) then room - 1 else room, script[1..]);
    }
  }

  lemma ReadSends(log: seq<Event>, t: Tup)
    ensures Messages(log + [Arrival(t)]) == Messages(log)
  {
    assert (log + [Arrival(t)])[..|log|] == log;
  }

  /** Whether the trace is as full as the pipe. */
  predicate Full(s: State, log: seq<Event>) {
    Messages(log) == Messages(s.log) + s.room
  }

  lemma FlushEnds(cfg: Config, s: State, fault: Fault)
    ensures match Flush(cfg, s, fault)
      case Ok(s1) => !FaultIn(s.batches, fault) && Messages(s1.log) + s1.room == Messages(s.log) + s.room
      case Raised(s1) =>
        FaultIn(s.batches, fault) && fault.exc.Ordinary? && Messages(s1.log) + s1.room == Messages(s.log) + s.room
      case Gone(log) => (FaultIn(s.batches, fault) && fault.exc.WentAway?) || Full(s, log)
  {
    hide Messages, FlushScript;
    PlaySends(s.log, s.room, FlushScript(cfg, s.batches, fault, 0));
  }

  lemma RunOnceEnds(cfg: Config, s: State, turn: Turn)
    ensures match RunOnce(cfg, s, turn)
      case Ok(s1) => RaisedIn(cfg, s, turn) == None
      case Raised(s1) =>
        RaisedIn(cfg, s, turn) == Some(Ordinary) && Messages(s1.log) + s1.room == Messages(s.log) + s.room
      case Gone(log) => RaisedIn(cfg, s, turn) == Some(WentAway) || Full(s, log)
  {
    hide Messages, Flush, Play;
    if turn.read.Got? {
      var t := turn.read.tup;
      var s1 := s.(current := [t], log := s.log + [Arrival(t)]);
      ReadSends(s.log, t);
      PlaySends(s1.log, s1.room, [Sync]);
      PlaySends(s1.log, s1.room, [Ack(t.id)]);
      var p := Play(s1.log, s1.room, [Ack(t.id)]);
      FlushEnds(cfg, s1.(ticks := s1.ticks + 1, log := p.log, room := p.room), turn.fault);
    }
  }

  /** A pass leaves with status 1 exactly when something ordinary was raised under `exit_on_exception` and the pipe
      took the handler's messages; with status 2 only when the input has ended, user code said so or the pipe is
      full; and otherwise stays, with nothing raised or `exit_on_exception` off. */
  lemma PassEnds(cfg: Config, s: State, turn: Turn)
    ensures match Pass(cfg, s, turn)
      case Running(s1) =>
        RaisedIn(cfg, s, turn) == None || (RaisedIn(cfg, s, turn) == Some(Ordinary) && !cfg.exitOnException)
      case Exited(status, handled, log) =>
        if status == 1 then
          RaisedIn(cfg, s, turn) == Some(Ordinary) && cfg.exitOnException && handled == !turn.loggerRaises
        else
          status == 2 && !handled && (RaisedIn(cfg, s, turn) == Some(WentAway) || Full(s, log))
  {
    hide Messages, RunOnce, HandlerScript, RaisedIn;
    RunOnceEnds(cfg, s, turn);
    var r := RunOnce(cfg, s, turn);
    if r.Raised? {
      PlaySends(r.state.log, r.state.room, HandlerScript(cfg, r.state));
    }
  }

  /** With `exit_on_exception` off a process is only ever left because Storm is gone. */
  lemma {:induction false} OnlyStormEndsIt(cfg: Config, room: nat, turns: seq<Turn>)
    requires !cfg.exitOnException
    ensures Run(cfg, room, turns).Exited? ==> Run(cfg, room, turns).status == 2
  {
    hide Pass;
    if turns != [] {
      var before := turns[..|turns| - 1];
      OnlyStormEndsIt(cfg, room, before);
      if Run(cfg, room, before).Running? {
        PassEnds(cfg, Run(cfg, room, before).state, turns[|turns| - 1]);
      }
    }
  }

  // ---- what stays in the fields ----

  /** `_current_tups` at the head of the loop: empty after a pass that raised nothing; after one that did, what the
      handler had before it. */
  lemma CurrentAfter(cfg: Config, s: State, turn: Turn, s1: State)
    requires Pass(cfg, s, turn) == Running(s1)
    ensures s1.current ==
      if RaisedIn(cfg, s, turn) == None then []
      else if turn.read.Malformed? then s.current
      else if IsTickTurn(turn) then s.batches[turn.fault.index].tups
      else [turn.read.tup]
  {
    hide Play, FlushScript, HandlerScript, Emptied, Put;
    RunOnceEnds(cfg, s, turn);
  }

  /** `_current_key` is None at the head of the loop as long as no logger kept an exception from the handler. */
  lemma {:induction false} NoKeyAtHead(cfg: Config, room: nat, turns: seq<Turn>, s: State)
    requires cfg.autoFail && (forall turn | turn in turns :: !turn.loggerRaises)
    requires Run(cfg, room, turns) == Running(s)
    ensures s.key == None
  {
    if turns != [] {
      var before, turn := turns[..|turns| - 1], turns[|turns| - 1];
      assert turn in turns && forall u | u in before :: u in turns;
      var s0 := Run(cfg, room, before).state;
      NoKeyAtHead(cfg, room, before, s0);
      KeyAfter(cfg, s0, turn, s);
    }
  }

  lemma KeyAfter(cfg: Config, s: State, turn: Turn, s1: State)
    requires cfg.autoFail && !turn.loggerRaises && s.key == None && Pass(cfg, s, turn) == Running(s1)
    ensures s1.key == None
  {
    hide Play, FlushScript, HandlerScript, Emptied, Put;
  }

  /** A `group_key` that raises, handled, with `exit_on_exception` off and no current key: besides the tuple the
      batch under None is failed and emptied, and every other batch stays as it was. */
  lemma RaisingKeyBatch(cfg: Config, s: State, turn: Turn, s1: State)
    requires DefaultFlags(cfg) && !cfg.exitOnException && UniqueKeys(s.batches) && s.key == None
    requires KeyRaised(turn) && !turn.loggerRaises && Pass(cfg, s, turn) == Running(s1)
    requires Pending(s.batches, turn.read.tup.id) == 0
    ensures forall k :: Lookup(s1.batches, k) == if k == None then [] else Lookup(s.batches, k)
    ensures forall x ::
      && Count(s1.log, Fail(x)) ==
         Count(s.log, Fail(x)) + Times(Lookup(s.batches, None), x) + (if turn.read.tup.id == x then 1 else 0)
      && Count(s1.log, Ack(x)) == Count(s.log, Ack(x))
  {
    hide Handle, Lookup, Put, Times, Pending, Leftover, Count;
    var t := turn.read.tup;
    var r := s.(current := [t], log := s.log + [Data(t.id)]);
    assert RunOnce(cfg, s, turn) == Raised(r);
    HandlerStores(cfg, r);
    forall k
      ensures Lookup(s1.batches, k) == if k == None then [] else Lookup(s.batches, k)
    {
      LookupPut(s.batches, None, [], k);
    }
    forall x
      ensures Count(s1.log, Fail(x)) ==
        Count(s.log, Fail(x)) + Times(Lookup(s.batches, None), x) + (if t.id == x then 1 else 0)
      ensures Count(s1.log, Ack(x)) == Count(s.log, Ack(x))
    {
      ReadCounts(s.log, Data(t.id), x);
      HandlerAccounts(cfg, r, x);
      NewIsLeftover(cfg, r, t, x);
    }
  }

  lemma HandlerStores(cfg: Config, s: State)
    requires cfg.autoFail && Handle(cfg, s).Ok?
    ensures Handle(cfg, s).state.batches == Put(s.batches, s.key, [])
  {
    hide Play, HandlerScript, Put;
  }

  // ---- what the flags switch off ----

  predicate NoAckIn(script: seq<Event>) {
    forall e | e in script :: !e.Ack?
  }

  predicate NoFailIn(script: seq<Event>) {
    forall e | e in script :: !e.Fail?
  }

  lemma {:induction false} FlushHasNoFail(cfg: Config, b: seq<Entry>, fault: Fault, i: nat)
    requires i <= |b|
    ensures NoFailIn(FlushScript(cfg, b, fault, i))
    ensures !cfg.autoAck ==> NoAckIn(FlushScript(cfg, b, fault, i))
    decreases |b| - i
  {
    if i < |b| {
      FlushHasNoFail(cfg, b, fault, i + 1);
    }
  }

  /** With `auto_fail` off nothing is ever failed, however the run ends. */
  lemma {:induction false} AutoFailOff(cfg: Config, room: nat, turns: seq<Turn>)
    requires !cfg.autoFail
    ensures NoFailIn(LogOf(Run(cfg, room, turns)))
  {
    hide Pass;
    if turns != [] {
      var before := turns[..|turns| - 1];
      AutoFailOff(cfg, room, before);
      if Run(cfg, room, before).Running? {
        PassFailsNone(cfg, Run(cfg, room, before).state, turns[|turns| - 1]);
      }
    }
  }

  lemma PassFailsNone(cfg: Config, s: State, turn: Turn)
    requires !cfg.autoFail && NoFailIn(s.log)
    ensures NoFailIn(LogOf(Pass(cfg, s, turn)))
  {
    hide Play, FlushScript;
    var r := RunOnce(cfg, s, turn);
    if turn.read.Got? {
      var t := turn.read.tup;
      var log := s.log + [Arrival(t)];
      PlayAddsFrom(log, s.room, [Sync]);
      PlayAddsFrom(log, s.room, [Ack(t.id)]);
      var p := Play(log, s.room, [Ack(t.id)]);
      FlushHasNoFail(cfg, s.batches, turn.fault, 0);
      PlayAddsFrom(p.log, p.room, FlushScript(cfg, s.batches, turn.fault, 0));
    }
    if r.Raised? {
      PlayAddsFrom(r.state.log, r.state.room, HandlerScript(cfg, r.state));
    }
  }

  /** And the handler then leaves the batches and the key as the exception left them. */
  lemma HandlerKeepsBatches(cfg: Config, s: State)
    requires !cfg.autoFail && Handle(cfg, s).Ok?
    ensures
      var s1 := Handle(cfg, s).state;
      s1.batches == s.batches && s1.key == s.key && s1.log == s.log + [Error, Sync]
  {
    hide Play;
    PlayAppends(s.log, s.room, HandlerScript(cfg, s));
    assert HandlerScript(cfg, s) == [Error, Sync];
  }

  /** With `auto_ack` off only ticks are ever acked, however the run ends. */
  lemma {:induction false} AutoAckOff(cfg: Config, room: nat, turns: seq<Turn>, x: Id)
    requires !cfg.autoAck && Ack(x) in LogOf(Run(cfg, room, turns))
    ensures Tick(x) in LogOf(Run(cfg, room, turns))
  {
    hide Pass;
    if turns != [] {
      var before := turns[..|turns| - 1];
      var p := Run(cfg, room, before);
      var turn := turns[|turns| - 1];
      if Ack(x) in LogOf(p) {
        AutoAckOff(cfg, room, before, x);
      }
      if p.Running? {
        var seen := p.state.log + if turn.read.Got? then [Arrival(turn.read.tup)] else [];
        PassExtends(cfg, p.state, turn);
        assert forall e | e in seen :: e in LogOf(Run(cfg, room, turns));
        if Ack(x) !in p.state.log {
          PassAcksTicks(cfg, p.state, turn, x);
          assert Tick(x) in seen;
        }
      }
    }
  }

  lemma PassAcksTicks(cfg: Config, s: State, turn: Turn, x: Id)
    requires !cfg.autoAck && Ack(x) in LogOf(Pass(cfg, s, turn)) && Ack(x) !in s.log
    ensures turn.read.Got? && Arrival(turn.read.tup) == Tick(x)
  {
    hide Play, FlushScript;
    var r := RunOnce(cfg, s, turn);
    if turn.read.Got? {
      var t := turn.read.tup;
      var log := s.log + [Arrival(t)];
      PlayAddsFrom(log, s.room, [Sync]);
      PlayAddsFrom(log, s.room, [Ack(t.id)]);
      var p := Play(log, s.room, [Ack(t.id)]);
      FlushHasNoFail(cfg, s.batches, turn.fault, 0);
      PlayAddsFrom(p.log, p.room, FlushScript(cfg, s.batches, turn.fault, 0));
    }
    if r.Raised? {
      PlayAddsFrom(r.state.log, r.state.room, HandlerScript(cfg, r.state));
    }
  }
}
