/** `BatchingBolt` and its run loop as they update their fields, each method proved against BatchSpec. */
module BatchingBolts {
  import opened Options
  import opened BatchSpec

  /** How a method ends. */
  datatype Exit = Returned | Raise | Away

  lemma PlayNothing(log: seq<Event>, room: nat)
    ensures Play(log, room, []) == Played(log, room, true)
  {
  }

  /** The pipe's behaviour on one stretch of script is settled by its parts. */
  lemma {:induction false} PlayConcat(log: seq<Event>, room: nat, a: seq<Event>, b: seq<Event>)
    ensures
      var p := Play(log, room, a);
      Play(log, room, a + b) == if p.ok then Play(p.log, p.room, b) else p
    decreases |a|
  {
    if a == [] {
      assert a + b == b;
    } else {
      assert (a + b)[1..] == a[1..] + b;
      if !IsMessage(a[0]) {
        PlayConcat(log + [a[0]], room, a[1..], b);
      } else if room > 0 {
        PlayConcat(log + [a[0]], room - 1, a[1..], b);
      }
    }
  }

  /** What is left of a flush after batch i, or what batch i's broken pipe leaves. */
  lemma FlushFrom(cfg: Config, log: seq<Event>, room: nat, b: seq<Entry>, fault: Fault, i: nat)
    requires i < |b|
    ensures
      var call := log + [Batch(b[i].key, b[i].tups)];
      var p := Play(call, room, if cfg.autoAck then Acks(b[i].tups) else []);
      Play(log, room, FlushScript(cfg, b, fault, i)) ==
      if fault.FaultAt? && fault.index == i then Played(call, room, true)
      else if p.ok then Play(p.log, p.room, FlushScript(cfg, b, fault, i + 1))
      else p
  {
    var call := [Batch(b[i].key, b[i].tups)];
    var acks := if cfg.autoAck then Acks(b[i].tups) else [];
    if !(fault.FaultAt? && fault.index == i) {
      var rest := FlushScript(cfg, b, fault, i + 1);
      assert FlushScript(cfg, b, fault, i) == call + (acks + rest);
      PlayConcat(log, room, call, acks + rest);
      PlayConcat(log + call, room, acks, rest);
    }
  }

  /** Turns after the exit change nothing. */
  lemma {:induction false} RunStays(cfg: Config, room: nat, turns: seq<Turn>, i: nat)
    requires i <= |turns|
    ensures BatchSpec.Run(cfg, room, turns[..i]).Exited? ==>
      BatchSpec.Run(cfg, room, turns) == BatchSpec.Run(cfg, room, turns[..i])
    decreases |turns|
  {
    if i < |turns| {
      assert turns[..|turns| - 1][..i] == turns[..i];
      RunStays(cfg, room, turns[..|turns| - 1], i);
    } else {
      assert turns[..i] == turns;
    }
  }

  class BatchingBolt {
    const cfg: Config
    var batches: seq<Entry>
    var currentTups: seq<Tup>
    var currentKey: Key
    var tickCounter: int
    var log: seq<Event>
    var room: nat

    function State(): State
      reads this
    {
      BatchSpec.State(batches, currentTups, currentKey, tickCounter, log, room)
    }

    /** The fields and the ending are those of a result; after StormWentAwayError only the trace is fixed. */
    predicate Ends(r: Result, exit: Exit)
      reads this
    {
      match r
      case Ok(s) => exit == Returned && State() == s
      case Raised(s) => exit == Raise && State() == s
      case Gone(l) => exit == Away && log == l
    }

    constructor (cfg: Config, room: nat)
      ensures this.cfg == cfg && State() == Initial.(room := room)
    {
      this.cfg, batches, currentTups, currentKey, tickCounter, log := cfg, [], [], None, 0, [];
      this.room := room;
    }

    /** `send_message`: append to the trace, or find the pipe closed. */
    method Send(message: Event) returns (exit: Exit)
      requires IsMessage(message)
      modifies this`log, this`room
      ensures
        var p := Play(old(log), old(room), [message]);
        log == p.log && room == p.room && exit == if p.ok then Returned else Away
    {
      if room == 0 {
        return Away;
      }
      log, room := log + [message], room - 1;
      return Returned;
    }

    /** `ack` or `fail` one tuple after the other. */
    method SendAll(messages: seq<Event>) returns (exit: Exit)
      requires forall m | m in messages :: IsMessage(m)
      modifies this`log, this`room
      ensures
        var p := Play(old(log), old(room), messages);
        log == p.log && room == p.room && exit == if p.ok then Returned else Away
    {
      ghost var whole := Play(log, room, messages);
      var i := 0;
      while i < |messages|
        invariant 0 <= i <= |messages|
        invariant whole == Play(log, room, messages[i..])
      {
        assert messages[i..] == [messages[i]] + messages[i + 1..];
        PlayConcat(log, room, [messages[i]], messages[i + 1..]);
        exit := Send(messages[i]);
        if exit == Away {
          return;
        }
        i := i + 1;
      }
      return Returned;
    }

    /** One batch of `process_batches`: make it current, hand it to user code, ack it. */
    method ProcessOne(e: Entry, raises: Option<Exc>) returns (exit: Exit)
      modifies this`currentTups, this`currentKey, this`log, this`room
      ensures currentTups == e.tups && currentKey == e.key
      ensures raises.Some? ==> log == old(log) + [Batch(e.key, e.tups)] && room == old(room)
      ensures raises.Some? ==> exit == if raises.value.WentAway? then Away else Raise
      ensures raises.None? ==>
        var p := Play(old(log) + [Batch(e.key, e.tups)], old(room), if cfg.autoAck then Acks(e.tups) else []);
        log == p.log && room == p.room && exit == if p.ok then Returned else Away
    {
      currentTups, currentKey := e.tups, e.key;
      log := log + [Batch(e.key, e.tups)];
      if raises.Some? {
        return if raises.value.WentAway? then Away else Raise;
      }
      if cfg.autoAck {
        exit := SendAll(Acks(e.tups));
      } else {
        exit := Returned;
      }
    }

    /** `process_batches`. `fault` says whether user code raises, and at which batch. */
    method ProcessBatches(fault: Fault) returns (exit: Exit)
      modifies this
      ensures Ends(Flush(cfg, old(State()), fault), exit)
    {
      hide Play;
      var b := batches;
      ghost var whole := Play(log, room, FlushScript(cfg, b, fault, 0));
      var i := 0;
      while i < |b|
        invariant 0 <= i <= |b|
        invariant whole == Play(log, room, FlushScript(cfg, b, fault, i))
        invariant batches == Emptied(b, i) && tickCounter == old(tickCounter)
        invariant i > 0 ==> currentTups == b[i - 1].tups && currentKey == None
        invariant i == 0 ==> currentTups == old(currentTups) && currentKey == old(currentKey)
        invariant fault.FaultAt? ==> i <= fault.index || |b| <= fault.index
      {
        FlushFrom(cfg, log, room, b, fault, i);
        exit := ProcessOne(b[i], if fault.FaultAt? && fault.index == i then Some(fault.exc) else None);
        if exit != Returned {
          return;
        }
        currentKey := None;
        batches := Put(batches, b[i].key, []);
        i := i + 1;
      }
      PlayNothing(log, room);
      batches := [];
      return Returned;
    }

    /** `process_tick`. */
    method ProcessTick(tickTup: Tup, fault: Fault) returns (exit: Exit)
      modifies this
      ensures Ends(BatchSpec.ProcessTick(cfg, old(State()), tickTup, fault), exit)
    {
      tickCounter := tickCounter + 1;
      exit := Send(Ack(tickTup.id));
      if exit == Away {
        return;
      }
      if tickCounter > cfg.ticksBetweenBatches && batches != [] {
        exit := ProcessBatches(fault);
        if exit == Returned {
          tickCounter := 0;
        }
      }
    }

    /** `process`. */
    method Process(tup: Tup, groupKey: KeyOutcome) returns (exit: Exit)
      modifies this`batches, this`log
      ensures Ends(BatchSpec.Process(old(State()), tup, groupKey), exit)
    {
      match groupKey
      case KeyRaises(exc) =>
        return if exc.WentAway? then Away else Raise;
      case Returns(k) =>
        log := log + [Keyed(tup, k)];
        batches := Put(batches, k, Lookup(batches, k) + [tup]);
        return Returned;
    }

    /** `_run`. */
    method RunOnce(turn: Turn) returns (exit: Exit)
      modifies this
      ensures Ends(BatchSpec.RunOnce(cfg, old(State()), turn), exit)
    {
      if !turn.read.Got? {
        return if turn.read.AtEnd? then Away else Raise;
      }
      var tup := turn.read.tup;
      log := log + [Arrival(tup)];
      currentTups := [tup];
      if IsHeartbeat(tup) {
        exit := Send(Sync);
      } else if IsTick(tup) {
        exit := ProcessTick(tup, turn.fault);
      } else {
        exit := Process(tup, turn.key);
      }
      if exit == Returned {
        currentTups := [];
      }
    }

    /** The first loop of `_handle_run_exception`: fail the batches that are wiped out. */
    method FailWiped() returns (exit: Exit, failed: set<Id>)
      modifies this`log, this`room
      ensures
        var wiped := Wiped(cfg, batches, currentKey, 0);
        var p := Play(old(log), old(room), Fails(wiped));
        log == p.log && room == p.room && exit == (if p.ok then Returned else Away) && (p.ok ==> failed == Ids(wiped))
    {
      hide Play;
      ghost var wiped := Wiped(cfg, batches, currentKey, 0);
      failed := {};
      var i := 0;
      while i < |batches|
        invariant 0 <= i <= |batches|
        invariant failed + Ids(Wiped(cfg, batches, currentKey, i)) == Ids(wiped)
        invariant Play(old(log), old(room), Fails(wiped)) == Play(log, room, Fails(Wiped(cfg, batches, currentKey, i)))
      {
        ghost var later := Wiped(cfg, batches, currentKey, i + 1);
        if cfg.exitOnException || batches[i].key == currentKey {
          var batch := batches[i].tups;
          assert Fails(batch + later) == Fails(batch) + Fails(later);
          PlayConcat(log, room, Fails(batch), Fails(later));
          exit := SendAll(Fails(batch));
          if exit == Away {
            return;
          }
          failed := failed + Ids(batch);
        } else {
          assert [] + later == later;
        }
        i := i + 1;
      }
      assert Fails([]) == [];
      PlayNothing(log, room);
      return Returned, failed;
    }

    /** The second loop: fail what is left of the current tuples. */
    method FailLeftover(failed: set<Id>) returns (exit: Exit)
      modifies this`log, this`room
      ensures
        var p := Play(old(log), old(room), Fails(NotIn(currentTups, failed)));
        log == p.log && room == p.room && exit == if p.ok then Returned else Away
    {
      ghost var whole := Play(log, room, Fails(NotIn(currentTups, failed)));
      var i := 0;
      while i < |currentTups|
        invariant 0 <= i <= |currentTups|
        invariant whole == Play(log, room, Fails(NotIn(currentTups[i..], failed)))
      {
        var tup := currentTups[i];
        ghost var later := NotIn(currentTups[i + 1..], failed);
        assert currentTups[i..][1..] == currentTups[i + 1..];
        if tup.id !in failed {
          assert Fails([tup] + later) == [Fail(tup.id)] + Fails(later);
          PlayConcat(log, room, [Fail(tup.id)], Fails(later));
          exit := Send(Fail(tup.id));
          if exit == Away {
            return;
          }
        } else {
          assert [] + later == later;
        }
        i := i + 1;
      }
      return Returned;
    }

    /** `_handle_run_exception`. */
    method HandleRunException() returns (exit: Exit)
      modifies this
      ensures Ends(Handle(cfg, old(State())), exit)
    {
      hide Play;
      ghost var s := State();
      var report := [Error, Sync];
      ghost var fails := HandlerScript(cfg, s)[2..];
      assert HandlerScript(cfg, s) == report + fails;
      PlayConcat(log, room, report, fails);
      exit := SendAll(report);
      if exit == Away {
        return;
      }
      PlayNothing(log, room);
      if cfg.autoFail {
        ghost var wiped := Wiped(cfg, batches, currentKey, 0);
        assert fails == Fails(wiped) + Fails(NotIn(currentTups, Ids(wiped)));
        PlayConcat(log, room, Fails(wiped), Fails(NotIn(currentTups, Ids(wiped))));
        var failed;
        exit, failed := FailWiped();
        if exit == Away {
          return;
        }
        exit := FailLeftover(failed);
        if exit == Away {
          return;
        }
        batches, currentKey := Put(batches, currentKey, []), None;
      }
      return Returned;
    }

    /** One pass of the loop in `Component.run`; `status` is the exit status when the process leaves, and
        `handled` says that the exception handler ran to its end. */
    method Pass(turn: Turn) returns (status: Option<int>, handled: bool)
      modifies this
      ensures match BatchSpec.Pass(cfg, old(State()), turn)
        case Running(s) => status == None && State() == s
        case Exited(code, h, l) => status == Some(code) && handled == h && log == l
    {
      handled := false;
      var exit := RunOnce(turn);
      if exit == Away {
        return Some(2), false;
      }
      if exit == Raise {
        if !turn.loggerRaises {
          exit := HandleRunException();
          if exit == Away {
            return Some(2), false;
          }
          handled := true;
        }
        if cfg.exitOnException {
          return Some(1), handled;
        }
      }
      return None, handled;
    }

    /** `run` after the handshake, over the turns the outside world takes. */
    method Run(turns: seq<Turn>) returns (status: Option<int>, handled: bool)
      requires State() == Initial.(room := room)
      modifies this
      ensures match BatchSpec.Run(cfg, old(room), turns)
        case Running(s) => status == None && State() == s
        case Exited(code, h, l) => status == Some(code) && handled == h && log == l
    {
      status, handled := None, false;
      var i := 0;
      while i < |turns| && status == None
        invariant 0 <= i <= |turns|
        invariant match BatchSpec.Run(cfg, old(room), turns[..i])
          case Running(s) => status == None && State() == s
          case Exited(code, h, l) => status == Some(code) && handled == h && log == l
      {
        assert turns[..i + 1][..i] == turns[..i];
        status, handled := Pass(turns[i]);
        i := i + 1;
      }
      assert turns[..|turns|] == turns;
      RunStays(cfg, old(room), turns, i);
    }
  }
}
