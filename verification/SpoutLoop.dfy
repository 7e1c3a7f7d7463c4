/** `Spout._run` inside `Component.run`: one `sync` for every command. */
module SpoutLoop {

  /** The callbacks `_run` dispatches to; any other command is only logged. */
  datatype Command = NextTuple | Ack | Fail | Activate | Deactivate | Unknown

  /** What happens, in order. `Emitted` stands for any message sent by user code. */
  datatype Event = Read(command: Command) | Emitted | Error | Sync

  /** How a callback ends once its messages are out. */
  datatype Ending = Returns | Raises | StormGone

  /** One pass over well-formed input: the command read, or the end of the stream; how many messages the
      callback sends and how it ends; and whether the logger raises in the except clause of `run`. */
  datatype Turn = AtEnd | Turn(command: Command, emits: nat, ending: Ending, loggerRaises: bool)

  /** The trace, and how many further messages the pipe takes. */
  datatype State = State(log: seq<Event>, room: nat)

  datatype Worker = Running(state: State) | Exited(status: int, log: seq<Event>)

  datatype Sending = Sent(state: State) | Closed(log: seq<Event>)

  function Send(s: State, e: Event): Sending {
    if s.room == 0 then Closed(s.log) else Sent(State(s.log + [e], s.room - 1))
  }

  function SendMany(s: State, n: nat): Sending
    decreases n
  {
    if n == 0 then Sent(s)
    else match Send(s, Emitted)
      case Sent(s1) => SendMany(s1, n - 1)
      case Closed(log) => Closed(log)
  }

  /** The callback for a command; an unknown command has none and does not raise. */
  function Callback(s: State, turn: Turn): (Sending, Ending)
    requires turn.Turn?
  {
    if turn.command.Unknown? then (Sent(s), Returns) else (SendMany(s, turn.emits), turn.ending)
  }

  /** `Component._handle_run_exception`: an error and a sync. */
  function Handle(s: State): Sending {
    match Send(s, Error)
    case Sent(s1) => Send(s1, Sync)
    case Closed(log) => Closed(log)
  }

  function Goes(sending: Sending): Worker {
    match sending
    case Sent(s) => Running(s)
    case Closed(log) => Exited(2, log)
  }

  function SpoutPass(exitOnException: bool, s: State, turn: Turn): Worker {
    match turn
    case AtEnd => Exited(2, s.log)
    case Turn(command, _, _, loggerRaises) =>
      var (sending, ending) := Callback(s.(log := s.log + [Read(command)]), turn);
      if sending.Closed? then Exited(2, sending.log)
      else match ending
        case StormGone => Exited(2, sending.state.log)
        case Returns => Goes(Send(sending.state, Sync))
        case Raises =>
          var after := if loggerRaises then Running(sending.state) else Goes(Handle(sending.state));
          if after.Running? && exitOnException then Exited(1, after.state.log) else after
  }

  function Run(exitOnException: bool, room: nat, turns: seq<Turn>): Worker {
    if turns == [] then Running(State([], room))
    else
      var p := Run(exitOnException, room, turns[..|turns| - 1]);
      if p.Running? then SpoutPass(exitOnException, p.state, turns[|turns| - 1]) else p
  }

  class Spout {
    const exitOnException: bool
    var log: seq<Event>
    var room: nat

    function Now(): State
      reads this
    {
      State(log, room)
    }

    predicate Is(sending: Sending, ok: bool)
      reads this
    {
      match sending
      case Sent(s) => ok && Now() == s
      case Closed(l) => !ok && log == l
    }

    constructor (exitOnException: bool, room: nat)
      ensures this.exitOnException == exitOnException && Now() == State([], room)
    {
      this.exitOnException, log, this.room := exitOnException, [], room;
    }

    method SendMessage(e: Event) returns (ok: bool)
      modifies `log, `room
      ensures Is(Send(old(Now()), e), ok)
    {
      if room == 0 {
        return false;
      }
      log, room := log + [e], room - 1;
      return true;
    }

    /** The callback of user code. */
    method Dispatch(turn: Turn) returns (ok: bool, ending: Ending)
      requires turn.Turn?
      modifies `log, `room
      ensures Is(Callback(old(Now()), turn).0, ok) && ending == Callback(old(Now()), turn).1
    {
      ok, ending := true, Returns;
      if !turn.command.Unknown? {
        ending := turn.ending;
        var i := 0;
        while i < turn.emits && ok
          invariant 0 <= i <= turn.emits
          invariant ok ==> SendMany(old(Now()), turn.emits) == SendMany(Now(), turn.emits - i)
          invariant !ok ==> SendMany(old(Now()), turn.emits) == Closed(log)
        {
          ok := SendMessage(Emitted);
          i := i + 1;
        }
      }
    }

    /** `_run` and the except clauses of `run` around it; the exit status when the process leaves. */
    method Pass(turn: Turn) returns (status: int)
      modifies `log, `room
      ensures match SpoutPass(exitOnException, old(Now()), turn)
        case Running(s) => status == 0 && Now() == s
        case Exited(code, l) => status == code && log == l
    {
      if turn.AtEnd? {
        return 2;
      }
      log := log + [Read(turn.command)];
      var ok, ending := Dispatch(turn);
      if !ok || ending == StormGone {
        return 2;
      }
      if ending == Returns {
        ok := SendMessage(Sync);
        return if ok then 0 else 2;
      }
      if !turn.loggerRaises {
        ok := SendMessage(Error);
        if ok {
          ok := SendMessage(Sync);
        }
        if !ok {
          return 2;
        }
      }
      return if exitOnException then 1 else 0;
    }
  }

  // ---- the discipline ----

  /** The command at i is followed by messages, then by exactly one sync, and then by the next command. */
  predicate Synced(log: seq<Event>, i: nat)
    requires i < |log|
  {
    exists j | i < j < |log| ::
      && log[j].Sync?
      && (forall k | i < k < j :: !log[k].Sync? && !log[k].Read?)
      && (j + 1 < |log| ==> log[j + 1].Read?)
  }

  /** Nothing happens before the first command, and every command is synced. */
  ghost predicate Disciplined(log: seq<Event>) {
    && (log != [] ==> log[0].Read?)
    && forall i | 0 <= i < |log| && log[i].Read? :: Synced(log, i)
  }

  function Emits(n: nat): seq<Event> {
    seq(n, i => Emitted)
  }

  lemma {:induction false} SendManyAppends(s: State, n: nat)
    ensures match SendMany(s, n)
      case Sent(s1) => s1.log == s.log + Emits(n)
      case Closed(log) => exists m: nat :: m < n && log == s.log + Emits(m)
    decreases n
  {
    if n == 0 {
      assert s.log + Emits(0) == s.log;
    } else if s.room == 0 {
      assert s.log == s.log + Emits(0);
    } else {
      var s1 := State(s.log + [Emitted], s.room - 1);
      SendManyAppends(s1, n - 1);
      assert s1.log + Emits(n - 1) == s.log + Emits(n);
      if SendMany(s1, n - 1).Closed? {
        var m: nat :| m < n - 1 && SendMany(s1, n - 1).log == s1.log + Emits(m);
        assert s1.log + Emits(m) == s.log + Emits(m + 1);
      }
    }
  }

  /** A callback's exception that its logger keeps from the handler. */
  predicate Muffled(turn: Turn) {
    turn.Turn? && !turn.command.Unknown? && turn.ending.Raises? && turn.loggerRaises
  }

  /** The stretch of trace that one command leaves when the pipe holds. */
  function Stretch(turn: Turn): seq<Event>
    requires turn.Turn?
  {
    [Read(turn.command)]
    + (if turn.command.Unknown? then [] else Emits(turn.emits))
    + (if turn.command.Unknown? || turn.ending.Returns? then [Sync]
       else if turn.loggerRaises then []
       else [Error, Sync])
  }

  lemma PassStretch(exitOnException: bool, s: State, turn: Turn)
    ensures match SpoutPass(exitOnException, s, turn)
      case Running(s1) => HoldsUp(turn) && s1.log == s.log + Stretch(turn)
      case Exited(status, log) =>
        if status == 1 then HoldsUp(turn) && log == s.log + Stretch(turn)
        else s.log <= log && Unsynced(log[|s.log|..])
  {
    if turn.Turn? {
      var read := s.(log := s.log + [Read(turn.command)]);
      SendManyAppends(read, turn.emits);
      var sending := Callback(read, turn).0;
      if sending.Closed? {
        var m: nat :| m < turn.emits && sending.log == read.log + Emits(m);
        assert sending.log[|s.log|..] == [Read(turn.command)] + Emits(m);
      } else {
        var sent := if turn.command.Unknown? then [] else Emits(turn.emits);
        assert sending.state.log == s.log + ([Read(turn.command)] + sent);
        assert s.log + ([Read(turn.command)] + sent) + [Error] + [Sync] ==
          s.log + ([Read(turn.command)] + sent + [Error, Sync]);
        assert (s.log + ([Read(turn.command)] + sent))[|s.log|..] == [Read(turn.command)] + sent;
        assert (s.log + ([Read(turn.command)] + sent) + [Error])[|s.log|..] == [Read(turn.command)] + sent + [Error];
      }
    }
  }

  /** What an interrupted pass leaves: at most its command, and no sync. */
  predicate Unsynced(tail: seq<Event>) {
    forall k | 0 <= k < |tail| :: !tail[k].Sync? && (tail[k].Read? ==> k == 0)
  }

  /** A command that will never be synced: the next command comes first, or nothing does. */
  predicate Stuck(log: seq<Event>, i: nat)
    requires i < |log|
  {
    log[i].Read? && forall k | i < k < |log| && log[k].Sync? :: exists j | i < j < k :: log[j].Read?
  }

  ghost predicate AnyStuck(log: seq<Event>) {
    exists i | 0 <= i < |log| :: Stuck(log, i)
  }

  lemma StuckIsUndisciplined(log: seq<Event>)
    requires AnyStuck(log)
    ensures !Disciplined(log)
  {
    var i :| 0 <= i < |log| && Stuck(log, i);
    assert !Synced(log, i);
  }

  lemma StuckStays(log: seq<Event>, more: seq<Event>)
    requires AnyStuck(log) && more != [] && more[0].Read?
    ensures AnyStuck(log + more)
  {
    var i :| 0 <= i < |log| && Stuck(log, i);
    var all := log + more;
    forall k | i < k < |all| && all[k].Sync?
      ensures exists j | i < j < k :: all[j].Read?
    {
      if k < |log| {
        var j :| i < j < k && log[j].Read?;
        assert all[j].Read?;
      } else {
        assert all[|log|].Read?;
      }
    }
    assert Stuck(all, i);
  }

  predicate HoldsUp(turn: Turn) {
    turn.Turn? && (turn.command.Unknown? || !turn.ending.StormGone?)
  }

  /** One command, other messages, one sync; or no sync at all when the exception was muffled. */
  lemma StretchShape(turn: Turn)
    requires HoldsUp(turn)
    ensures
      var more := Stretch(turn);
      && |more| > 0 && more[0].Read?
      && (forall k | 0 < k < |more| :: !more[k].Read?)
      && (if Muffled(turn) then forall k | 0 <= k < |more| :: !more[k].Sync?
          else |more| > 1 && more[|more| - 1].Sync? && forall k | 0 <= k < |more| - 1 :: !more[k].Sync?)
  {
  }

  lemma SyncedStays(log: seq<Event>, more: seq<Event>, i: nat)
    requires i < |log| && Synced(log, i) && more != [] && more[0].Read?
    ensures Synced(log + more, i)
  {
    var j :| i < j < |log| && log[j].Sync? && (forall k | i < k < j :: !log[k].Sync? && !log[k].Read?)
      && (j + 1 < |log| ==> log[j + 1].Read?);
    var all := log + more;
    assert all[..|log|] == log && all[|log|] == more[0];
    assert forall k | i < k <= j :: all[k] == log[k];
    assert all[j + 1] == if j + 1 < |log| then log[j + 1] else more[0];
  }

  lemma SyncedNow(log: seq<Event>, more: seq<Event>)
    requires |more| > 1 && more[|more| - 1].Sync?
    requires forall k | 0 < k < |more| - 1 :: !more[k].Sync? && !more[k].Read?
    ensures Synced(log + more, |log|)
  {
    var all, j := log + more, |log| + |more| - 1;
    assert all[j] == more[|more| - 1];
    assert forall k | |log| < k < j :: all[k] == more[k - |log|];
  }

  lemma StuckNow(log: seq<Event>, more: seq<Event>)
    requires more != [] && more[0].Read? && forall k | 0 <= k < |more| :: !more[k].Sync?
    ensures AnyStuck(log + more)
  {
    var all := log + more;
    assert forall k | |log| <= k < |all| :: all[k] == more[k - |log|];
    assert Stuck(all, |log|);
  }

  lemma StretchSyncs(log: seq<Event>, turn: Turn)
    requires HoldsUp(turn) && Disciplined(log)
    ensures if Muffled(turn) then AnyStuck(log + Stretch(turn)) else Disciplined(log + Stretch(turn))
  {
    hide Stretch, Synced, Muffled;
    StretchShape(turn);
    var more := Stretch(turn);
    var all := log + more;
    if Muffled(turn) {
      StuckNow(log, more);
    } else {
      SyncedNow(log, more);
      forall i | 0 <= i < |all| && all[i].Read?
        ensures Synced(all, i)
      {
        if i < |log| {
          assert log[i].Read?;
          SyncedStays(log, more, i);
        } else {
          assert all[i] == more[i - |log|];
        }
      }
      assert log == [] ==> all[0] == more[0];
    }
  }

  function LogOf(p: Worker): seq<Event> {
    if p.Running? then p.state.log else p.log
  }

  /** No exception was kept from the handler while the process was in its loop. */
  predicate Unmuffled(exitOnException: bool, room: nat, turns: seq<Turn>) {
    turns == [] ||
    (Unmuffled(exitOnException, room, turns[..|turns| - 1])
     && (Run(exitOnException, room, turns[..|turns| - 1]).Running? ==> !Muffled(turns[|turns| - 1])))
  }

  /** As long as Storm is there, each command is followed by its messages, then by exactly one sync, then by
      the next command, whether the callback returned or raised, if and only if the logger never kept an
      exception from the handler. */
  lemma {:induction false} SyncDiscipline(exitOnException: bool, room: nat, turns: seq<Turn>)
    ensures
      var p := Run(exitOnException, room, turns);
      var clean := Unmuffled(exitOnException, room, turns);
      && (p.Running? || p.status == 1 ==>
            (clean ==> Disciplined(LogOf(p))) && (!clean ==> AnyStuck(LogOf(p))) && (Disciplined(LogOf(p)) <==> clean))
  {
    if turns != [] {
      var before, turn := turns[..|turns| - 1], turns[|turns| - 1];
      SyncDiscipline(exitOnException, room, before);
      var p0, p := Run(exitOnException, room, before), Run(exitOnException, room, turns);
      if p0.Running? && (p.Running? || p.status == 1) {
        PassStretch(exitOnException, p0.state, turn);
        if Unmuffled(exitOnException, room, before) {
          StretchSyncs(p0.state.log, turn);
        } else {
          StretchShape(turn);
          StuckStays(p0.state.log, Stretch(turn));
        }
      }
      if AnyStuck(LogOf(p)) {
        StuckIsUndisciplined(LogOf(p));
      }
    }
  }

  /** When Storm goes away, everything before the last command is in order, and that command has no sync. */
  lemma {:induction false} SyncUntilStormGoes(exitOnException: bool, room: nat, turns: seq<Turn>)
    requires Run(exitOnException, room, turns).Exited? && Run(exitOnException, room, turns).status == 2
    requires Unmuffled(exitOnException, room, turns)
    ensures
      var log := LogOf(Run(exitOnException, room, turns));
      exists n :: 0 <= n <= |log| && Disciplined(log[..n]) && Unsynced(log[n..])
  {
    var before, turn := turns[..|turns| - 1], turns[|turns| - 1];
    var p0 := Run(exitOnException, room, before);
    if p0.Running? {
      SyncDiscipline(exitOnException, room, before);
      PassStretch(exitOnException, p0.state, turn);
      var log, n := LogOf(Run(exitOnException, room, turns)), |p0.state.log|;
      assert log[..n] == p0.state.log;
    } else {
      SyncUntilStormGoes(exitOnException, room, before);
    }
  }

  /** The failing side is reached: a callback raises, then its logger does, and the command gets no sync. */
  lemma MuffledGetsNoSync(room: nat)
    ensures
      var turns := [Turn(NextTuple, 0, Raises, true)];
      && !Unmuffled(false, room, turns)
      && Run(false, room, turns) == Running(State([Read(NextTuple)], room))
      && AnyStuck([Read(NextTuple)])
  {
    var turn := Turn(NextTuple, 0, Raises, true);
    var none: seq<Turn> := [];
    assert [turn][..0] == none;
    assert Run(false, room, none) == Running(State([], room)) && [] + [Read(NextTuple)] == [Read(NextTuple)];
    assert Run(false, room, [turn]) == SpoutPass(false, State([], room), turn);
    assert Stuck([Read(NextTuple)], 0);
  }

  // ---- leaving ----

  /** How many messages a trace holds. */
  function Messages(log: seq<Event>): nat {
    if log == [] then 0 else Messages(log[..|log| - 1]) + if log[|log| - 1].Read? then 0 else 1
  }

  predicate Full(s: State, log: seq<Event>) {
    Messages(log) == Messages(s.log) + s.room
  }

  lemma MessagesNext(log: seq<Event>, e: Event)
    ensures Messages(log + [e]) == Messages(log) + if e.Read? then 0 else 1
  {
    assert (log + [e])[..|log|] == log;
  }

  lemma SendFills(s: State, e: Event)
    requires !e.Read?
    ensures match Send(s, e)
      case Sent(s1) => Messages(s1.log) + s1.room == Messages(s.log) + s.room
      case Closed(log) => Full(s, log)
  {
    MessagesNext(s.log, e);
  }

  lemma {:induction false} SendManyFills(s: State, n: nat)
    ensures match SendMany(s, n)
      case Sent(s1) => Messages(s1.log) + s1.room == Messages(s.log) + s.room
      case Closed(log) => Full(s, log)
    decreases n
  {
    hide Messages;
    SendFills(s, Emitted);
    if n > 0 && s.room > 0 {
      SendManyFills(State(s.log + [Emitted], s.room - 1), n - 1);
    }
  }

  predicate Raised(turn: Turn) {
    turn.Turn? && !turn.command.Unknown? && turn.ending.Raises?
  }

  predicate Ended(turn: Turn) {
    turn.AtEnd? || (!turn.command.Unknown? && turn.ending.StormGone?)
  }

  /** The process leaves with status 1 only after an exception under `exit_on_exception`, with status 2 only when
      Storm is gone or its pipe is full, and stays only if it is neither gone nor has raised under that flag. */
  lemma PassEnds(exitOnException: bool, s: State, turn: Turn)
    ensures match SpoutPass(exitOnException, s, turn)
      case Running(_) => !Ended(turn) && (Raised(turn) ==> !exitOnException)
      case Exited(status, log) =>
        if status == 1 then Raised(turn) && exitOnException
        else status == 2 && (Ended(turn) || Full(s, log))
  {
    hide Messages, SendMany, Send;
    if turn.Turn? {
      var read := s.(log := s.log + [Read(turn.command)]);
      MessagesNext(s.log, Read(turn.command));
      SendManyFills(read, turn.emits);
      var sending := Callback(read, turn).0;
      if sending.Sent? {
        SendFills(sending.state, Sync);
        SendFills(sending.state, Error);
        var error := Send(sending.state, Error);
        if error.Sent? {
          SendFills(error.state, Sync);
        }
      }
    }
  }

  /** With `exit_on_exception` off the process only ever leaves because Storm is gone. */
  lemma {:induction false} OnlyStormEndsIt(room: nat, turns: seq<Turn>)
    ensures Run(false, room, turns).Exited? ==> Run(false, room, turns).status == 2
  {
    hide SpoutPass;
    if turns != [] {
      var before := turns[..|turns| - 1];
      OnlyStormEndsIt(room, before);
      if Run(false, room, before).Running? {
        PassEnds(false, Run(false, room, before).state, turns[|turns| - 1]);
      }
    }
  }
}
