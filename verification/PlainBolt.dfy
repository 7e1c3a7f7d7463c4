/** `Bolt._run` and `Bolt._handle_run_exception` inside `Component.run`. */
module PlainBolts {
  import opened Options
  import opened BatchSpec
  import opened BatchAccounting
  import opened BatchingBolts

  /** `_current_tups`, the trace and the room in the pipe. */
  datatype Bolt = Bolt(current: seq<Tup>, log: seq<Event>, room: nat)

  datatype Step = Stepped(bolt: Bolt) | Stopped(bolt: Bolt) | Cut(log: seq<Event>)

  /** One pass: how `read_tuple` ends, and whether `process` or `process_tick` raises. */
  datatype Occasion = Occasion(read: Read, raises: Option<Exc>, loggerRaises: bool)

  datatype Process = Alive(bolt: Bolt) | Dead(status: int, log: seq<Event>)

  function Sent(b: Bolt, messages: seq<Event>): (r: Step)
    ensures !r.Stopped?
  {
    var p := Play(b.log, b.room, messages);
    if p.ok then Stepped(b.(log := p.log, room := p.room)) else Cut(p.log)
  }

  /** `Bolt._run`. */
  function Once(cfg: Config, b: Bolt, turn: Occasion): Step {
    match turn.read
    case AtEnd => Cut(b.log)
    case Malformed => Stopped(b)
    case Got(t) =>
      var b1 := b.(current := [t], log := b.log + [Arrival(t)]);
      if !IsHeartbeat(t) && turn.raises.Some? then
        if turn.raises.value.WentAway? then Cut(b1.log) else Stopped(b1)
      else
        var messages := if IsHeartbeat(t) then [Sync] else if cfg.autoAck then [Ack(t.id)] else [];
        Sent(b1.(current := []), messages)
  }

  /** `Bolt._handle_run_exception`: without a current tuple not even the exception is reported. */
  function HandleOnce(cfg: Config, b: Bolt): Step {
    if |b.current| != 1 then Stepped(b)
    else Sent(b, [Error, Sync] + if cfg.autoFail then [Fail(b.current[0].id)] else [])
  }

  function PassOnce(cfg: Config, b: Bolt, turn: Occasion): Process {
    match Once(cfg, b, turn)
    case Stepped(b1) => Alive(b1)
    case Cut(log) => Dead(2, log)
    case Stopped(b1) =>
      match if turn.loggerRaises then Stepped(b1) else HandleOnce(cfg, b1)
      case Cut(log) => Dead(2, log)
      case Stepped(b2) => if cfg.exitOnException then Dead(1, b2.log) else Alive(b2)
  }

  function RunAll(cfg: Config, room: nat, turns: seq<Occasion>): Process {
    if turns == [] then Alive(Bolt([], [], room))
    else
      var p := RunAll(cfg, room, turns[..|turns| - 1]);
      if p.Alive? then PassOnce(cfg, p.bolt, turns[|turns| - 1]) else p
  }

  class PlainBolt {
    const cfg: Config
    var currentTups: seq<Tup>
    var log: seq<Event>
    var room: nat

    function State(): Bolt
      reads this
    {
      Bolt(currentTups, log, room)
    }

    ghost predicate Does(step: Step, exit: Exit)
      reads this
    {
      match step
      case Stepped(b) => exit == Returned && State() == b
      case Stopped(b) => exit == Raise && State() == b
      case Cut(l) => exit == Away && log == l
    }

    constructor (cfg: Config, room: nat)
      ensures this.cfg == cfg && State() == Bolt([], [], room)
    {
      this.cfg, currentTups, log, this.room := cfg, [], [], room;
    }

    method Send(message: Event) returns (exit: Exit)
      requires IsMessage(message)
      modifies this`log, this`room
      ensures forall rest ::
        Play(old(log), old(room), [message] + rest) ==
        if exit == Returned then Play(log, room, rest) else Played(log, room, false)
      ensures exit != Raise
    {
      assert forall rest: seq<Event> :: ([message] + rest)[1..] == rest;
      if room == 0 {
        return Away;
      }
      log, room := log + [message], room - 1;
      return Returned;
    }

    /** `_run`. */
    method RunOnce(turn: Occasion) returns (exit: Exit)
      modifies this
      ensures Does(Once(cfg, old(State()), turn), exit)
    {
      match turn.read
      case AtEnd => return Away;
      case Malformed => return Raise;
      case Got(tup) =>
        log := log + [Arrival(tup)];
        currentTups := [tup];
        exit := Returned;
        if IsHeartbeat(tup) {
          assert [Sync] + [] == [Sync];
          exit := Send(Sync);
        } else {
          if turn.raises.Some? {
            return if turn.raises.value.WentAway? then Away else Raise;
          }
          if cfg.autoAck {
            assert [Ack(tup.id)] + [] == [Ack(tup.id)];
            exit := Send(Ack(tup.id));
          }
        }
        if exit == Returned {
          currentTups := [];
        }
    }

    /** `_handle_run_exception`. */
    method HandleRunException() returns (exit: Exit)
      modifies this
      ensures Does(HandleOnce(cfg, old(State())), exit)
    {
      exit := Returned;
      if |currentTups| == 1 {
        ghost var fails := if cfg.autoFail then [Fail(currentTups[0].id)] else [];
        assert [Error, Sync] + fails == [Error] + ([Sync] + fails);
        exit := Send(Error);
        if exit == Returned {
          exit := Send(Sync);
        }
        if exit == Returned && cfg.autoFail {
          assert fails == fails + [];
          exit := Send(Fail(currentTups[0].id));
        }
      }
    }

    /** One pass of the loop in `Component.run`. */
    method Pass(turn: Occasion) returns (status: Option<int>)
      modifies this
      ensures match PassOnce(cfg, old(State()), turn)
        case Alive(b1) => status == None && State() == b1
        case Dead(code, l) => status == Some(code) && log == l
    {
      var exit := RunOnce(turn);
      if exit == Away {
        return Some(2);
      }
      if exit == Raise {
        if !turn.loggerRaises {
          exit := HandleRunException();
          if exit == Away {
            return Some(2);
          }
        }
        return if cfg.exitOnException then Some(1) else None;
      }
      return None;
    }
  }

  // ---- the books ----

  function TraceOf(p: Process): seq<Event> {
    if p.Alive? then p.bolt.log else p.log
  }

  /** A read that raises, and is handled, while the tuple of an earlier exception is still the current one. */
  predicate Stale(b: Bolt, turn: Occasion) {
    turn.read.Malformed? && !turn.loggerRaises && |b.current| == 1
  }

  /** User code raised, and the logger kept that from the handler. */
  predicate Muffled(turn: Occasion) {
    turn.read.Got? && !IsHeartbeat(turn.read.tup) && turn.raises == Some(Ordinary) && turn.loggerRaises
  }

  /** How often x was read and its exception muffled. */
  function Dropped(cfg: Config, room: nat, turns: seq<Occasion>, x: Id): nat {
    if turns == [] then 0
    else
      var before, turn := turns[..|turns| - 1], turns[|turns| - 1];
      Dropped(cfg, room, before, x)
      + if RunAll(cfg, room, before).Alive? && Muffled(turn) && turn.read.tup.id == x then 1 else 0
  }

  /** How often such a read fails x again. */
  function Again(cfg: Config, room: nat, turns: seq<Occasion>, x: Id): nat {
    if turns == [] then 0
    else
      var p := RunAll(cfg, room, turns[..|turns| - 1]);
      Again(cfg, room, turns[..|turns| - 1], x)
      + if p.Alive? && Stale(p.bolt, turns[|turns| - 1]) && p.bolt.current[0].id == x then 1 else 0
  }

  predicate NeverStale(cfg: Config, room: nat, turns: seq<Occasion>) {
    turns == [] ||
    (NeverStale(cfg, room, turns[..|turns| - 1])
     && var p := RunAll(cfg, room, turns[..|turns| - 1]); !(p.Alive? && Stale(p.bolt, turns[|turns| - 1])))
  }

  lemma AnswersMore(log: seq<Event>, e: Event, x: Id)
    ensures Answered(log + [e], x) == Answered(log, x) + if e in {Ack(x), Fail(x)} then 1 else 0
    ensures Reads(log + [e], x) == Reads(log, x) + if e in {Data(x), Tick(x)} then 1 else 0
  {
  }

  lemma SentBooks(b: Bolt, messages: seq<Event>, x: Id)
    requires Sent(b, messages).Stepped?
    ensures Sent(b, messages).bolt.log == b.log + messages && Sent(b, messages).bolt.current == b.current
  {
    PlayAppends(b.log, b.room, messages);
  }

  /** `_run` owes an answer for the tuple it read exactly when it raises. */
  lemma OnceBooks(cfg: Config, b: Bolt, turn: Occasion, x: Id)
    requires DefaultFlags(cfg) && !Once(cfg, b, turn).Cut?
    ensures
      var b1 := Once(cfg, b, turn).bolt;
      var owed := if Once(cfg, b, turn).Stopped? && turn.read.Got? && turn.read.tup.id == x then 1 else 0;
      && Answered(b1.log, x) + Reads(b.log, x) + owed == Answered(b.log, x) + Reads(b1.log, x)
      && (Once(cfg, b, turn).Stopped? ==> b1.current == if turn.read.Got? then [turn.read.tup] else b.current)
  {
    hide Sent, Answered, Reads;
    if turn.read.Got? {
      var t := turn.read.tup;
      AnswersMore(b.log, Arrival(t), x);
      if Once(cfg, b, turn).Stepped? {
        var answer := if IsHeartbeat(t) then Sync else Ack(t.id);
        SentBooks(Bolt([], b.log + [Arrival(t)], b.room), [answer], x);
        AnswersMore(b.log + [Arrival(t)], answer, x);
      }
    }
  }

  lemma HandleBooks(cfg: Config, b: Bolt, x: Id)
    requires DefaultFlags(cfg) && HandleOnce(cfg, b).Stepped?
    ensures
      var b1 := HandleOnce(cfg, b).bolt;
      && Answered(b1.log, x) == Answered(b.log, x) + (if |b.current| == 1 && b.current[0].id == x then 1 else 0)
      && Reads(b1.log, x) == Reads(b.log, x)
  {
    hide Sent, Answered, Reads;
    if |b.current| == 1 {
      var fail := Fail(b.current[0].id);
      SentBooks(b, [Error, Sync] + [fail], x);
      assert b.log + ([Error, Sync] + [fail]) == b.log + [Error] + [Sync] + [fail];
      AnswersMore(b.log, Error, x);
      AnswersMore(b.log + [Error], Sync, x);
      AnswersMore(b.log + [Error] + [Sync], fail, x);
    }
  }

  lemma PassBooks(cfg: Config, b: Bolt, turn: Occasion, x: Id)
    requires DefaultFlags(cfg)
    ensures
      var p := PassOnce(cfg, b, turn);
      var again := if Stale(b, turn) && b.current[0].id == x then 1 else 0;
      var dropped := if Muffled(turn) && turn.read.tup.id == x then 1 else 0;
      p.Alive? || p.status == 1 ==>
        Answered(TraceOf(p), x) + dropped + Reads(b.log, x) == Answered(b.log, x) + Reads(TraceOf(p), x) + again
  {
    hide Once, HandleOnce, Answered, Reads;
    var step := Once(cfg, b, turn);
    if !step.Cut? {
      OnceBooks(cfg, b, turn, x);
      NotStale(cfg, b, turn);
      if step.Stopped? && HandleOnce(cfg, step.bolt).Stepped? {
        HandleBooks(cfg, step.bolt, x);
      }
    }
  }

  lemma NotStale(cfg: Config, b: Bolt, turn: Occasion)
    ensures Once(cfg, b, turn).Stepped? ==> turn.read.Got?
    ensures turn.read.Got? ==> (Once(cfg, b, turn).Stopped? <==>
              !IsHeartbeat(turn.read.tup) && turn.raises == Some(Ordinary))
    ensures turn.read.Malformed? ==> Once(cfg, b, turn).Stopped?
    ensures turn.read.AtEnd? ==> Once(cfg, b, turn).Cut?
    ensures !HandleOnce(cfg, b).Stopped?
  {
  }

  /** Under default flags, as long as Storm is there, each id was answered as often as it was read, plus once
      for every stale read that failed it again, less once for every exception that its logger muffled. */
  lemma {:induction false} RunBooks(cfg: Config, room: nat, turns: seq<Occasion>, x: Id)
    requires DefaultFlags(cfg)
    ensures
      var p := RunAll(cfg, room, turns);
      p.Alive? || p.status == 1 ==>
        Answered(TraceOf(p), x) + Dropped(cfg, room, turns, x) == Reads(TraceOf(p), x) + Again(cfg, room, turns, x)
  {
    hide PassOnce, Stale, Muffled, Answered, Reads;
    if turns == [] {
      NothingYet(x);
    } else {
      var before, turn := turns[..|turns| - 1], turns[|turns| - 1];
      RunBooks(cfg, room, before, x);
      if RunAll(cfg, room, before).Alive? {
        PassBooks(cfg, RunAll(cfg, room, before).bolt, turn, x);
      }
    }
  }

  lemma NothingYet(x: Id)
    ensures Answered([], x) == Reads([], x) == 0
  {
  }

  lemma {:induction false} AgainIff(cfg: Config, room: nat, turns: seq<Occasion>)
    ensures NeverStale(cfg, room, turns) ==> forall x :: Again(cfg, room, turns, x) == 0
    ensures !NeverStale(cfg, room, turns) ==> exists x :: Again(cfg, room, turns, x) > 0
  {
    if turns != [] {
      var before, turn := turns[..|turns| - 1], turns[|turns| - 1];
      AgainIff(cfg, room, before);
      var p := RunAll(cfg, room, before);
      if p.Alive? && Stale(p.bolt, turn) {
        assert Again(cfg, room, turns, p.bolt.current[0].id) > 0;
      } else if !NeverStale(cfg, room, before) {
        var x :| Again(cfg, room, before, x) > 0;
        assert Again(cfg, room, turns, x) > 0;
      } else {
        forall x
          ensures Again(cfg, room, turns, x) == 0
        {
          assert Again(cfg, room, before, x) == 0;
        }
      }
    }
  }

  predicate AnsweredAsRead(p: Process, x: Id) {
    Answered(TraceOf(p), x) == Reads(TraceOf(p), x)
  }

  predicate Squared(cfg: Config, room: nat, turns: seq<Occasion>, x: Id) {
    Again(cfg, room, turns, x) == Dropped(cfg, room, turns, x)
  }

  /** Whatever the logger does: an id was answered as often as it was read, for ever or until the process leaves
      with status 1, if and only if stale reads failed it exactly as often as a muffled exception dropped it. */
  lemma AnsweredAsReadIff(cfg: Config, room: nat, turns: seq<Occasion>)
    requires DefaultFlags(cfg)
    ensures
      var p := RunAll(cfg, room, turns);
      p.Alive? || p.status == 1 ==> forall x :: AnsweredAsRead(p, x) <==> Squared(cfg, room, turns, x)
  {
    var p := RunAll(cfg, room, turns);
    if p.Alive? || p.status == 1 {
      forall x
        ensures AnsweredAsRead(p, x) <==> Squared(cfg, room, turns, x)
      {
        RunBooks(cfg, room, turns, x);
      }
    }
  }

  /** No exception of user code was kept from the handler while the process was alive. */
  predicate NeverMuffled(cfg: Config, room: nat, turns: seq<Occasion>) {
    turns == [] ||
    (NeverMuffled(cfg, room, turns[..|turns| - 1])
     && !(RunAll(cfg, room, turns[..|turns| - 1]).Alive? && Muffled(turns[|turns| - 1])))
  }

  lemma {:induction false} DroppedIff(cfg: Config, room: nat, turns: seq<Occasion>)
    ensures NeverMuffled(cfg, room, turns) ==> forall x :: Dropped(cfg, room, turns, x) == 0
    ensures !NeverMuffled(cfg, room, turns) ==> exists x :: Dropped(cfg, room, turns, x) > 0
  {
    hide Muffled, PassOnce;
    if turns != [] {
      var before, turn := turns[..|turns| - 1], turns[|turns| - 1];
      DroppedIff(cfg, room, before);
      MuffledRead(turn);
      if RunAll(cfg, room, before).Alive? && Muffled(turn) {
        assert Dropped(cfg, room, turns, turn.read.tup.id) > 0;
      } else if !NeverMuffled(cfg, room, before) {
        var x :| Dropped(cfg, room, before, x) > 0;
        assert Dropped(cfg, room, turns, x) > 0;
      } else {
        forall x
          ensures Dropped(cfg, room, turns, x) == 0
        {
          assert Dropped(cfg, room, before, x) == 0;
        }
      }
    }
  }

  lemma MuffledRead(turn: Occasion)
    ensures Muffled(turn) ==> turn.read.Got?
  {
  }

  /** When no handled exception comes from a stale read, whatever the logger does, every tuple and tick read is
      answered as often as it was read if and only if no exception of user code was kept from the handler. */
  lemma AnsweredIffNeverMuffled(cfg: Config, room: nat, turns: seq<Occasion>)
    requires DefaultFlags(cfg) && NeverStale(cfg, room, turns)
    ensures
      var p := RunAll(cfg, room, turns);
      p.Alive? || p.status == 1 ==> (NeverMuffled(cfg, room, turns) <==> forall x :: AnsweredAsRead(p, x))
  {
    hide AnsweredAsRead;
    AnsweredAsReadIff(cfg, room, turns);
    AgainIff(cfg, room, turns);
    DroppedIff(cfg, room, turns);
    if NeverMuffled(cfg, room, turns) {
      assert forall x :: Squared(cfg, room, turns, x);
    } else {
      var x :| Dropped(cfg, room, turns, x) > 0;
      assert !Squared(cfg, room, turns, x);
    }
  }

  /** When no exception of user code was kept from the handler, every tuple and tick read is answered as often as
      it was read if and only if no read raised, and was handled, right after a handled exception. */
  lemma AnsweredOnceIff(cfg: Config, room: nat, turns: seq<Occasion>)
    requires DefaultFlags(cfg) && NeverMuffled(cfg, room, turns)
    ensures
      var p := RunAll(cfg, room, turns);
      p.Alive? || p.status == 1 ==> (NeverStale(cfg, room, turns) <==> forall x :: AnsweredAsRead(p, x))
  {
    hide AnsweredAsRead;
    AnsweredAsReadIff(cfg, room, turns);
    AgainIff(cfg, room, turns);
    DroppedIff(cfg, room, turns);
    if NeverStale(cfg, room, turns) {
      assert forall x :: Squared(cfg, room, turns, x);
    } else {
      var x :| Again(cfg, room, turns, x) > 0;
      assert !Squared(cfg, room, turns, x);
    }
  }

  // ---- syncs, errors and leaving ----

  /** User code or a read raised something ordinary. */
  predicate Raises(turn: Occasion) {
    match turn.read
    case AtEnd => false
    case Malformed => true
    case Got(t) => !IsHeartbeat(t) && turn.raises == Some(Ordinary)
  }

  predicate Ends(turn: Occasion) {
    turn.read.AtEnd? || (turn.read.Got? && !IsHeartbeat(turn.read.tup) && turn.raises == Some(WentAway))
  }

  /** An exception that is reported to Storm: one with a tuple to blame, whose logger does not raise. */
  predicate Reports(b: Bolt, turn: Occasion) {
    Raises(turn) && !turn.loggerRaises && (turn.read.Got? || |b.current| == 1)
  }

  function Reported(cfg: Config, room: nat, turns: seq<Occasion>): nat {
    if turns == [] then 0
    else
      var before, p := turns[..|turns| - 1], RunAll(cfg, room, turns[..|turns| - 1]);
      Reported(cfg, room, before) + if p.Alive? && Reports(p.bolt, turns[|turns| - 1]) then 1 else 0
  }

  lemma EventCounts(log: seq<Event>, e: Event, f: Event)
    ensures Count(log + [e], f) == Count(log, f) + if e == f then 1 else 0
  {
  }

  lemma OnceSyncs(cfg: Config, b: Bolt, turn: Occasion)
    requires !Once(cfg, b, turn).Cut?
    ensures
      var b1 := Once(cfg, b, turn).bolt;
      && (Once(cfg, b, turn).Stopped? <==> Raises(turn))
      && (Raises(turn) ==> |b1.current| == if turn.read.Got? then 1 else |b.current|)
      && Count(b1.log, Sync) + Count(b.log, Beat) == Count(b.log, Sync) + Count(b1.log, Beat)
      && Count(b1.log, Error) == Count(b.log, Error)
  {
    hide Count, Sent;
    if turn.read.Got? {
      var t := turn.read.tup;
      var log := b.log + [Arrival(t)];
      forall e | e in {Sync, Beat, Error}
        ensures Count(log, e) == Count(b.log, e) + if Arrival(t) == e then 1 else 0
        ensures Count(log + [Sync], e) == Count(log, e) + if e == Sync then 1 else 0
        ensures Count(log + [Ack(t.id)], e) == Count(log, e)
      {
        EventCounts(b.log, Arrival(t), e);
        EventCounts(log, Sync, e);
        EventCounts(log, Ack(t.id), e);
      }
      assert log + [] == log;
      if Once(cfg, b, turn).Stepped? {
        var messages := if IsHeartbeat(t) then [Sync] else if cfg.autoAck then [Ack(t.id)] else [];
        SentBooks(Bolt([], log, b.room), messages, None);
      }
    }
  }

  lemma HandleSyncs(cfg: Config, b: Bolt)
    requires HandleOnce(cfg, b).Stepped?
    ensures
      var b1 := HandleOnce(cfg, b).bolt;
      var reports := if |b.current| == 1 then 1 else 0;
      && Count(b1.log, Sync) == Count(b.log, Sync) + reports && Count(b1.log, Error) == Count(b.log, Error) + reports
      && Count(b1.log, Beat) == Count(b.log, Beat)
  {
    hide Count, Sent;
    if |b.current| == 1 {
      var fails := if cfg.autoFail then [Fail(b.current[0].id)] else [];
      SentBooks(b, [Error, Sync] + fails, None);
      forall e | e in {Sync, Beat, Error}
        ensures Count(b.log + ([Error, Sync] + fails), e) == Count(b.log, e) + if e == Beat then 0 else 1
      {
        EventCounts(b.log, Error, e);
        EventCounts(b.log + [Error], Sync, e);
        assert b.log + [Error] + [Sync] + fails == b.log + ([Error, Sync] + fails);
        if cfg.autoFail {
          EventCounts(b.log + [Error] + [Sync], fails[0], e);
          assert fails == [fails[0]];
        } else {
          assert b.log + [Error] + [Sync] + [] == b.log + [Error] + [Sync];
        }
      }
    }
  }

  /** As long as Storm is there: one sync for each heartbeat and one for each error, and one error for each exception
      that had a tuple to blame and was not muffled. */
  lemma {:induction false} SyncsAreOwed(cfg: Config, room: nat, turns: seq<Occasion>)
    ensures
      var p := RunAll(cfg, room, turns);
      p.Alive? || p.status == 1 ==>
        && Count(TraceOf(p), Sync) == Count(TraceOf(p), Beat) + Count(TraceOf(p), Error)
        && Count(TraceOf(p), Error) == Reported(cfg, room, turns)
  {
    hide Once, HandleOnce, Count, Raises;
    if turns == [] {
      NothingSynced();
    } else {
      var before, turn := turns[..|turns| - 1], turns[|turns| - 1];
      SyncsAreOwed(cfg, room, before);
      var p := RunAll(cfg, room, before);
      if p.Alive? && !Once(cfg, p.bolt, turn).Cut? {
        OnceSyncs(cfg, p.bolt, turn);
        var step := Once(cfg, p.bolt, turn);
        if step.Stopped? && HandleOnce(cfg, step.bolt).Stepped? {
          HandleSyncs(cfg, step.bolt);
        }
        NotStale(cfg, step.bolt, turn);
      }
    }
  }

  lemma NothingSynced()
    ensures Count([], Sync) == Count([], Beat) == Count([], Error) == 0
  {
  }

  /** Status 1 is left with only after something ordinary was raised under `exit_on_exception`, and a process that
      stays has raised nothing or has the flag off. */
  lemma PassEnds(cfg: Config, b: Bolt, turn: Occasion)
    ensures match PassOnce(cfg, b, turn)
      case Alive(_) => !Ends(turn) && (Raises(turn) ==> !cfg.exitOnException)
      case Dead(status, _) => if status == 1 then Raises(turn) && cfg.exitOnException else status == 2
  {
    hide Sent;
  }

  /** With `auto_ack` off nothing is acked, with `auto_fail` off nothing is failed, however the run ends. */
  lemma {:induction false} FlagsOff(cfg: Config, room: nat, turns: seq<Occasion>, x: Id)
    ensures !cfg.autoAck ==> Ack(x) !in TraceOf(RunAll(cfg, room, turns))
    ensures !cfg.autoFail ==> Fail(x) !in TraceOf(RunAll(cfg, room, turns))
  {
    hide PassOnce;
    if turns != [] {
      var before := turns[..|turns| - 1];
      FlagsOff(cfg, room, before, x);
      if RunAll(cfg, room, before).Alive? {
        PassFlags(cfg, RunAll(cfg, room, before).bolt, turns[|turns| - 1], x);
      }
    }
  }

  lemma PassFlags(cfg: Config, b: Bolt, turn: Occasion, x: Id)
    ensures !cfg.autoAck && Ack(x) !in b.log ==> Ack(x) !in TraceOf(PassOnce(cfg, b, turn))
    ensures !cfg.autoFail && Fail(x) !in b.log ==> Fail(x) !in TraceOf(PassOnce(cfg, b, turn))
  {
    hide Play;
    if turn.read.Got? {
      var t := turn.read.tup;
      var messages := if IsHeartbeat(t) then [Sync] else if cfg.autoAck then [Ack(t.id)] else [];
      PlayAddsFrom(b.log + [Arrival(t)], b.room, messages);
    }
    var step := Once(cfg, b, turn);
    if step.Stopped? && |step.bolt.current| == 1 {
      var fails := if cfg.autoFail then [Fail(step.bolt.current[0].id)] else [];
      PlayAddsFrom(step.bolt.log, step.bolt.room, [Error, Sync] + fails);
    }
  }
}
