/** `TicklessBatchingBolt`: the main thread, the batcher thread and SIGUSR1 as interleaved atomic steps. */
module Tickless {
  import opened Options
  import opened BatchSpec
  import opened BatchAccounting

  /** The main thread waits for input, holds a tuple it has read but not yet taken the lock for, is on its way
      to the exception handler, or has left; `handled` says that a handler ran to its end before. */
  datatype Main = Reading | Holding(tup: Tup) | Handling | Left(status: int, handled: bool)

  /** `caught` says that the batcher thread has caught an exception it has not stored yet, `excInfo` that
      `exc_info` is set. `lost` collects the tuples dropped when a signal raised while they were held. */
  datatype Bolt = Bolt(core: State, main: Main, caught: bool, excInfo: bool, lost: seq<Tup>)

  datatype Step =
    | ReadTuple(tup: Tup)    // read_tuple returns
    | ReadEnds               // read_tuple raises StormWentAwayError
    | Section(key: Key)      // the locked part of _run; key is what group_key returns for a data tuple
    | Timer(fault: Fault)    // the locked part of _batch_entry_run
    | Store                  // exc_info = sys.exc_info(), then os.kill
    | Signal                 // SIGUSR1 reaches the main thread, stray or not
    | HandleException        // run's except clause
    | LoggerRaises           // the logger raises there, and the handler is not reached

  function Start(room: nat): Bolt {
    Bolt(Initial.(room := room), Reading, false, false, [])
  }

  predicate Enabled(b: Bolt, step: Step) {
    match step
    case ReadTuple(_) => b.main.Reading?
    case ReadEnds => b.main.Reading?
    case Section(_) => b.main.Holding?
    case Timer(_) => !b.main.Left? && !b.caught
    case Store => !b.main.Left? && b.caught
    case Signal => b.main.Reading? || b.main.Holding?
    case HandleException => b.main.Handling?
    case LoggerRaises => b.main.Handling?
  }

  /** The locked part of `_run`. */
  function RunSection(s: State, t: Tup, key: Key): Result {
    var r :=
      if IsHeartbeat(t) || IsTick(t) then
        var p := Play(s.log, s.room, [if IsHeartbeat(t) then Sync else Ack(t.id)]);
        if p.ok then Ok(s.(log := p.log, room := p.room)) else Gone(p.log)
      else Process(s, t, Returns(key));
    if r.Ok? then Ok(r.state.(current := [])) else r
  }

  /** One step; None once the pipe to Storm has closed. */
  function Apply(cfg: Config, b: Bolt, step: Step): Option<Bolt>
    requires Enabled(b, step)
  {
    match step
    case ReadTuple(t) => Some(b.(core := b.core.(log := b.core.log + [Arrival(t)]), main := Holding(t)))
    case ReadEnds => Some(b.(main := Left(2, false)))
    case Section(key) =>
      var r := RunSection(b.core, b.main.tup, key);
      if r.Ok? then Some(b.(core := r.state, main := Reading)) else None
    case Timer(fault) =>
      var r := Flush(cfg, b.core, fault);
      if r.Gone? then None else Some(b.(core := r.state, caught := r.Raised?))
    case Store => Some(b.(caught := false, excInfo := true))
    case Signal =>
      if !b.excInfo then Some(b)
      else
        var dropped := if b.main.Holding? && !IsHeartbeat(b.main.tup) then [b.main.tup] else [];
        Some(b.(excInfo := false, main := Handling, lost := b.lost + dropped))
    case HandleException =>
      var r := Handle(cfg, b.core);
      if r.Gone? then None
      else Some(b.(core := r.state, main := if cfg.exitOnException then Left(1, true) else Reading))
    case LoggerRaises => Some(b.(main := if cfg.exitOnException then Left(1, false) else Reading))
  }

  /** The bolt after a sequence of steps; None when one of them is not enabled or the pipe closes. */
  function Exec(cfg: Config, room: nat, steps: seq<Step>): Option<Bolt> {
    if steps == [] then Some(Start(room))
    else
      var o := Exec(cfg, room, steps[..|steps| - 1]);
      if o.Some? && Enabled(o.value, steps[|steps| - 1]) then Apply(cfg, o.value, steps[|steps| - 1]) else None
  }

  // ---- books ----

  function Held(b: Bolt, x: Id): nat {
    if b.main.Holding? && !IsHeartbeat(b.main.tup) && b.main.tup.id == x then 1 else 0
  }

  /** x was answered at least once or waits in a batch. */
  predicate AccountedFor(b: Bolt, x: Id) {
    Answered(b.core.log, x) + Pending(b.core.batches, x) > 0
  }

  /** The trace speaks of one data tuple with id x at most, and of no tick. */
  predicate OneTuple(log: seq<Event>, x: Id) {
    Count(log, Data(x)) <= 1 && Count(log, Tick(x)) == 0
  }

  /** Once read, a tuple is either accounted for, or held or lost and then nowhere else. */
  predicate Covered(b: Bolt, x: Id) {
    && UniqueKeys(b.core.batches)
    && Held(b, x) + Times(b.lost, x) == (if Count(b.core.log, Data(x)) == 1 && !AccountedFor(b, x) then 1 else 0)
    && (Count(b.core.log, Data(x)) == 0 ==> !AccountedFor(b, x))
    && (!AccountedFor(b, x) ==> x !in Ids(b.core.current))
  }

  lemma SectionAccounts(s: State, t: Tup, key: Key, x: Id)
    requires UniqueKeys(s.batches) && RunSection(s, t, key).Ok?
    ensures
      var s1 := RunSection(s, t, key).state;
      && UniqueKeys(s1.batches) && s1.current == [] && s1.key == s.key
      && Pending(s1.batches, x) == Pending(s.batches, x) + (if Arrival(t) == Data(x) then 1 else 0)
      && Count(s1.log, Ack(x)) == Count(s.log, Ack(x)) + (if Arrival(t) == Tick(x) then 1 else 0)
      && Count(s1.log, Fail(x)) == Count(s.log, Fail(x))
      && Count(s1.log, Data(x)) == Count(s.log, Data(x)) && Count(s1.log, Tick(x)) == Count(s.log, Tick(x))
  {
    PlayAppends(s.log, s.room, [if IsHeartbeat(t) then Sync else Ack(t.id)]);
    var tups := Lookup(s.batches, key) + [t];
    UniquePut(s.batches, key, tups);
    PendingPut(s.batches, key, tups, x);
    TimesConcat(Lookup(s.batches, key), [t], x);
    assert Times([t], x) == if t.id == x then 1 else 0;
  }

  // ---- no tuple is lost, except in one window ----

  lemma OneMore(tups: seq<Tup>, t: Tup, x: Id)
    ensures Times(tups + [t], x) == Times(tups, x) + if t.id == x then 1 else 0
  {
    TimesConcat(tups, [t], x);
    assert Times([t], x) == if t.id == x then 1 else 0;
  }

  lemma StepCovers(cfg: Config, b: Bolt, step: Step, x: Id)
    requires DefaultFlags(cfg) && Enabled(b, step) && Apply(cfg, b, step).Some?
    requires Covered(b, x) && OneTuple(Apply(cfg, b, step).value.core.log, x)
    ensures Covered(Apply(cfg, b, step).value, x)
  {
    hide Flush, Handle, RunSection, Times, Pending, Count;
    TimesIn(b.core.current, x);
    match step
    case ReadTuple(t) =>
      ReadCounts(b.core.log, Arrival(t), x);
    case Section(key) =>
      SectionAccounts(b.core, b.main.tup, key, x);
    case Timer(fault) =>
      FlushAccounts(cfg, b.core, fault, x);
    case HandleException =>
      HandlerAccounts(cfg, b.core, x);
    case Signal =>
      assert b.lost + [] == b.lost;
      if b.main.Holding? {
        OneMore(b.lost, b.main.tup, x);
      }
    case _ =>
  }

  lemma StepExtends(cfg: Config, b: Bolt, step: Step)
    requires Enabled(b, step) && Apply(cfg, b, step).Some?
    ensures b.core.log <= Apply(cfg, b, step).value.core.log
  {
    hide Play;
    hide FlushScript;
    hide HandlerScript;
    var s := b.core;
    match step
    case Section(_) =>
      PlayExtends(s.log, s.room, [if IsHeartbeat(b.main.tup) then Sync else Ack(b.main.tup.id)]);
    case Timer(fault) =>
      FlushExtends(cfg, s, fault);
    case HandleException =>
      PlayExtends(s.log, s.room, HandlerScript(cfg, s));
    case _ =>
  }

  lemma OneTuplePrefix(a: seq<Event>, b: seq<Event>, x: Id)
    requires a <= b && OneTuple(b, x)
    ensures OneTuple(a, x)
  {
    assert b == a + b[|a|..];
  }

  lemma {:induction false} ExecCovers(cfg: Config, room: nat, steps: seq<Step>, x: Id)
    requires DefaultFlags(cfg) && Exec(cfg, room, steps).Some? && OneTuple(Exec(cfg, room, steps).value.core.log, x)
    ensures Covered(Exec(cfg, room, steps).value, x)
  {
    if steps != [] {
      var before, step := steps[..|steps| - 1], steps[|steps| - 1];
      var b := Exec(cfg, room, before).value;
      StepExtends(cfg, b, step);
      OneTuplePrefix(b.core.log, Exec(cfg, room, steps).value.core.log, x);
      ExecCovers(cfg, room, before, x);
      StepCovers(cfg, b, step, x);
    }
  }

  /** No signal that carries an exception arrives while a data tuple has been read and not yet filed. */
  predicate CleanSignals(cfg: Config, room: nat, steps: seq<Step>)
    requires Exec(cfg, room, steps).Some?
  {
    steps == [] ||
    var b := Exec(cfg, room, steps[..|steps| - 1]).value;
    && CleanSignals(cfg, room, steps[..|steps| - 1])
    && !(steps[|steps| - 1].Signal? && b.excInfo && b.main.Holding? && Arrival(b.main.tup).Data?)
  }

  predicate DataLost(b: Bolt) {
    exists t :: t in b.lost && Arrival(t).Data?
  }

  lemma {:induction false} LostIffUnclean(cfg: Config, room: nat, steps: seq<Step>)
    requires Exec(cfg, room, steps).Some?
    ensures
      var b := Exec(cfg, room, steps).value;
      && (CleanSignals(cfg, room, steps) <==> !DataLost(b))
      && (forall t | t in b.lost :: Arrival(t) in b.core.log && !IsHeartbeat(t))
      && (b.main.Holding? ==> Arrival(b.main.tup) in b.core.log)
  {
    if steps != [] {
      var b0, step := Exec(cfg, room, steps[..|steps| - 1]).value, steps[|steps| - 1];
      var b := Exec(cfg, room, steps).value;
      LostIffUnclean(cfg, room, steps[..|steps| - 1]);
      StepExtends(cfg, b0, step);
      assert forall e | e in b0.core.log :: e in b.core.log;
      if step.Signal? && b0.excInfo && b0.main.Holding? && Arrival(b0.main.tup).Data? {
        assert b0.main.tup in b.lost;
      } else {
        assert forall t | t in b0.lost :: t in b.lost;
      }
    }
  }

  /** Over all interleavings: a data tuple that was read is acked, failed or still in `_batches` exactly when
      it is not held by the main thread and was not dropped by a signal while held. */
  lemma AccountedForIff(cfg: Config, room: nat, steps: seq<Step>, b: Bolt, x: Id)
    requires DefaultFlags(cfg) && Exec(cfg, room, steps) == Some(b)
    requires Data(x) in b.core.log && OneTuple(b.core.log, x)
    ensures AccountedFor(b, x) <==> Held(b, x) == 0 && x !in Ids(b.lost)
  {
    ExecCovers(cfg, room, steps, x);
    TimesIn(b.lost, x);
  }

  /** With distinct ids, outside the window between a read and its lock section every data tuple is accounted
      for if and only if no signal raised in such a window while a data tuple was held. */
  lemma NothingLostIffClean(cfg: Config, room: nat, steps: seq<Step>, b: Bolt)
    requires DefaultFlags(cfg) && Exec(cfg, room, steps) == Some(b) && !b.main.Holding?
    requires forall x | Data(x) in b.core.log :: OneTuple(b.core.log, x)
    ensures CleanSignals(cfg, room, steps) <==> forall x | Data(x) in b.core.log :: AccountedFor(b, x)
  {
    LostIffUnclean(cfg, room, steps);
    forall x | Data(x) in b.core.log
      ensures AccountedFor(b, x) <==> x !in Ids(b.lost)
      ensures x in Ids(b.lost) ==> DataLost(b)
    {
      AccountedForIff(cfg, room, steps, b, x);
    }
    if DataLost(b) {
      var t :| t in b.lost && Arrival(t).Data?;
      assert Data(t.id) in b.core.log && t.id in Ids(b.lost);
    }
  }

  // ---- the exact books ----

  /** How often the handler fails x beyond what it takes out of `_batches`: once for each current tuple with
      that id for which its guard `tup.id not in failed` holds. */
  function Again(cfg: Config, room: nat, steps: seq<Step>, x: Id): nat
    requires Exec(cfg, room, steps).Some?
  {
    if steps == [] then 0
    else
      var b := Exec(cfg, room, steps[..|steps| - 1]).value;
      Again(cfg, room, steps[..|steps| - 1], x)
      + if steps[|steps| - 1].HandleException? then Leftover(cfg, b.core, x) else 0
  }

  /** Once the process leaves after a handler that ran to its end, what is still in `_batches` has been failed. */
  function Waiting(b: Bolt, x: Id): nat {
    if b.main.Left? && b.main.handled then 0 else Pending(b.core.batches, x)
  }

  /** Each tuple and tick read is answered, waits, is held or was lost: as often as it was read. */
  predicate Exact(b: Bolt, x: Id) {
    Reads(b.core.log, x) == Answered(b.core.log, x) + Waiting(b, x) + Held(b, x) + Times(b.lost, x)
  }

  lemma {:induction false} StepBalances(cfg: Config, b: Bolt, step: Step, x: Id, again: nat)
    requires DefaultFlags(cfg) && Enabled(b, step) && Apply(cfg, b, step).Some? && UniqueKeys(b.core.batches)
    requires Reads(b.core.log, x) + again == Answered(b.core.log, x) + Waiting(b, x) + Held(b, x) + Times(b.lost, x)
    ensures
      var b1 := Apply(cfg, b, step).value;
      && UniqueKeys(b1.core.batches)
      && Reads(b1.core.log, x) + again + (if step.HandleException? then Leftover(cfg, b.core, x) else 0) ==
         Answered(b1.core.log, x) + Waiting(b1, x) + Held(b1, x) + Times(b1.lost, x)
  {
    hide Flush, Handle, RunSection, Pending, Lookup, UniqueKeys, Count, Times, Leftover;
    match step
    case ReadTuple(t) =>
      ReadCounts(b.core.log, Arrival(t), x);
    case Section(key) =>
      SectionAccounts(b.core, b.main.tup, key, x);
    case Timer(fault) =>
      FlushAccounts(cfg, b.core, fault, x);
    case HandleException =>
      HandlerAccounts(cfg, b.core, x);
    case Signal =>
      assert b.lost + [] == b.lost;
      if b.main.Holding? {
        OneMore(b.lost, b.main.tup, x);
      }
    case _ =>
  }

  /** Over every interleaving and for every id: what was read, and what the handler failed again, is what was
      answered, waits, is held or was lost. */
  lemma {:induction false} ExecBalances(cfg: Config, room: nat, steps: seq<Step>, b: Bolt, x: Id)
    requires DefaultFlags(cfg) && Exec(cfg, room, steps) == Some(b)
    ensures UniqueKeys(b.core.batches)
    ensures Reads(b.core.log, x) + Again(cfg, room, steps, x) ==
      Answered(b.core.log, x) + Waiting(b, x) + Held(b, x) + Times(b.lost, x)
  {
    hide Apply, Reads, Answered, Waiting, Held, Times, Leftover, UniqueKeys;
    if steps == [] {
      NothingYet(room, x);
    } else {
      var before, step := steps[..|steps| - 1], steps[|steps| - 1];
      var b0 := Exec(cfg, room, before).value;
      ExecBalances(cfg, room, before, b0, x);
      StepBalances(cfg, b0, step, x, Again(cfg, room, before, x));
    }
  }

  lemma NothingYet(room: nat, x: Id)
    ensures
      var b := Start(room);
      && UniqueKeys(b.core.batches)
      && Reads(b.core.log, x) == Answered(b.core.log, x) == Waiting(b, x) == Held(b, x) == Times(b.lost, x) == 0
  {
  }

  /** Whenever the handler runs, each current tuple is among those it takes out of `_batches`: its guard
      `tup.id not in failed` never holds. */
  predicate HandlersFindAll(cfg: Config, room: nat, steps: seq<Step>)
    requires Exec(cfg, room, steps).Some?
  {
    steps == [] ||
    var s := Exec(cfg, room, steps[..|steps| - 1]).value.core;
    && HandlersFindAll(cfg, room, steps[..|steps| - 1])
    && (steps[|steps| - 1].HandleException? ==> FindsAll(cfg, s))
  }

  lemma {:induction false} AgainIff(cfg: Config, room: nat, steps: seq<Step>)
    requires Exec(cfg, room, steps).Some?
    ensures HandlersFindAll(cfg, room, steps) ==> forall x :: Again(cfg, room, steps, x) == 0
    ensures !HandlersFindAll(cfg, room, steps) ==> exists x :: Again(cfg, room, steps, x) > 0
  {
    hide Wiped, NotIn, Apply;
    if steps != [] {
      var before, step := steps[..|steps| - 1], steps[|steps| - 1];
      var s := Exec(cfg, room, before).value.core;
      var left := NotIn(s.current, Ids(Wiped(cfg, s.batches, s.key, 0)));
      AgainIff(cfg, room, before);
      if step.HandleException? && left != [] {
        assert Leftover(cfg, s, left[0].id) > 0;
        assert Again(cfg, room, steps, left[0].id) > 0;
      } else if !HandlersFindAll(cfg, room, before) {
        var x :| Again(cfg, room, before, x) > 0;
        assert Again(cfg, room, steps, x) > 0;
      } else {
        forall x
          ensures Again(cfg, room, steps, x) == 0
        {
          assert Again(cfg, room, before, x) == 0;
        }
      }
    }
  }

  /** The books are exact for every id if and only if the handler never met a current tuple that was no longer
      in the batches it wipes out. */
  lemma BooksExactIff(cfg: Config, room: nat, steps: seq<Step>, b: Bolt)
    requires DefaultFlags(cfg) && Exec(cfg, room, steps) == Some(b)
    ensures forall x :: Exact(b, x) <==> Again(cfg, room, steps, x) == 0
    ensures (forall x :: Exact(b, x)) <==> HandlersFindAll(cfg, room, steps)
  {
    hide Reads, Answered, Waiting, Held, Times, Again, HandlersFindAll, Exec;
    AgainIff(cfg, room, steps);
    forall x
      ensures Exact(b, x) <==> Again(cfg, room, steps, x) == 0
    {
      ExecBalances(cfg, room, steps, b, x);
    }
  }

  /** One data tuple, alone with its id: over every interleaving it is answered at most once and not while it
      still waits, if and only if the handler never failed it again. */
  lemma AnsweredOnceIff(cfg: Config, room: nat, steps: seq<Step>, b: Bolt, x: Id)
    requires DefaultFlags(cfg) && Exec(cfg, room, steps) == Some(b)
    requires Data(x) in b.core.log && OneTuple(b.core.log, x)
    ensures Answered(b.core.log, x) + Waiting(b, x) <= 1 <==> Again(cfg, room, steps, x) == 0
  {
    hide Again, Exec;
    ExecBalances(cfg, room, steps, b, x);
    ExecCovers(cfg, room, steps, x);
  }

  /** An id that no data tuple had is in no batch and not current. */
  predicate Known(b: Bolt, x: Id) {
    && UniqueKeys(b.core.batches)
    && (Count(b.core.log, Data(x)) == 0 ==> Pending(b.core.batches, x) == 0 && x !in Ids(b.core.current))
    && (b.main.Holding? && Arrival(b.main.tup) == Data(x) ==> Count(b.core.log, Data(x)) > 0)
  }

  lemma {:induction false} ExecKnows(cfg: Config, room: nat, steps: seq<Step>, b: Bolt, x: Id)
    requires DefaultFlags(cfg) && Exec(cfg, room, steps) == Some(b)
    ensures Known(b, x)
  {
    if steps != [] {
      var before, step := steps[..|steps| - 1], steps[|steps| - 1];
      var b0 := Exec(cfg, room, before).value;
      ExecKnows(cfg, room, before, b0, x);
      StepKnows(cfg, b0, step, x);
    }
  }

  lemma {:induction false} StepKnows(cfg: Config, b: Bolt, step: Step, x: Id)
    requires DefaultFlags(cfg) && Enabled(b, step) && Apply(cfg, b, step).Some? && Known(b, x)
    ensures Known(Apply(cfg, b, step).value, x)
  {
    hide Flush, Handle, RunSection, Pending, Lookup, UniqueKeys, Count, Times, Leftover;
    match step
    case ReadTuple(t) =>
      ReadCounts(b.core.log, Arrival(t), x);
    case Section(key) =>
      SectionAccounts(b.core, b.main.tup, key, x);
    case Timer(fault) =>
      FlushAccounts(cfg, b.core, fault, x);
    case HandleException =>
      HandlerAccounts(cfg, b.core, x);
    case _ =>
  }

  lemma {:induction false} AgainIsData(cfg: Config, room: nat, steps: seq<Step>, b: Bolt, x: Id)
    requires DefaultFlags(cfg) && Exec(cfg, room, steps) == Some(b) && Again(cfg, room, steps, x) > 0
    ensures Data(x) in b.core.log
  {
    hide Apply, Leftover, Known, Enabled;
    var before, step := steps[..|steps| - 1], steps[|steps| - 1];
    var b0 := Exec(cfg, room, before).value;
    StepExtends(cfg, b0, step);
    if Again(cfg, room, before, x) > 0 {
      AgainIsData(cfg, room, before, b0, x);
    } else {
      ExecKnows(cfg, room, before, b0, x);
      LeftoverIsCurrent(cfg, b0, x);
    }
    assert forall e | e in b0.core.log :: e in b.core.log;
  }

  lemma LeftoverIsCurrent(cfg: Config, b: Bolt, x: Id)
    requires Known(b, x) && Leftover(cfg, b.core, x) > 0
    ensures Data(x) in b.core.log
  {
    NotInTimes(b.core.current, Ids(Wiped(cfg, b.core.batches, b.core.key, 0)), x);
    TimesIn(b.core.current, x);
  }

  /** With distinct ids, no data tuple is ever answered twice, both ways, or while it waits, if and only if the
      handler never met a current tuple that was no longer in the batches it wipes out. */
  lemma NoneAnsweredTwiceIff(cfg: Config, room: nat, steps: seq<Step>, b: Bolt)
    requires DefaultFlags(cfg) && Exec(cfg, room, steps) == Some(b)
    requires forall x | Data(x) in b.core.log :: OneTuple(b.core.log, x)
    ensures HandlersFindAll(cfg, room, steps) <==>
      forall x | Data(x) in b.core.log :: Answered(b.core.log, x) + Waiting(b, x) <= 1
  {
    hide Answered, Waiting, Again, HandlersFindAll, Exec;
    AgainIff(cfg, room, steps);
    forall x | Data(x) in b.core.log
      ensures Answered(b.core.log, x) + Waiting(b, x) <= 1 <==> Again(cfg, room, steps, x) == 0
    {
      AnsweredOnceIff(cfg, room, steps, b, x);
    }
    if !HandlersFindAll(cfg, room, steps) {
      var x :| Again(cfg, room, steps, x) > 0;
      AgainIsData(cfg, room, steps, b, x);
    }
  }

  // ---- prompt handling is enough ----

  /** An exception of the batcher thread is on its way to the handler. */
  predicate Outstanding(b: Bolt) {
    b.caught || b.excInfo || b.main.Handling?
  }

  /** Each batcher exception is handled before the next flush. */
  predicate Prompt(cfg: Config, room: nat, steps: seq<Step>)
    requires Exec(cfg, room, steps).Some?
  {
    steps == [] ||
    var b := Exec(cfg, room, steps[..|steps| - 1]).value;
    && Prompt(cfg, room, steps[..|steps| - 1])
    && (steps[|steps| - 1].Timer? ==> !Outstanding(b))
  }

  /** While an exception is outstanding `_current_tups` is the batch that raised, or nothing. */
  predicate Fresh(b: Bolt) {
    && UniqueKeys(b.core.batches)
    && !(b.caught && b.excInfo) && (b.main.Handling? ==> !b.caught && !b.excInfo)
    && (Outstanding(b) ==> b.core.current == [] || b.core.current == Lookup(b.core.batches, b.core.key))
  }

  lemma {:induction false} StepStaysFresh(cfg: Config, b: Bolt, step: Step)
    requires DefaultFlags(cfg) && Enabled(b, step) && Apply(cfg, b, step).Some?
    requires Fresh(b) && (step.Timer? ==> !Outstanding(b))
    ensures Fresh(Apply(cfg, b, step).value)
  {
    hide Flush, Handle, RunSection, Pending, Lookup, UniqueKeys, Count, Times, Leftover;
    match step
    case Section(key) =>
      SectionAccounts(b.core, b.main.tup, key, None);
    case Timer(fault) =>
      FlushAccounts(cfg, b.core, fault, None);
    case HandleException =>
      HandlerAccounts(cfg, b.core, None);
    case _ =>
  }

  lemma {:induction false} PromptFindsAll(cfg: Config, room: nat, steps: seq<Step>)
    requires DefaultFlags(cfg) && Exec(cfg, room, steps).Some? && Prompt(cfg, room, steps)
    ensures HandlersFindAll(cfg, room, steps) && Fresh(Exec(cfg, room, steps).value)
  {
    hide Apply, NotIn, Wiped, Lookup;
    if steps != [] {
      var before, step := steps[..|steps| - 1], steps[|steps| - 1];
      var b := Exec(cfg, room, before).value;
      PromptFindsAll(cfg, room, before);
      StepStaysFresh(cfg, b, step);
      if step.HandleException? {
        FreshIsFound(cfg, b.core);
      }
    }
  }

  /** When every batcher exception is handled before the next flush the books are exact, and no data tuple is
      answered twice or both ways. */
  lemma PromptAccounting(cfg: Config, room: nat, steps: seq<Step>, b: Bolt, x: Id)
    requires DefaultFlags(cfg) && Exec(cfg, room, steps) == Some(b) && Prompt(cfg, room, steps)
    ensures Exact(b, x)
    ensures OneTuple(b.core.log, x) ==> Answered(b.core.log, x) + Waiting(b, x) <= 1
  {
    PromptFindsAll(cfg, room, steps);
    BooksExactIff(cfg, room, steps, b);
    assert Exact(b, x) && (OneTuple(b.core.log, x) ==> Reads(b.core.log, x) <= 1);
  }

  // ---- the failing sides are reached ----

  lemma {:induction false} ExecConcat(cfg: Config, room: nat, a: seq<Step>, step: Step)
    ensures Exec(cfg, room, a + [step]) ==
      var o := Exec(cfg, room, a);
      if o.Some? && Enabled(o.value, step) then Apply(cfg, o.value, step) else None
  {
    assert (a + [step])[..|a + [step]| - 1] == a;
  }

  /** A bolt whose only batch has raised, with the exception stored. */
  function Raising(a: Tup, room: nat): Bolt {
    var log := [Data(a.id), Keyed(a, None), Batch(None, [a])];
    Bolt(State([Entry(None, [a])], [a], None, 0, log, room), Reading, false, true, [])
  }

  const OneFailure: seq<Step> := [Section(None)] + [Timer(FaultAt(0, Ordinary))] + [Store]

  lemma ReachRaising(cfg: Config, a: Tup, room: nat)
    requires Arrival(a).Data?
    ensures Exec(cfg, room, [ReadTuple(a)] + OneFailure) == Some(Raising(a, room))
  {
    var read, filed, failed :=
      [ReadTuple(a)], [ReadTuple(a)] + [Section(None)], [ReadTuple(a)] + [Section(None)]
        + [Timer(FaultAt(0, Ordinary))];
    ExecConcat(cfg, room, [], ReadTuple(a));
    assert [] + [ReadTuple(a)] == read;
    ExecConcat(cfg, room, read, Section(None));
    ExecConcat(cfg, room, filed, Timer(FaultAt(0, Ordinary)));
    ExecConcat(cfg, room, failed, Store);
    assert [ReadTuple(a)] + OneFailure == failed + [Store];
    var s := State([Entry(None, [a])], [], None, 0, [Data(a.id), Keyed(a, None)], room);
    assert [Data(a.id)] + [Keyed(a, None)] == [Data(a.id), Keyed(a, None)] && [] + [Data(a.id)] == [Data(a.id)];
    var none: seq<Entry>, tups: seq<Tup> := [], [];
    assert Lookup(none, None) == [] && tups + [a] == [a] && none + [Entry(None, [a])] == [Entry(None, [a])];
    assert Put(none, None, Lookup(none, None) + [a]) == [Entry(None, [a])];
    assert Exec(cfg, room, filed) == Some(Bolt(s, Reading, false, false, []));
    assert FlushScript(cfg, s.batches, FaultAt(0, Ordinary), 0) == [Batch(None, [a])];
    assert Emptied(s.batches, 0) == s.batches;
    PlayOne(s.log, room, Batch(None, [a]));
    assert s.log + [Batch(None, [a])] == [Data(a.id), Keyed(a, None), Batch(None, [a])];
  }

  lemma PlayOne(log: seq<Event>, room: nat, e: Event)
    requires !IsMessage(e)
    ensures Play(log, room, [e]) == Played(log + [e], room, true)
  {
    assert [e][1..] == [];
  }

  lemma NothingPending(a: Tup, x: Id)
    requires a.id != x
    ensures Pending([Entry(None, [a])], x) == 0
  {
    assert Pending([Entry(None, [a])], x) == Times([a], x) + Pending([], x);
    assert Times([a], x) == 0;
  }

  /** A signal between the read of c and its lock section drops c for good. */
  lemma SignalDropsHeldTuple(cfg: Config, a: Tup, c: Tup, room: nat)
    requires Arrival(a).Data? && Arrival(c).Data? && a.id != c.id
    ensures
      var o := Exec(cfg, room, [ReadTuple(a)] + OneFailure + [ReadTuple(c)] + [Signal]);
      && o.Some? && o.value.main == Handling
      && Data(c.id) in o.value.core.log && !AccountedFor(o.value, c.id)
  {
    var steps := [ReadTuple(a)] + OneFailure;
    ReachRaising(cfg, a, room);
    ExecConcat(cfg, room, steps, ReadTuple(c));
    ExecConcat(cfg, room, steps + [ReadTuple(c)], Signal);
    NothingPending(a, c.id);
  }

  /** A flush between the exception and its handler acks a, and the handler then fails it as well. */
  lemma LateHandlerFailsAcked(cfg: Config, a: Tup, room: nat)
    requires DefaultFlags(cfg) && Arrival(a).Data? && room >= 4
    ensures
      var o := Exec(cfg, room, [ReadTuple(a)] + OneFailure + [Timer(NoFault)] + [Signal] + [HandleException]);
      && o.Some? && Ack(a.id) in o.value.core.log && Fail(a.id) in o.value.core.log
  {
    var steps, b := [ReadTuple(a)] + OneFailure, Raising(a, room);
    ReachRaising(cfg, a, room);
    ExecConcat(cfg, room, steps, Timer(NoFault));
    ExecConcat(cfg, room, steps + [Timer(NoFault)], Signal);
    ExecConcat(cfg, room, steps + [Timer(NoFault)] + [Signal], HandleException);
    var script := [Batch(None, [a]), Ack(a.id)];
    assert Acks([a]) == [Ack(a.id)] && BatchScript(cfg, Entry(None, [a])) == script;
    assert FlushScript(cfg, b.core.batches, NoFault, 0) == script;
    assert script[1..] == [Ack(a.id)] && [Ack(a.id)][1..] == [];
    assert Play(b.core.log + [Batch(None, [a])], room, [Ack(a.id)]) ==
      Played(b.core.log + [Batch(None, [a])] + [Ack(a.id)], room - 1, true);
    assert Play(b.core.log, room, script) == Played(b.core.log + [Batch(None, [a])] + [Ack(a.id)], room - 1, true);
    var log := b.core.log + [Batch(None, [a])] + [Ack(a.id)];
    HandleUnfiled(cfg, b.core.(batches := [], log := log, room := room - 1), a);
  }
}
