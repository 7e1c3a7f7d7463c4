/** `TicklessBatchingBolt` as it updates its fields: each step of its threads proved against Tickless. */
module TicklessBolts {
  import opened Options
  import opened BatchSpec
  import opened BatchingBolts
  import opened Tickless

  class TicklessBatchingBolt {
    /** The inherited fields and methods. */
    const bolt: BatchingBolt
    var main: Main
    var caught: bool
    var excInfo: bool
    ghost var lost: seq<Tup>

    ghost function State(): Bolt
      reads this, bolt
    {
      Bolt(bolt.State(), main, caught, excInfo, lost)
    }

    /** The step leads to this state; once the pipe has closed nothing is said of it. */
    ghost predicate Does(next: Option<Bolt>, exit: Exit)
      reads this, bolt
    {
      match next
      case Some(b) => exit != Away && State() == b
      case None => exit == Away
    }

    constructor (cfg: Config, room: nat)
      ensures bolt.cfg == cfg && State() == Start(room) && fresh(bolt)
    {
      bolt := new BatchingBolt(cfg, room);
      main, caught, excInfo, lost := Reading, false, false, [];
    }

    /** `read_tuple`, before the lock is taken. */
    method ReadTuple(tup: Tup)
      requires main.Reading?
      modifies this, bolt
      ensures Does(Apply(bolt.cfg, old(State()), Step.ReadTuple(tup)), Returned)
    {
      bolt.log := bolt.log + [Arrival(tup)];
      main := Holding(tup);
    }

    /** The locked part of `_run`. */
    method RunSection(groupKey: Key) returns (exit: Exit)
      requires main.Holding?
      modifies this, bolt
      ensures Does(Apply(bolt.cfg, old(State()), Section(groupKey)), exit)
    {
      var tup := main.tup;
      bolt.currentTups := [tup];
      if IsHeartbeat(tup) {
        exit := bolt.Send(Sync);
      } else if IsTick(tup) {
        exit := bolt.Send(Ack(tup.id));
      } else {
        exit := bolt.Process(tup, Returns(groupKey));
      }
      bolt.currentTups := [];
      main := Reading;
    }

    /** `_batch_entry_run`, and the `except` of `_batch_entry` that catches what it raises. */
    method BatchEntryRun(fault: Fault) returns (exit: Exit)
      requires !main.Left? && !caught
      modifies this, bolt
      ensures Does(Apply(bolt.cfg, old(State()), Timer(fault)), exit)
    {
      exit := bolt.ProcessBatches(fault);
      caught := exit == Raise;
    }

    /** The body of that `except`. */
    method StoreException()
      requires !main.Left? && caught
      modifies this
      ensures Does(Apply(bolt.cfg, old(State()), Store), Returned)
    {
      caught, excInfo := false, true;
    }

    /** `_handle_worker_exception`: what it raises takes the main thread out of `_run`. */
    method HandleWorkerException() returns (exit: Exit)
      requires main.Reading? || main.Holding?
      modifies this
      ensures Does(Apply(bolt.cfg, old(State()), Signal), exit)
      ensures exit == if old(excInfo) then Raise else Returned
    {
      if !excInfo {
        assert lost + [] == lost;
        return Returned;
      }
      excInfo := false;
      if main.Holding? && !IsHeartbeat(main.tup) {
        lost := lost + [main.tup];
      } else {
        assert lost + [] == lost;
      }
      main := Handling;
      return Raise;
    }

    /** The `except` clause of `run`: the logger, then the handler. */
    method HandleRunException(loggerRaises: bool) returns (exit: Exit)
      requires main.Handling?
      modifies this, bolt
      ensures Does(Apply(bolt.cfg, old(State()), if loggerRaises then LoggerRaises else HandleException), exit)
    {
      exit := Returned;
      if !loggerRaises {
        exit := bolt.HandleRunException();
      }
      main := if bolt.cfg.exitOnException then Left(1, !loggerRaises) else Reading;
    }
  }
}
