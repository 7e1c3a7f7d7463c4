/** The batching bolt as a value: what each operation of `pystorm_a8c/bolt.py` sends, calls and leaves
    behind, told as one trace of events and one state. */
module BatchSpec {
  import opened Options

  /** A tuple id as Storm sends it; ticks and heartbeats carry the JSON null. */
  type Id = Option<string>

  /** A hashable group key; Python's None is an ordinary key, the one the default `group_key` returns. */
  type Key = Option<string>

  /** A Storm tuple; its payload is seen only by user code and is not represented. */
  datatype Tup = Tup(id: Id, component: string, stream: string, task: int)

  predicate IsHeartbeat(t: Tup) {
    t.task == -1 && t.stream == "__heartbeat"
  }

  predicate IsTick(t: Tup) {
    t.component == "__system" && t.stream == "__tick"
  }

  /** One key of the `_batches` dictionary. */
  datatype Entry = Entry(key: Key, tups: seq<Tup>)

  /** What happens, in order: tuples read (`Data`, `Tick`, `Beat`), calls of user code that returned a key
      or were handed a batch, and messages written to Storm (the last four). */
  datatype Event =
    | Data(id: Id)
    | Tick(id: Id)
    | Beat
    | Keyed(tup: Tup, key: Key)
    | Batch(key: Key, tups: seq<Tup>)
    | Ack(id: Id)
    | Fail(id: Id)
    | Sync
    | Error

  predicate IsMessage(e: Event) {
    e.Ack? || e.Fail? || e.Sync? || e.Error?
  }

  datatype Config = Config(autoAck: bool, autoFail: bool, exitOnException: bool, ticksBetweenBatches: nat)

  /** The fields of a bolt, the trace so far, and `room`: how many further messages the pipe takes before it
      closes for good. */
  datatype State = State(
    batches: seq<Entry>,
    current: seq<Tup>,
    key: Key,
    ticks: int,
    log: seq<Event>,
    room: nat)

  const Initial: State := State([], [], None, 0, [], 0)

  /** How an operation ends: it returns, it raises an ordinary exception, or it raises StormWentAwayError,
      after which the process exits and only what was sent matters. */
  datatype Result = Ok(state: State) | Raised(state: State) | Gone(log: seq<Event>)

  /** What user code raises. */
  datatype Exc = Ordinary | WentAway

  /** Whether a call of `group_key` returns. */
  datatype KeyOutcome = Returns(key: Key) | KeyRaises(exc: Exc)

  /** Whether, and at which batch of a flush, `process_batch` raises. */
  datatype Fault = NoFault | FaultAt(index: nat, exc: Exc)

  // ---- `_batches` as an insertion-ordered dictionary ----

  predicate UniqueKeys(b: seq<Entry>) {
    forall i, j | 0 <= i < j < |b| :: b[i].key != b[j].key
  }

  /** The position of key k, or |b| when it is absent. */
  function Find(b: seq<Entry>, k: Key): (i: nat)
    ensures i <= |b|
    ensures i < |b| ==> b[i].key == k
    ensures forall j | 0 <= j < i :: b[j].key != k
  {
    if b == [] then 0 else if b[0].key == k then 0 else 1 + Find(b[1..], k)
  }

  /** `b[k]` of a defaultdict(list). */
  function Lookup(b: seq<Entry>, k: Key): seq<Tup> {
    var i := Find(b, k);
    if i < |b| then b[i].tups else []
  }

  /** `b[k] = tups`: in place for a known key, at the end for a new one. */
  function Put(b: seq<Entry>, k: Key, tups: seq<Tup>): seq<Entry>
  {
    var i := Find(b, k);
    if i < |b| then b[i := Entry(k, tups)] else b + [Entry(k, tups)]
  }

  /** The first n batches replaced by empty lists, one key after the other. */
  function Emptied(b: seq<Entry>, n: nat): (r: seq<Entry>)
    requires n <= |b|
  {
    if n == 0 then b else Put(Emptied(b, n - 1), b[n - 1].key, [])
  }

  /** With unique keys that empties exactly the first n entries, in place. */
  lemma {:induction false} EmptiedInPlace(b: seq<Entry>, n: nat)
    requires UniqueKeys(b) && n <= |b|
    ensures |Emptied(b, n)| == |b| && UniqueKeys(Emptied(b, n))
    ensures forall i | 0 <= i < |b| :: Emptied(b, n)[i] == Entry(b[i].key, if i < n then [] else b[i].tups)
  {
    if n > 0 {
      EmptiedInPlace(b, n - 1);
      var e := Emptied(b, n - 1);
      assert e[n - 1].key == b[n - 1].key;
      assert Find(e, b[n - 1].key) == n - 1;
    }
  }

  // ---- sending ----

  datatype Played = Played(log: seq<Event>, room: nat, ok: bool)

  /** Carry out a script of events; the first message that finds no room raises StormWentAwayError. */
  function Play(log: seq<Event>, room: nat, script: seq<Event>): Played
    decreases |script|
  {
    if script == [] then Played(log, room, true)
    else if !IsMessage(script[0]) then Play(log + [script[0]], room, script[1..])
    else if room == 0 then Played(log, 0, false)
    else Play(log + [script[0]], room - 1, script[1..])
  }

  function Acks(tups: seq<Tup>): seq<Event> {
    seq(|tups|, i requires 0 <= i < |tups| => Ack(tups[i].id))
  }

  function Fails(tups: seq<Tup>): seq<Event> {
    seq(|tups|, i requires 0 <= i < |tups| => Fail(tups[i].id))
  }

  // ---- operations ----

  /** One batch handled without an exception: the call, then the acks. */
  function BatchScript(cfg: Config, e: Entry): seq<Event> {
    [Batch(e.key, e.tups)] + if cfg.autoAck then Acks(e.tups) else []
  }

  predicate FaultIn(b: seq<Entry>, fault: Fault) {
    fault.FaultAt? && fault.index < |b|
  }

  /** The batches from i on, up to the call that raises if there is one. */
  function FlushScript(cfg: Config, b: seq<Entry>, fault: Fault, i: nat): seq<Event>
    requires i <= |b|
    decreases |b| - i
  {
    if i == |b| then []
    else if fault.FaultAt? && fault.index == i then [Batch(b[i].key, b[i].tups)]
    else BatchScript(cfg, b[i]) + FlushScript(cfg, b, fault, i + 1)
  }

  /** `process_batches`. */
  function Flush(cfg: Config, s: State, fault: Fault): Result {
    var b := s.batches;
    var p := Play(s.log, s.room, FlushScript(cfg, b, fault, 0));
    var s1 := s.(log := p.log, room := p.room);
    if !p.ok then Gone(p.log)
    else if FaultIn(b, fault) then
      var e := b[fault.index];
      if fault.exc.WentAway? then Gone(p.log)
      else Raised(s1.(batches := Emptied(b, fault.index), current := e.tups, key := e.key))
    else if b == [] then Ok(s1)
    else Ok(s1.(batches := [], current := b[|b| - 1].tups, key := None))
  }

  /** `process_tick`. */
  function ProcessTick(cfg: Config, s: State, t: Tup, fault: Fault): Result {
    var p := Play(s.log, s.room, [Ack(t.id)]);
    var s1 := s.(ticks := s.ticks + 1, log := p.log, room := p.room);
    if !p.ok then Gone(p.log)
    else if s1.ticks > cfg.ticksBetweenBatches && s1.batches != [] then
      match Flush(cfg, s1, fault)
      case Ok(s2) => Ok(s2.(ticks := 0))
      case Raised(s2) => Raised(s2)
      case Gone(log) => Gone(log)
    else Ok(s1)
  }

  /** `process`: file the tuple under its group key. */
  function Process(s: State, t: Tup, key: KeyOutcome): Result {
    match key
    case Returns(k) => Ok(s.(batches := Put(s.batches, k, Lookup(s.batches, k) + [t]), log := s.log + [Keyed(t, k)]))
    case KeyRaises(Ordinary) => Raised(s)
    case KeyRaises(WentAway) => Gone(s.log)
  }

  /** How `read_tuple` ends: a tuple, an exception for malformed input, or StormWentAwayError. */
  datatype Read = Got(tup: Tup) | Malformed | AtEnd

  /** Everything outside the bolt's control in one pass of the run loop. */
  datatype Turn = Turn(read: Read, key: KeyOutcome, fault: Fault, loggerRaises: bool)

  function Arrival(t: Tup): Event {
    if IsHeartbeat(t) then Beat else if IsTick(t) then Tick(t.id) else Data(t.id)
  }

  /** `BatchingBolt._run`. */
  function RunOnce(cfg: Config, s: State, turn: Turn): Result {
    match turn.read
    case AtEnd => Gone(s.log)
    case Malformed => Raised(s)
    case Got(t) =>
      var s1 := s.(current := [t], log := s.log + [Arrival(t)]);
      var r :=
        if IsHeartbeat(t) then
          var p := Play(s1.log, s1.room, [Sync]);
          if p.ok then Ok(s1.(log := p.log, room := p.room)) else Gone(p.log)
        else if IsTick(t) then ProcessTick(cfg, s1, t, turn.fault)
        else Process(s1, t, turn.key);
      if r.Ok? then Ok(r.state.(current := [])) else r
  }

  /** The tuples, from batch i on, that the handler fails and drops: every batch when the process is about
      to exit, the one under `_current_key` otherwise. */
  function Wiped(cfg: Config, b: seq<Entry>, key: Key, i: nat): seq<Tup>
    requires i <= |b|
    decreases |b| - i
  {
    if i == |b| then []
    else (if cfg.exitOnException || b[i].key == key then b[i].tups else []) + Wiped(cfg, b, key, i + 1)
  }

  function Ids(tups: seq<Tup>): set<Id> {
    set t | t in tups :: t.id
  }

  /** The tuples whose id is not in `failed`. */
  function NotIn(tups: seq<Tup>, failed: set<Id>): seq<Tup> {
    if tups == [] then []
    else (if tups[0].id in failed then [] else [tups[0]]) + NotIn(tups[1..], failed)
  }

  function HandlerScript(cfg: Config, s: State): seq<Event> {
    var wiped := Wiped(cfg, s.batches, s.key, 0);
    [Error, Sync] + if cfg.autoFail then Fails(wiped) + Fails(NotIn(s.current, Ids(wiped))) else []
  }

  /** `BatchingBolt._handle_run_exception`. */
  function Handle(cfg: Config, s: State): (r: Result)
    ensures !r.Raised?
  {
    var p := Play(s.log, s.room, HandlerScript(cfg, s));
    if !p.ok then Gone(p.log)
    else
      var s1 := s.(log := p.log, room := p.room);
      Ok(if cfg.autoFail then s1.(batches := Put(s.batches, s.key, []), key := None) else s1)
  }

  /** A process in its run loop, or gone with a status. `handled` says that a handler ran to its end. */
  datatype Worker = Running(state: State) | Exited(status: int, handled: bool, log: seq<Event>)

  /** One pass of the loop in `Component.run`. */
  function Pass(cfg: Config, s: State, turn: Turn): Worker {
    match RunOnce(cfg, s, turn)
    case Ok(s1) => Running(s1)
    case Gone(log) => Exited(2, false, log)
    case Raised(s1) =>
      if turn.loggerRaises then
        if cfg.exitOnException then Exited(1, false, s1.log) else Running(s1)
      else match Handle(cfg, s1)
        case Gone(log) => Exited(2, false, log)
        case Ok(s2) => if cfg.exitOnException then Exited(1, true, s2.log) else Running(s2)
  }

  /** The run loop of a fresh bolt over a finite stretch of turns, with a pipe that takes `room` messages. */
  function Run(cfg: Config, room: nat, turns: seq<Turn>): Worker {
    if turns == [] then Running(Initial.(room := room))
    else
      var p := Run(cfg, room, turns[..|turns| - 1]);
      if p.Running? then Pass(cfg, p.state, turns[|turns| - 1]) else p
  }
}
