/** `ReliableSpout`: two maps, and replays with a limit. */
module ReliableSpouts {
  import opened Options
  import Demux

  type Id = string

  /** The saved arguments of an emit; the tuple's payload is opaque. */
  datatype Args = Args(tup: string, stream: Option<string>, directTask: Option<int>, needTaskIds: bool)

  /** An emit message on its way to Storm. */
  datatype Sent = Sent(id: Id, args: Args)

  /** How `Component.emit` ends: it returns; it raises before the message is out (no list, closed pipe); or
      after (reading task ids failed). */
  datatype Delivery = Delivered | RaisedUnsent | RaisedSent

  datatype State = State(unacked: map<Id, Args>, failed: map<Id, int>, sent: seq<Sent>)

  /** `failed_tuples[id]` of a Counter. */
  function FailCount(s: State, id: Id): int {
    if id in s.failed then s.failed[id] else 0
  }

  /** `emit` with an id. */
  function AfterEmit(s: State, id: Id, args: Args, d: Delivery): State {
    s.(unacked := s.unacked[id := args], sent := s.sent + if d.RaisedUnsent? then [] else [Sent(id, args)])
  }

  function AfterAck(s: State, id: Id): State {
    s.(unacked := s.unacked - {id}, failed := s.failed - {id})
  }

  function AfterFail(maxFails: int, s: State, id: Id, d: Delivery): State {
    if id !in s.unacked then s
    else if FailCount(s, id) < maxFails then
      var s1 := AfterEmit(s, id, s.unacked[id], d);
      if d.Delivered? then s1.(failed := s1.failed[id := FailCount(s1, id) + 1]) else s1
    else AfterAck(s, id)
  }

  class ReliableSpout {
    const maxFails: int
    var unackedTuples: map<Id, Args>
    var failedTuples: map<Id, int>
    var sent: seq<Sent>

    function Now(): State
      reads this
    {
      State(unackedTuples, failedTuples, sent)
    }

    constructor (maxFails: int)
      ensures this.maxFails == maxFails && Now() == State(map[], map[], [])
    {
      this.maxFails, unackedTuples, failedTuples, sent := maxFails, map[], map[], [];
    }

    /** `ack`; an unknown id is only logged. */
    method Ack(id: Id)
      modifies `unackedTuples, `failedTuples
      ensures Now() == AfterAck(old(Now()), id)
    {
      failedTuples := failedTuples - {id};
      unackedTuples := unackedTuples - {id};
    }

    /** `emit`; without an id it raises ValueError and tracks nothing. */
    method Emit(id: Option<Id>, args: Args, d: Delivery) returns (raised: bool)
      modifies `unackedTuples, `sent
      ensures id.None? ==> raised && Now() == old(Now())
      ensures id.Some? ==> raised == !d.Delivered? && Now() == AfterEmit(old(Now()), id.value, args, d)
    {
      if id.None? {
        return true;
      }
      unackedTuples := unackedTuples[id.value := args];
      if !d.RaisedUnsent? {
        sent := sent + [Sent(id.value, args)];
      }
      return !d.Delivered?;
    }

    /** `fail`. */
    method Fail(id: Id, d: Delivery) returns (raised: bool)
      modifies `unackedTuples, `failedTuples, `sent
      ensures Now() == AfterFail(maxFails, old(Now()), id, d)
      ensures raised <==> id in old(unackedTuples) && FailCount(old(Now()), id) < maxFails && !d.Delivered?
    {
      if id !in unackedTuples {
        return false;
      }
      var count := if id in failedTuples then failedTuples[id] else 0;
      if count < maxFails {
        raised := Emit(Some(id), unackedTuples[id], d);
        if !raised {
          failedTuples := failedTuples[id := (if id in failedTuples then failedTuples[id] else 0) + 1];
        }
      } else {
        Ack(id);
        raised := false;
      }
    }
  }

  // ---- histories ----

  datatype Op = DoEmit(id: Id, args: Args, d: Delivery) | DoAck(id: Id) | DoFail(id: Id, d: Delivery)

  function Apply(maxFails: int, s: State, op: Op): State {
    match op
    case DoEmit(id, args, d) => AfterEmit(s, id, args, d)
    case DoAck(id) => AfterAck(s, id)
    case DoFail(id, d) => AfterFail(maxFails, s, id, d)
  }

  function Run(maxFails: int, ops: seq<Op>): State {
    if ops == [] then State(map[], map[], [])
    else Apply(maxFails, Run(maxFails, ops[..|ops| - 1]), ops[|ops| - 1])
  }

  /** The life of one id, seen by itself: never emitted, in flight with so many replays behind it, or over. */
  datatype Life = Unborn | InFlight(args: Args, replays: int) | Resolved

  function Next(maxFails: int, life: Life, op: Op): Life {
    match op
    case DoEmit(_, args, _) => InFlight(args, if life.InFlight? then life.replays else 0)
    case DoAck(_) => if life.Unborn? then Unborn else Resolved
    case DoFail(_, d) =>
      if !life.InFlight? then life
      else if life.replays >= maxFails then Resolved
      else if d.Delivered? then life.(replays := life.replays + 1)
      else life
  }

  function LifeOf(maxFails: int, ops: seq<Op>, id: Id): Life {
    if ops == [] then Unborn
    else
      var life := LifeOf(maxFails, ops[..|ops| - 1], id);
      if ops[|ops| - 1].id == id then Next(maxFails, life, ops[|ops| - 1]) else life
  }

  /** The two maps are exactly the ids in flight with their arguments and counts, whatever happens to other
      ids in between. */
  lemma {:induction false} MapsFollowLives(maxFails: int, ops: seq<Op>, id: Id)
    ensures
      var s := Run(maxFails, ops);
      && (id in s.unacked <==> LifeOf(maxFails, ops, id).InFlight?)
      && (id in s.unacked ==> LifeOf(maxFails, ops, id) == InFlight(s.unacked[id], FailCount(s, id)))
      && (id in s.failed ==> id in s.unacked && 1 <= s.failed[id] <= maxFails)
  {
    if ops != [] {
      MapsFollowLives(maxFails, ops[..|ops| - 1], id);
    }
  }

  /** Every id with a failure count is in flight, with a count between 1 and `max_fails`; and the ids emitted
      so far are those in flight and those resolved, with nothing in both. */
  lemma RunInvariant(maxFails: int, ops: seq<Op>)
    ensures
      var s := Run(maxFails, ops);
      && s.failed.Keys <= s.unacked.Keys
      && (forall id | id in s.failed :: 1 <= s.failed[id] <= maxFails)
      && forall id ::
        && ((exists op :: op in ops && op.DoEmit? && op.id == id) <==> !LifeOf(maxFails, ops, id).Unborn?)
        && (!LifeOf(maxFails, ops, id).Unborn? <==> id in s.unacked || LifeOf(maxFails, ops, id).Resolved?)
        && !(id in s.unacked && LifeOf(maxFails, ops, id).Resolved?)
  {
    forall id
      ensures id in Run(maxFails, ops).unacked <==> LifeOf(maxFails, ops, id).InFlight?
      ensures id in Run(maxFails, ops).failed ==>
        id in Run(maxFails, ops).unacked && 1 <= Run(maxFails, ops).failed[id] <= maxFails
      ensures (exists op :: op in ops && op.DoEmit? && op.id == id) <==> !LifeOf(maxFails, ops, id).Unborn?
    {
      MapsFollowLives(maxFails, ops, id);
      BornByEmit(maxFails, ops, id);
    }
  }

  lemma {:induction false} BornByEmit(maxFails: int, ops: seq<Op>, id: Id)
    ensures (exists op :: op in ops && op.DoEmit? && op.id == id) <==> !LifeOf(maxFails, ops, id).Unborn?
  {
    if ops != [] {
      var before, last := ops[..|ops| - 1], ops[|ops| - 1];
      BornByEmit(maxFails, before, id);
      assert ops == before + [last];
      assert last in ops && forall op | op in before :: op in ops;
      assert forall op | op in ops :: op in before || op == last;
    }
  }

  // ---- replays ----

  /** The arguments of the most recent explicit emit of id. */
  function LastArgs(ops: seq<Op>, id: Id): Option<Args> {
    if ops == [] then None
    else
      var op := ops[|ops| - 1];
      if op.DoEmit? && op.id == id then Some(op.args) else LastArgs(ops[..|ops| - 1], id)
  }

  /** The fails of id that were answered by a replay which returned. */
  function Replays(ops: seq<Op>, id: Id): nat {
    if ops == [] then 0
    else Replays(ops[..|ops| - 1], id) + if ops[|ops| - 1] == DoFail(id, Delivered) then 1 else 0
  }

  /** Id stays in flight through all of `more`, which follows `ops`. */
  ghost predicate StaysInFlight(maxFails: int, ops: seq<Op>, more: seq<Op>, id: Id) {
    forall k | 0 < k <= |more| :: id in Run(maxFails, ops + more[..k]).unacked
  }

  lemma {:induction false} InFlightArgs(maxFails: int, ops: seq<Op>, id: Id)
    ensures id in Run(maxFails, ops).unacked ==> LastArgs(ops, id) == Some(Run(maxFails, ops).unacked[id])
  {
    if ops != [] {
      InFlightArgs(maxFails, ops[..|ops| - 1], id);
    }
  }

  /** From the emit that starts tracking an id, for as long as it is tracked, the fails answered by a replay
      are counted in `failed_tuples` and there are at most `max_fails` of them; emitting the id again in
      between neither adds to nor resets the count. */
  lemma {:induction false} ReplayBound(maxFails: int, ops: seq<Op>, more: seq<Op>, id: Id)
    requires id !in Run(maxFails, ops).unacked && StaysInFlight(maxFails, ops, more, id)
    ensures Replays(more, id) == FailCount(Run(maxFails, ops + more), id)
    ensures Replays(more, id) > 0 ==> Replays(more, id) <= maxFails
  {
    hide Run, Replays, LifeOf, StaysInFlight;
    MapsFollowLives(maxFails, ops + more, id);
    Unfold(maxFails, ops + more, id);
    Unfold(maxFails, more, id);
    if more == [] {
      assert ops + more == ops;
    } else {
      var before := more[..|more| - 1];
      StillInFlight(maxFails, ops, more, id);
      ReplayBound(maxFails, ops, before, id);
      assert (ops + more)[..|ops + more| - 1] == ops + before;
      MapsFollowLives(maxFails, ops + before, id);
    }
  }

  lemma Unfold(maxFails: int, ops: seq<Op>, id: Id)
    ensures Run(maxFails, ops) ==
            if ops == [] then State(map[], map[], [])
            else Apply(maxFails, Run(maxFails, ops[..|ops| - 1]), ops[|ops| - 1])
    ensures Replays(ops, id) ==
            if ops == [] then 0
            else Replays(ops[..|ops| - 1], id) + if ops[|ops| - 1] == DoFail(id, Delivered) then 1 else 0
  {
  }

  lemma StillInFlight(maxFails: int, ops: seq<Op>, more: seq<Op>, id: Id)
    requires more != [] && StaysInFlight(maxFails, ops, more, id)
    ensures StaysInFlight(maxFails, ops, more[..|more| - 1], id) && id in Run(maxFails, ops + more).unacked
  {
    hide Run;
    var before := more[..|more| - 1];
    assert id in Run(maxFails, ops + more[..|more|]).unacked && more[..|more|] == more;
    forall k | 0 < k <= |before|
      ensures id in Run(maxFails, ops + before[..k]).unacked
    {
      assert before[..k] == more[..k];
    }
  }

  /** A fail of a tracked id sends its last explicit arguments again as long as the count is below
      `max_fails`; otherwise it sends nothing and removes the id from both maps. */
  lemma FailReplaysOrResolves(maxFails: int, ops: seq<Op>, id: Id, d: Delivery)
    requires id in Run(maxFails, ops).unacked
    ensures
      var s, s1 := Run(maxFails, ops), Run(maxFails, ops + [DoFail(id, d)]);
      if FailCount(s, id) < maxFails then
        && id in s1.unacked
        && LastArgs(ops, id).Some?
        && s1.sent == s.sent + if d.RaisedUnsent? then [] else [Sent(id, LastArgs(ops, id).value)]
      else
        id !in s1.unacked && id !in s1.failed && s1.sent == s.sent
  {
    InFlightArgs(maxFails, ops, id);
    assert (ops + [DoFail(id, d)])[..|ops|] == ops;
  }

  /** `more` begins with an emit of id, never acks it, and no fail of id in it comes when `max_fails` fails of id
      have been answered by a replay that returned. */
  ghost predicate WithinLimit(maxFails: int, more: seq<Op>, id: Id) {
    && (more != [] ==> more[0].DoEmit? && more[0].id == id)
    && DoAck(id) !in more
    && forall k | 0 <= k < |more| && more[k].DoFail? && more[k].id == id :: Replays(more[..k], id) < maxFails
  }

  lemma WithinLimitPrefix(maxFails: int, more: seq<Op>, id: Id)
    requires more != []
    ensures
      var before, op := more[..|more| - 1], more[|more| - 1];
      WithinLimit(maxFails, more, id) <==>
        && WithinLimit(maxFails, before, id) && op != DoAck(id)
        && (before == [] ==> op.DoEmit? && op.id == id)
        && (op.DoFail? && op.id == id ==> Replays(before, id) < maxFails)
  {
    hide Replays;
    var before := more[..|more| - 1];
    assert more == before + [more[|more| - 1]];
    assert forall k | 0 <= k < |before| :: before[k] == more[k] && before[..k] == more[..k];
  }

  lemma StaysInFlightStep(maxFails: int, ops: seq<Op>, more: seq<Op>, id: Id)
    requires more != []
    ensures StaysInFlight(maxFails, ops, more, id) <==>
      StaysInFlight(maxFails, ops, more[..|more| - 1], id) && id in Run(maxFails, ops + more).unacked
  {
    hide Run;
    var before := more[..|more| - 1];
    if StaysInFlight(maxFails, ops, more, id) {
      StillInFlight(maxFails, ops, more, id);
    }
    if StaysInFlight(maxFails, ops, before, id) && id in Run(maxFails, ops + more).unacked {
      forall k | 0 < k <= |more|
        ensures id in Run(maxFails, ops + more[..k]).unacked
      {
        if k < |more| {
          assert before[..k] == more[..k];
        } else {
          assert more[..k] == more;
        }
      }
    }
  }

  /** An untracked id is tracked from here on if and only if it is emitted first, not acked, and not failed once
      `max_fails` replays have returned. */
  lemma {:induction false} StaysInFlightIff(maxFails: int, ops: seq<Op>, more: seq<Op>, id: Id)
    requires id !in Run(maxFails, ops).unacked
    ensures StaysInFlight(maxFails, ops, more, id) <==> WithinLimit(maxFails, more, id)
  {
    hide Run, Replays, LifeOf, StaysInFlight, WithinLimit;
    if more == [] {
      NothingMore(maxFails, ops, id);
    } else {
      var before := more[..|more| - 1];
      StaysInFlightIff(maxFails, ops, before, id);
      WithinLimitPrefix(maxFails, more, id);
      StaysInFlightStep(maxFails, ops, more, id);
      Unfold(maxFails, ops + more, id);
      assert (ops + more)[..|ops + more| - 1] == ops + before;
      if StaysInFlight(maxFails, ops, before, id) {
        ReplayBound(maxFails, ops, before, id);
        if before == [] {
          assert ops + before == ops;
        } else {
          StillInFlight(maxFails, ops, before, id);
        }
      }
    }
  }

  lemma NothingMore(maxFails: int, ops: seq<Op>, id: Id)
    ensures StaysInFlight(maxFails, ops, [], id) && WithinLimit(maxFails, [], id)
  {
  }

  /** From the emit that starts tracking, without an ack, the id stays tracked until the fail that comes after
      `max_fails` returned replays; that fail removes it from both maps and sends nothing. */
  lemma LimitResolves(maxFails: nat, ops: seq<Op>, more: seq<Op>, id: Id, d: Delivery)
    requires id !in Run(maxFails, ops).unacked && more != []
    requires WithinLimit(maxFails, more, id) && Replays(more, id) == maxFails
    ensures forall k | 0 < k <= |more| :: id in Run(maxFails, ops + more[..k]).unacked
    ensures
      var s1 := Run(maxFails, ops + more + [DoFail(id, d)]);
      id !in s1.unacked && id !in s1.failed && s1.sent == Run(maxFails, ops + more).sent
  {
    StaysInFlightIff(maxFails, ops, more, id);
    assert more[..|more|] == more;
    ReplayBound(maxFails, ops, more, id);
    FailReplaysOrResolves(maxFails, ops + more, id, d);
  }

  function TimesSent(sent: seq<Sent>, id: Id): nat {
    if sent == [] then 0 else TimesSent(sent[..|sent| - 1], id) + if sent[|sent| - 1].id == id then 1 else 0
  }

  /** Explicit emits of id that reached Storm. */
  function EmitsSent(ops: seq<Op>, id: Id): nat {
    if ops == [] then 0
    else
      var op := ops[|ops| - 1];
      EmitsSent(ops[..|ops| - 1], id) + if op.DoEmit? && op.id == id && !op.d.RaisedUnsent? then 1 else 0
  }

  /** Fails of id whose replay reached Storm but then raised; these are not counted in `failed_tuples`. */
  function RaisedReplays(ops: seq<Op>, id: Id): nat {
    if ops == [] then 0
    else RaisedReplays(ops[..|ops| - 1], id) + if ops[|ops| - 1] == DoFail(id, RaisedSent) then 1 else 0
  }

  lemma SentStep(sent: seq<Sent>, m: Sent, id: Id)
    ensures TimesSent(sent + [m], id) == TimesSent(sent, id) + if m.id == id then 1 else 0
  {
    assert (sent + [m])[..|sent|] == sent;
  }

  lemma OneSent(maxFails: int, s: State, op: Op, id: Id)
    requires id in Apply(maxFails, s, op).unacked
    ensures TimesSent(Apply(maxFails, s, op).sent, id) == TimesSent(s.sent, id) +
      (if op.DoEmit? && op.id == id && !op.d.RaisedUnsent? then 1 else 0)
      + (if op == DoFail(id, Delivered) then 1 else 0) + (if op == DoFail(id, RaisedSent) then 1 else 0)
  {
    hide TimesSent;
    if op.DoEmit? {
      SentStep(s.sent, Sent(op.id, op.args), id);
    } else if op.DoFail? && op.id in s.unacked {
      SentStep(s.sent, Sent(op.id, s.unacked[op.id]), id);
    }
    assert s.sent + [] == s.sent;
  }

  /** While an id is tracked, Storm receives it once for each explicit emit that got out, once for each
      counted replay, and once for each replay that raised after it was sent. So there are at most `max_fails`
      replays, plus those that raised. */
  lemma {:induction false} SentReplays(maxFails: int, ops: seq<Op>, more: seq<Op>, id: Id)
    requires id !in Run(maxFails, ops).unacked && StaysInFlight(maxFails, ops, more, id)
    ensures TimesSent(Run(maxFails, ops + more).sent, id) ==
      TimesSent(Run(maxFails, ops).sent, id) + EmitsSent(more, id) + Replays(more, id) + RaisedReplays(more, id)
    ensures Replays(more, id) > 0 ==> Replays(more, id) <= maxFails
  {
    hide Apply;
    hide TimesSent;
    ReplayBound(maxFails, ops, more, id);
    if more == [] {
      assert ops + more == ops;
    } else {
      var before, op := more[..|more| - 1], more[|more| - 1];
      assert forall k | 0 < k <= |before| :: before[..k] == more[..k];
      SentReplays(maxFails, ops, before, id);
      assert (ops + more)[..|ops + more| - 1] == ops + before;
      assert more[..|more|] == more;
      OneSent(maxFails, Run(maxFails, ops + before), op, id);
    }
  }

  /** How often Storm receives id from the emit that starts tracking it on, beyond the explicit emits. */
  function SentAgain(maxFails: int, ops: seq<Op>, more: seq<Op>, id: Id): int {
    TimesSent(Run(maxFails, ops + more).sent, id) - TimesSent(Run(maxFails, ops).sent, id) - EmitsSent(more, id)
  }

  /** Fails of id whose replay, returning or not, got out. */
  function FailsSent(ops: seq<Op>, id: Id): nat {
    if ops == [] then 0
    else
      var op := ops[|ops| - 1];
      FailsSent(ops[..|ops| - 1], id) + if op.DoFail? && op.id == id && !op.d.RaisedUnsent? then 1 else 0
  }

  lemma {:induction false} FailsSentAre(ops: seq<Op>, id: Id)
    ensures FailsSent(ops, id) == Replays(ops, id) + RaisedReplays(ops, id)
  {
    if ops != [] {
      FailsSentAre(ops[..|ops| - 1], id);
    }
  }

  /** While an id is tracked, Storm receives it again once for each fail whose replay got out; so it is replayed
      at most `max_fails` times if and only if there are no more such fails than that. */
  lemma {:induction false} ReplayLimitHoldsIff(maxFails: int, ops: seq<Op>, more: seq<Op>, id: Id)
    requires id !in Run(maxFails, ops).unacked && WithinLimit(maxFails, more, id)
    ensures SentAgain(maxFails, ops, more, id) == FailsSent(more, id)
    ensures SentAgain(maxFails, ops, more, id) <= maxFails <==> Replays(more, id) + RaisedReplays(more, id) <= maxFails
    ensures RaisedReplays(more, id) == 0 && maxFails >= 0 ==> SentAgain(maxFails, ops, more, id) <= maxFails
  {
    StaysInFlightIff(maxFails, ops, more, id);
    SentReplays(maxFails, ops, more, id);
    FailsSentAre(more, id);
  }

  lemma TwoRaised(emit: Op, fail: Op, id: Id)
    requires emit.DoEmit? && fail == DoFail(id, RaisedSent)
    ensures Replays([emit], id) == Replays([emit, fail], id) == Replays([emit, fail, fail], id) == 0
    ensures RaisedReplays([emit, fail, fail], id) == 2
  {
    assert [emit, fail, fail][..2] == [emit, fail] && [emit, fail][..1] == [emit] && [emit][..0] == [];
    assert RaisedReplays([emit], id) == 0;
    assert RaisedReplays([emit, fail], id) == 1;
  }

  /** The failing side is reached: two replays that raise once they are out go past a limit of one, and the next
      fail will replay again. */
  lemma ReplaysPastLimit(id: Id, args: Args)
    ensures
      var more := [DoEmit(id, args, Delivered), DoFail(id, RaisedSent), DoFail(id, RaisedSent)];
      && WithinLimit(1, more, id) && SentAgain(1, [], more, id) == 2
      && id in Run(1, more).unacked && id !in Run(1, more).failed
  {
    hide Run, TimesSent, EmitsSent, SentAgain, FailsSent, LifeOf, StaysInFlight, Replays, RaisedReplays;
    var emit, fail := DoEmit(id, args, Delivered), DoFail(id, RaisedSent);
    var more := [emit, fail, fail];
    TwoRaised(emit, fail, id);
    Unfold(1, [], id);
    assert more[..2] == [emit, fail] && more[..1] == [emit] && [] + more == more;
    assert WithinLimit(1, more, id);
    StaysInFlightIff(1, [], more, id);
    ReplayLimitHoldsIff(1, [], more, id);
    FailsSentAre(more, id);
    ReplayBound(1, [], more, id);
    StillInFlight(1, [], more, id);
    MapsFollowLives(1, more, id);
  }

  /** What an emit that ends like this means for the spout: whether its message got out, and whether it raised. */
  function DeliveryOf(r: Demux.Emitted): Delivery {
    match r
    case NoIds => Delivered
    case Ids(_) => Delivered
    case TypeError => RaisedUnsent
    case SendFailed => RaisedUnsent
    case ReadRaised => RaisedSent
    case Away => RaisedSent
  }

  /** That reading is right: the message is out exactly if it says so. */
  lemma DeliveryIsSent(c: Demux.State, a: Demux.EmitArgs, pipeOpen: bool, arrivals: seq<Demux.Incoming>)
    ensures
      var (c1, r) := Demux.AfterEmit(c, a, pipeOpen, arrivals);
      c1.sent == c.sent + if DeliveryOf(r).RaisedUnsent? then [] else [Demux.MessageOf(a)]
  {
    assert c.sent + [] == c.sent;
  }

  /** A replay that raises once it is out is one whose reply does not parse, so that such histories come from
      inputs: whatever commands Storm sends before the reply. */
  lemma RaisedSentIsReached(c: Demux.State, a: Demux.EmitArgs, before: seq<Demux.Incoming>)
    requires a.tup.List? || a.tup.Tuple?
    requires a.needTaskIds && a.directTask.None? && c.pendingTaskIds == []
    requires forall m | m in c.input + before :: m.Got? && !m.value.List?
    ensures
      var (c1, r) := Demux.AfterEmit(c, a, true, before + [Demux.Garbled]);
      DeliveryOf(r) == RaisedSent && c1.sent == c.sent + [Demux.MessageOf(a)]
  {
    Demux.GarbledReplyRaises(c, a, before, []);
    assert before + [Demux.Garbled] + [] == before + [Demux.Garbled];
  }

  // ---- what is sent ----

  /** An explicit emit, of a tracked id or a new one, sends the arguments of this call, saves them, and touches
      neither the failure counts nor any other id. */
  lemma EmitSendsItsArguments(maxFails: int, ops: seq<Op>, id: Id, args: Args, d: Delivery)
    ensures
      var s, s1 := Run(maxFails, ops), Run(maxFails, ops + [DoEmit(id, args, d)]);
      && s1.sent == s.sent + (if d.RaisedUnsent? then [] else [Sent(id, args)])
      && id in s1.unacked && s1.unacked[id] == args && s1.failed == s.failed
      && (forall x | x != id :: x in s1.unacked <==> x in s.unacked)
      && (forall x | x != id && x in s.unacked :: s1.unacked[x] == s.unacked[x])
  {
    assert (ops + [DoEmit(id, args, d)])[..|ops|] == ops;
  }

  /** Every message that any operation sends carries the most recent explicit arguments of its id. */
  lemma MessagesCarryLastArgs(maxFails: int, ops: seq<Op>, op: Op)
    ensures
      var s, s1 := Run(maxFails, ops), Run(maxFails, ops + [op]);
      s1.sent == s.sent ||
      (&& LastArgs(ops + [op], op.id).Some?
       && s1.sent == s.sent + [Sent(op.id, LastArgs(ops + [op], op.id).value)])
  {
    assert (ops + [op])[..|ops|] == ops;
    InFlightArgs(maxFails, ops, op.id);
  }

  /** An ack sends nothing and forgets the id, and no other. */
  lemma AckForgets(maxFails: int, ops: seq<Op>, id: Id)
    ensures
      var s, s1 := Run(maxFails, ops), Run(maxFails, ops + [DoAck(id)]);
      && s1.sent == s.sent && id !in s1.unacked && id !in s1.failed
      && (forall x | x != id :: x in s1.unacked <==> x in s.unacked)
      && (forall x | x != id :: x in s1.failed <==> x in s.failed)
  {
    assert (ops + [DoAck(id)])[..|ops|] == ops;
  }
}
