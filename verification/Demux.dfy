/** `Component.read_task_ids`, `read_command` and `emit`: one input stream, two queues. */
module Demux {
  import opened Options
  import opened Sanitise

  /** What `read_message` meets next: a parsed message, or one that does not parse. */
  datatype Incoming = Got(value: Value) | Garbled

  /** How a read ends; StormWentAwayError stands for a stream with nothing more to give. */
  datatype Read = Returned(value: Value) | Raised | WentAway

  function Outcome(m: Incoming): Read {
    match m
    case Got(v) => Returned(v)
    case Garbled => Raised
  }

  /** The message sent by `emit`; an absent key is None. */
  datatype EmitMessage = Emit(
    tup: Value,
    anchors: Option<seq<string>>,
    id: Option<string>,
    stream: Option<string>,
    task: Option<int>,
    needTaskIds: Option<bool>)

  datatype EmitArgs = EmitArgs(
    tup: Value,
    tupId: Option<string>,
    stream: Option<string>,
    anchors: Option<seq<string>>,
    directTask: Option<int>,
    needTaskIds: bool)

  datatype State = State(
    input: seq<Incoming>,
    pendingCommands: seq<Value>,
    pendingTaskIds: seq<Value>,
    sent: seq<EmitMessage>)

  /** A loop of reads that looks for a list, or for anything else: what it passed over, what is left. */
  datatype Skimmed = Skimmed(passed: seq<Value>, rest: seq<Incoming>, result: Read)

  function Skim(input: seq<Incoming>, lists: bool): Skimmed {
    if input == [] then Skimmed([], [], WentAway)
    else match input[0]
      case Garbled => Skimmed([], input[1..], Raised)
      case Got(v) =>
        if v.List? == lists then Skimmed([], input[1..], Returned(v))
        else
          var s := Skim(input[1..], lists);
          s.(passed := [v] + s.passed)
  }

  /** `read_task_ids`. */
  function AfterReadTaskIds(c: State): (State, Read) {
    if c.pendingTaskIds != [] then (c.(pendingTaskIds := c.pendingTaskIds[1..]), Returned(c.pendingTaskIds[0]))
    else
      var s := Skim(c.input, true);
      (c.(input := s.rest, pendingCommands := c.pendingCommands + s.passed), s.result)
  }

  /** `read_command`. */
  function AfterReadCommand(c: State): (State, Read) {
    if c.pendingCommands != [] then (c.(pendingCommands := c.pendingCommands[1..]), Returned(c.pendingCommands[0]))
    else
      var s := Skim(c.input, false);
      (c.(input := s.rest, pendingTaskIds := c.pendingTaskIds + s.passed), s.result)
  }

  /** What `emit` returns: nothing, task ids, or an exception: for its argument, for a pipe that was closed when
      it sent, for a reply that does not parse, for a stream that ends before the reply. */
  datatype Emitted = NoIds | Ids(ids: Value) | TypeError | SendFailed | ReadRaised | Away

  function MessageOf(a: EmitArgs): EmitMessage {
    Emit(a.tup, a.anchors, a.tupId, a.stream, a.directTask, if a.needTaskIds then None else Some(false))
  }

  function EmitRead(r: Read): Emitted {
    match r
    case Returned(v) => Ids(v)
    case Raised => ReadRaised
    case WentAway => Away
  }

  /** `emit`; `pipeOpen` says whether the message gets out, and `arrivals` is what Storm sends once it has it. */
  function AfterEmit(c: State, a: EmitArgs, pipeOpen: bool, arrivals: seq<Incoming>): (State, Emitted) {
    if !a.tup.List? && !a.tup.Tuple? then (c, TypeError)
    else if !pipeOpen then (c, SendFailed)
    else
      var c1 := c.(sent := c.sent + [MessageOf(a)], input := c.input + arrivals);
      if a.needTaskIds && a.directTask.None? then
        var (c2, r) := AfterReadTaskIds(c1);
        (c2, EmitRead(r))
      else if a.needTaskIds then (c1, Ids(List([Int(a.directTask.value)])))
      else (c1, NoIds)
  }

  /** Storm answers an emit with its task ids unless told not to, or told where to send. */
  predicate StormAnswers(m: EmitMessage) {
    m.task.None? && m.needTaskIds != Some(false)
  }

  /** What Storm reads of an emit that got out is what the caller passed, field by field; the flag is sent only to
      switch replies off. */
  lemma EmitSendsArguments(c: State, a: EmitArgs, arrivals: seq<Incoming>)
    requires a.tup.List? || a.tup.Tuple?
    ensures
      var (c1, _) := AfterEmit(c, a, true, arrivals);
      && |c1.sent| == |c.sent| + 1 && c1.sent[..|c.sent|] == c.sent
      && var m := c1.sent[|c.sent|];
         && m.tup == a.tup && m.id == a.tupId && m.stream == a.stream
         && m.anchors == a.anchors && m.task == a.directTask
         && (m.needTaskIds.None? <==> a.needTaskIds) && (m.needTaskIds.Some? ==> !m.needTaskIds.value)
  {
    hide Skim;
  }

  /** An emit that does not wait: a direct one that wants task ids returns the task it was sent to, any other returns
      nothing, and neither takes anything from the queues or the stream. */
  lemma EmitWithoutReply(c: State, a: EmitArgs, arrivals: seq<Incoming>)
    requires (a.tup.List? || a.tup.Tuple?) && (!a.needTaskIds || a.directTask.Some?)
    ensures
      var (c1, r) := AfterEmit(c, a, true, arrivals);
      && (r.Ids? <==> a.needTaskIds) && (!a.needTaskIds ==> r == NoIds)
      && (r.Ids? ==> r.ids == List([Int(a.directTask.value)]))
      && c1.input == c.input + arrivals
      && c1.pendingCommands == c.pendingCommands && c1.pendingTaskIds == c.pendingTaskIds
  {
  }

  /** A call with anything but a list or tuple, or with the pipe closed, sends nothing and reads nothing. */
  lemma EmitRefused(c: State, a: EmitArgs, pipeOpen: bool, arrivals: seq<Incoming>)
    ensures
      var (c1, r) := AfterEmit(c, a, pipeOpen, arrivals);
      && (r == TypeError <==> !a.tup.List? && !a.tup.Tuple?)
      && (r == SendFailed <==> (a.tup.List? || a.tup.Tuple?) && !pipeOpen)
      && (r == TypeError || r == SendFailed ==> c1 == c)
  {
    hide Skim;
  }

  /** An emit that waits and meets a reply that does not parse raises although its message is out. */
  lemma GarbledReplyRaises(c: State, a: EmitArgs, before: seq<Incoming>, after: seq<Incoming>)
    requires a.tup.List? || a.tup.Tuple?
    requires a.needTaskIds && a.directTask.None? && c.pendingTaskIds == []
    requires forall m | m in c.input + before :: m.Got? && !m.value.List?
    ensures
      var (c1, r) := AfterEmit(c, a, true, before + [Garbled] + after);
      r == ReadRaised && c1.sent == c.sent + [MessageOf(a)]
  {
    var input := c.input + before;
    assert c.input + (before + [Garbled] + after) == input + ([Garbled] + after);
    SkimToGarbled(input, after);
  }

  lemma {:induction false} SkimToGarbled(input: seq<Incoming>, after: seq<Incoming>)
    requires forall m | m in input :: m.Got? && !m.value.List?
    ensures Skim(input + ([Garbled] + after), true).result == Raised
  {
    if input == [] {
      assert input + ([Garbled] + after) == [Garbled] + after;
    } else {
      assert (input + ([Garbled] + after))[1..] == input[1..] + ([Garbled] + after);
      assert input[0] in input && forall m | m in input[1..] :: m in input;
      SkimToGarbled(input[1..], after);
    }
  }

  class Component {
    var input: seq<Incoming>
    var pendingCommands: seq<Value>
    var pendingTaskIds: seq<Value>
    var sent: seq<EmitMessage>

    function Now(): State
      reads this
    {
      State(input, pendingCommands, pendingTaskIds, sent)
    }

    constructor (input: seq<Incoming>)
      ensures Now() == State(input, [], [], [])
    {
      this.input, pendingCommands, pendingTaskIds, sent := input, [], [], [];
    }

    method ReadMessage() returns (r: Read)
      modifies `input
      ensures old(input) == [] ==> input == [] && r == WentAway
      ensures old(input) != [] ==> input == old(input)[1..] && r == Outcome(old(input)[0])
    {
      if input == [] {
        return WentAway;
      }
      r := Outcome(input[0]);
      input := input[1..];
    }

    method ReadTaskIds() returns (r: Read)
      modifies `input, `pendingCommands, `pendingTaskIds
      ensures (Now(), r) == AfterReadTaskIds(old(Now()))
    {
      if pendingTaskIds != [] {
        r := Returned(pendingTaskIds[0]);
        pendingTaskIds := pendingTaskIds[1..];
      } else {
        ghost var found := Skim(input, true);
        r := ReadMessage();
        while r.Returned? && !r.value.List?
          invariant pendingTaskIds == old(pendingTaskIds)
          invariant r.Returned? && !r.value.List? ==>
            old(pendingCommands) + found.passed == pendingCommands + [r.value] + Skim(input, true).passed
            && found.rest == Skim(input, true).rest && found.result == Skim(input, true).result
          invariant !(r.Returned? && !r.value.List?) ==>
            old(pendingCommands) + found.passed == pendingCommands && found.rest == input && found.result == r
          decreases |input|, r.Returned?
        {
          pendingCommands := pendingCommands + [r.value];
          r := ReadMessage();
        }
      }
    }

    method ReadCommand() returns (r: Read)
      modifies `input, `pendingCommands, `pendingTaskIds
      ensures (Now(), r) == AfterReadCommand(old(Now()))
    {
      if pendingCommands != [] {
        r := Returned(pendingCommands[0]);
        pendingCommands := pendingCommands[1..];
      } else {
        ghost var found := Skim(input, false);
        r := ReadMessage();
        while r.Returned? && r.value.List?
          invariant pendingCommands == old(pendingCommands)
          invariant r.Returned? && r.value.List? ==>
            old(pendingTaskIds) + found.passed == pendingTaskIds + [r.value] + Skim(input, false).passed
            && found.rest == Skim(input, false).rest && found.result == Skim(input, false).result
          invariant !(r.Returned? && r.value.List?) ==>
            old(pendingTaskIds) + found.passed == pendingTaskIds && found.rest == input && found.result == r
          decreases |input|, r.Returned?
        {
          pendingTaskIds := pendingTaskIds + [r.value];
          r := ReadMessage();
        }
      }
    }

    method Emit(a: EmitArgs, pipeOpen: bool, arrivals: seq<Incoming>) returns (r: Emitted)
      modifies this
      ensures (Now(), r) == AfterEmit(old(Now()), a, pipeOpen, arrivals)
    {
      if !a.tup.List? && !a.tup.Tuple? {
        return TypeError;
      }
      var msg := EmitMessage.Emit(a.tup, a.anchors, a.tupId, a.stream, a.directTask, None);
      if !a.needTaskIds {
        msg := msg.(needTaskIds := Some(false));
      }
      if !pipeOpen {
        return SendFailed;
      }
      sent, input := sent + [msg], input + arrivals;
      if a.needTaskIds && a.directTask.None? {
        var ids := ReadTaskIds();
        r := EmitRead(ids);
      } else if a.needTaskIds {
        r := Ids(List([Int(a.directTask.value)]));
      } else {
        r := NoIds;
      }
    }
  }
}
