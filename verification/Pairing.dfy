/** What one thread gets out of the two queues, over any sequence of calls. */
module Pairing {
  import opened Sanitise
  import opened Demux

  /** The task-id lists (or the commands) among the messages, in order. */
  function Select(input: seq<Incoming>, lists: bool): seq<Value> {
    if input == [] then []
    else (if input[0].Got? && input[0].value.List? == lists then [input[0].value] else []) + Select(input[1..], lists)
  }

  lemma {:induction false} SelectConcat(a: seq<Incoming>, b: seq<Incoming>, lists: bool)
    ensures Select(a + b, lists) == Select(a, lists) + Select(b, lists)
  {
    if a == [] {
      assert a + b == b;
    } else {
      assert (a + b)[1..] == a[1..] + b;
      SelectConcat(a[1..], b, lists);
    }
  }

  /** What a read took from the input. */
  function Taken(before: seq<Incoming>, after: seq<Incoming>): seq<Incoming>
    requires |after| <= |before|
  {
    before[..|before| - |after|]
  }

  /** A looping read takes a stretch of the input: the values it passes over are those of the other kind, and
      it returns the first of its own. */
  lemma {:induction false} SkimSelects(input: seq<Incoming>, lists: bool)
    ensures
      var s := Skim(input, lists);
      && |s.rest| <= |input| && input == Taken(input, s.rest) + s.rest
      && Select(Taken(input, s.rest), !lists) == s.passed
      && Select(Taken(input, s.rest), lists) == if s.result.Returned? then [s.result.value] else []
  {
    hide Select, Skim, Taken;
    SkimIs(input, lists);
    if input == [] {
      SelectNone();
    } else {
      var m, tail := input[0], input[1..];
      assert input == [m] + tail;
      if m.Got? && m.value.List? != lists {
        var rest := Skim(tail, lists).rest;
        SkimSelects(tail, lists);
        TakenCons(m, tail, rest);
        SelectCons(m, Taken(tail, rest), lists);
        SelectCons(m, Taken(tail, rest), !lists);
        assert [m] + (Taken(tail, rest) + rest) == [m] + Taken(tail, rest) + rest;
      } else {
        TakenCons(m, tail, tail);
        SelectCons(m, [], lists);
        SelectCons(m, [], !lists);
        SelectNone();
      }
    }
  }

  lemma SkimIs(input: seq<Incoming>, lists: bool)
    ensures Skim(input, lists) ==
      if input == [] then Skimmed([], [], WentAway)
      else if input[0].Garbled? then Skimmed([], input[1..], Raised)
      else if input[0].value.List? == lists then Skimmed([], input[1..], Returned(input[0].value))
      else
        var s := Skim(input[1..], lists);
        s.(passed := [input[0].value] + s.passed)
  {
  }

  lemma SelectNone()
    ensures Select([], true) == [] && Select([], false) == [] && Taken([], []) == []
  {
  }

  lemma SelectCons(m: Incoming, input: seq<Incoming>, lists: bool)
    ensures Select([m] + input, lists) ==
      (if m.Got? && m.value.List? == lists then [m.value] else []) + Select(input, lists)
  {
    assert ([m] + input)[1..] == input;
  }

  lemma TakenCons(m: Incoming, before: seq<Incoming>, after: seq<Incoming>)
    requires |after| <= |before|
    ensures Taken([m] + before, after) == [m] + Taken(before, after)
    ensures Taken(before, before) == []
  {
  }

  function AfterRead(c: State, lists: bool): (State, Read) {
    if lists then AfterReadTaskIds(c) else AfterReadCommand(c)
  }

  function Queue(c: State, lists: bool): seq<Value> {
    if lists then c.pendingTaskIds else c.pendingCommands
  }

  function ValuesOf(r: Read): seq<Value> {
    if r.Returned? then [r.value] else []
  }

  /** One read, of either kind: nothing that is taken from the input gets lost or changes places. */
  lemma ReadKeepsOrder(c: State, lists: bool)
    ensures
      var (c1, r) := AfterRead(c, lists);
      && |c1.input| <= |c.input| && c.input == Taken(c.input, c1.input) + c1.input && c1.sent == c.sent
      && ValuesOf(r) + Queue(c1, lists) == Queue(c, lists) + Select(Taken(c.input, c1.input), lists)
      && Queue(c1, !lists) == Queue(c, !lists) + Select(Taken(c.input, c1.input), !lists)
      && (Queue(c, lists) == [] || Queue(c, !lists) == [] ==> Queue(c1, lists) == [] || Queue(c1, !lists) == [])
  {
    hide Skim;
    SkimSelects(c.input, lists);
    assert Taken(c.input, c.input) == [];
  }

  // ---- demultiplexing ----

  datatype Call = ForTaskIds | ForCommand

  /** A component over a sequence of calls on a fixed stream, with what the calls returned. */
  datatype Calls = Calls(c: State, taskIds: seq<Value>, commands: seq<Value>)

  function AfterCall(s: Calls, call: Call): Calls {
    match call
    case ForTaskIds =>
      var (c, r) := AfterReadTaskIds(s.c);
      Calls(c, s.taskIds + ValuesOf(r), s.commands)
    case ForCommand =>
      var (c, r) := AfterReadCommand(s.c);
      Calls(c, s.taskIds, s.commands + ValuesOf(r))
  }

  function AfterCalls(input: seq<Incoming>, calls: seq<Call>): Calls {
    if calls == [] then Calls(State(input, [], [], []), [], [])
    else AfterCall(AfterCalls(input, calls[..|calls| - 1]), calls[|calls| - 1])
  }

  ghost predicate Demultiplexed(read: seq<Incoming>, s: Calls) {
    && Select(read, true) == s.taskIds + s.c.pendingTaskIds
    && Select(read, false) == s.commands + s.c.pendingCommands
    && (s.c.pendingTaskIds == [] || s.c.pendingCommands == [])
  }

  lemma CallDemultiplexes(read: seq<Incoming>, s: Calls, call: Call)
    requires Demultiplexed(read, s)
    ensures
      var s1 := AfterCall(s, call);
      && |s1.c.input| <= |s.c.input| && s.c.input == Taken(s.c.input, s1.c.input) + s1.c.input
      && Demultiplexed(read + Taken(s.c.input, s1.c.input), s1)
  {
    hide AfterReadTaskIds;
    hide AfterReadCommand;
    hide Select;
    var s1 := AfterCall(s, call);
    ReadKeepsOrder(s.c, call.ForTaskIds?);
    var more, r := Taken(s.c.input, s1.c.input), AfterRead(s.c, call.ForTaskIds?).1;
    SelectConcat(read, more, true);
    SelectConcat(read, more, false);
    if call.ForTaskIds? {
      Exchange(s.taskIds, s.c.pendingTaskIds, Select(more, true), ValuesOf(r), s1.c.pendingTaskIds);
      assert s.commands + s.c.pendingCommands + Select(more, false) ==
        s.commands + (s.c.pendingCommands + Select(more, false));
    } else {
      Exchange(s.commands, s.c.pendingCommands, Select(more, false), ValuesOf(r), s1.c.pendingCommands);
      assert s.taskIds + s.c.pendingTaskIds + Select(more, true) ==
        s.taskIds + (s.c.pendingTaskIds + Select(more, true));
    }
  }

  lemma Exchange(a: seq<Value>, b: seq<Value>, c: seq<Value>, d: seq<Value>, e: seq<Value>)
    requires b + c == d + e
    ensures a + b + c == a + d + e
  {
    assert a + b + c == a + (b + c);
    assert a + d + e == a + (d + e);
  }

  /** For any sequence of calls, garbled messages included: of either kind, what was returned followed by what
      is queued is exactly what was read, in order, and one of the queues is empty. */
  lemma {:induction false} Demultiplexing(input: seq<Incoming>, calls: seq<Call>)
    ensures
      var rest := AfterCalls(input, calls).c.input;
      && |rest| <= |input| && input == Taken(input, rest) + rest
      && Demultiplexed(Taken(input, rest), AfterCalls(input, calls))
  {
    hide AfterCall;
    hide Demultiplexed;
    if calls == [] {
      assert Taken(input, input) == [];
      NothingRead(input);
    } else {
      var before := AfterCalls(input, calls[..|calls| - 1]);
      Demultiplexing(input, calls[..|calls| - 1]);
      CallDemultiplexes(Taken(input, before.c.input), before, calls[|calls| - 1]);
      var rest := AfterCalls(input, calls).c.input;
      assert Taken(input, before.c.input) + Taken(before.c.input, rest) == Taken(input, rest);
    }
  }

  lemma NothingRead(input: seq<Incoming>)
    ensures Demultiplexed([], Calls(State(input, [], [], []), [], []))
  {
  }

  // ---- emits and their replies ----

  /** What one thread does: `emit`, during which Storm sends `arrivals`, or `read_command` after it did. */
  datatype Action = DoEmit(args: EmitArgs, arrivals: seq<Incoming>) | DoReadCommand(arrivals: seq<Incoming>)

  /** A component whose calls have all returned so far; `replies` are the results of the emits that wait for
      task ids, `commands` those of `read_command`. */
  datatype Progress = Going(c: State, replies: seq<Value>, commands: seq<Value>) | Stopped

  function Waits(a: Action): bool {
    a.DoEmit? && (a.args.tup.List? || a.args.tup.Tuple?) && a.args.needTaskIds && a.args.directTask.None?
  }

  function AfterAction(p: Progress, a: Action): Progress {
    if p.Stopped? then Stopped
    else match a
      case DoEmit(args, arrivals) =>
        var (c, r) := AfterEmit(p.c, args, true, arrivals);
        if Waits(a) then
          if r.Ids? then Going(c, p.replies + [r.ids], p.commands) else Stopped
        else if r.TypeError? then Going(c.(input := c.input + arrivals), p.replies, p.commands)
        else Going(c, p.replies, p.commands)
      case DoReadCommand(arrivals) =>
        var (c, r) := AfterReadCommand(p.c.(input := p.c.input + arrivals));
        if r.Returned? then Going(c, p.replies, p.commands + [r.value]) else Stopped
  }

  function Thread(actions: seq<Action>): Progress {
    if actions == [] then Going(State([], [], [], []), [], [])
    else AfterAction(Thread(actions[..|actions| - 1]), actions[|actions| - 1])
  }

  function Arrivals(actions: seq<Action>): seq<Incoming> {
    if actions == [] then [] else Arrivals(actions[..|actions| - 1]) + actions[|actions| - 1].arrivals
  }

  /** How many messages sent so far Storm answers. */
  function Asked(sent: seq<EmitMessage>): nat {
    if sent == [] then 0 else Asked(sent[..|sent| - 1]) + if StormAnswers(sent[|sent| - 1]) then 1 else 0
  }

  function Messages(actions: seq<Action>): seq<EmitMessage> {
    if actions == [] then []
    else
      var a := actions[|actions| - 1];
      Messages(actions[..|actions| - 1])
      + if a.DoEmit? && (a.args.tup.List? || a.args.tup.Tuple?) then [MessageOf(a.args)] else []
  }

  function ReadCommands(actions: seq<Action>): nat {
    if actions == [] then 0
    else ReadCommands(actions[..|actions| - 1]) + if actions[|actions| - 1].DoReadCommand? then 1 else 0
  }

  /** Storm answers the messages that ask for task ids, in order and never before it has them; commands may
      come at any time. `reply(i)` is its i-th answer. */
  ghost predicate StormKeepsOrder(actions: seq<Action>, reply: nat -> Value) {
    forall k | 0 <= k <= |actions| ::
      var lists := Select(Arrivals(actions[..k]), true);
      |lists| <= Asked(Messages(actions[..k])) && forall i | 0 <= i < |lists| :: lists[i] == reply(i)
  }

  lemma OrderPrefix(actions: seq<Action>, reply: nat -> Value)
    requires StormKeepsOrder(actions, reply) && actions != []
    ensures StormKeepsOrder(actions[..|actions| - 1], reply)
  {
    var before := actions[..|actions| - 1];
    forall k | 0 <= k <= |before|
      ensures
        var lists := Select(Arrivals(before[..k]), true);
        |lists| <= Asked(Messages(before[..k])) && forall i | 0 <= i < |lists| :: lists[i] == reply(i)
    {
      assert before[..k] == actions[..k];
    }
  }

  /** `emit` waits for a reply exactly when Storm sends one. */
  lemma WaitsIffAnswered(args: EmitArgs, arrivals: seq<Incoming>)
    requires args.tup.List? || args.tup.Tuple?
    ensures Waits(DoEmit(args, arrivals)) <==> StormAnswers(MessageOf(args))
  {
  }

  /** The books of a thread: lists and commands that have arrived against what became of them. */
  ghost predicate Booked(lists: seq<Value>, commands: seq<Value>, p: Progress)
    requires p.Going?
  {
    && p.c.pendingTaskIds == [] && Select(p.c.input, true) == []
    && lists == p.replies
    && commands == p.commands + p.c.pendingCommands + Select(p.c.input, false)
  }

  /** Reading for task ids when at most one list is in sight returns that list and leaves none. */
  lemma OnlyList(c: State, v: Value)
    requires c.pendingTaskIds == [] && |Select(c.input, true)| <= 1
    requires AfterReadTaskIds(c).1 == Returned(v)
    ensures
      var c1 := AfterReadTaskIds(c).0;
      && Select(c.input, true) == [v] && c1.pendingTaskIds == [] && Select(c1.input, true) == []
      && c.pendingCommands + Select(c.input, false) == c1.pendingCommands + Select(c1.input, false)
      && c1.sent == c.sent
  {
    hide AfterReadTaskIds, Select, Taken;
    var c1 := AfterReadTaskIds(c).0;
    ReadKeepsOrder(c, true);
    var taken := Taken(c.input, c1.input);
    SelectConcat(taken, c1.input, true);
    SelectConcat(taken, c1.input, false);
    OnlyOne(v, c1.pendingTaskIds, Select(taken, true), Select(c1.input, true));
    assert c.pendingCommands + (Select(taken, false) + Select(c1.input, false)) ==
      c.pendingCommands + Select(taken, false) + Select(c1.input, false);
  }

  lemma OnlyOne(v: Value, queue: seq<Value>, taken: seq<Value>, left: seq<Value>)
    requires [v] + queue == [] + taken && |taken + left| <= 1
    ensures taken + left == [v] && queue == [] && left == []
  {
    assert |queue| + 1 == |taken| && |taken + left| == |taken| + |left|;
    assert taken[0] == ([v] + queue)[0];
  }

  /** Reading for a command when no list is in sight leaves the task-id queue empty. */
  lemma NoLists(c: State, v: Value)
    requires c.pendingTaskIds == [] && Select(c.input, true) == []
    requires AfterReadCommand(c).1 == Returned(v)
    ensures
      var c1 := AfterReadCommand(c).0;
      && c1.pendingTaskIds == [] && Select(c1.input, true) == []
      && c.pendingCommands + Select(c.input, false) == [v] + c1.pendingCommands + Select(c1.input, false)
  {
    hide AfterReadCommand;
    hide Select;
    var c1 := AfterReadCommand(c).0;
    ReadKeepsOrder(c, false);
    SelectConcat(Taken(c.input, c1.input), c1.input, true);
    SelectConcat(Taken(c.input, c1.input), c1.input, false);
  }

  lemma AskedNext(sent: seq<EmitMessage>, m: EmitMessage)
    ensures Asked(sent + [m]) == Asked(sent) + if StormAnswers(m) then 1 else 0
  {
    assert (sent + [m])[..|sent|] == sent;
  }

  lemma AskedStep(before: seq<Action>, a: Action)
    ensures Asked(Messages(before + [a])) == Asked(Messages(before)) + if Waits(a) then 1 else 0
    ensures Arrivals(before + [a]) == Arrivals(before) + a.arrivals
    ensures ReadCommands(before + [a]) == ReadCommands(before) + if a.DoReadCommand? then 1 else 0
  {
    hide Asked, StormAnswers;
    assert (before + [a])[..|before|] == before;
    if a.DoEmit? && (a.args.tup.List? || a.args.tup.Tuple?) {
      WaitsIffAnswered(a.args, a.arrivals);
      AskedNext(Messages(before), MessageOf(a.args));
    } else {
      assert Messages(before) + [] == Messages(before);
    }
  }

  lemma ActionBooks(p: Progress, a: Action, lists: seq<Value>, commands: seq<Value>)
    requires p.Going? && AfterAction(p, a).Going? && Booked(lists, commands, p)
    requires |Select(a.arrivals, true)| <= if Waits(a) then 1 else 0
    ensures Booked(lists + Select(a.arrivals, true), commands + Select(a.arrivals, false), AfterAction(p, a))
    ensures |AfterAction(p, a).replies| == |p.replies| + if Waits(a) then 1 else 0
    ensures |AfterAction(p, a).commands| == |p.commands| + if a.DoReadCommand? then 1 else 0
  {
    hide AfterReadTaskIds;
    hide AfterReadCommand;
    hide Select;
    SelectConcat(p.c.input, a.arrivals, true);
    SelectConcat(p.c.input, a.arrivals, false);
    var arrived, there := Select(a.arrivals, false), Select(p.c.input, false);
    var none: seq<Value> := [];
    assert none + Select(a.arrivals, true) == Select(a.arrivals, true) && lists + none == lists;
    assert p.commands + p.c.pendingCommands + there + arrived == p.commands + p.c.pendingCommands + (there + arrived);
    if Waits(a) {
      var c := p.c.(sent := p.c.sent + [MessageOf(a.args)], input := p.c.input + a.arrivals);
      var c1 := AfterReadTaskIds(c).0;
      OnlyList(c, AfterReadTaskIds(c).1.value);
      Exchange(p.commands, p.c.pendingCommands, there + arrived, c1.pendingCommands, Select(c1.input, false));
    } else if a.DoReadCommand? {
      var c := p.c.(input := p.c.input + a.arrivals);
      var c1, v := AfterReadCommand(c).0, AfterReadCommand(c).1.value;
      NoLists(c, v);
      Exchange(p.commands, p.c.pendingCommands, there + arrived, [v] + c1.pendingCommands, Select(c1.input, false));
      assert p.commands + ([v] + c1.pendingCommands) == p.commands + [v] + c1.pendingCommands;
    }
  }

  /** What is known of a thread whose calls have returned so far: the i-th reply went to the i-th emit that
      waited; between calls no reply is outstanding; and the commands that have arrived are those returned, then
      those queued, then those not read yet, in order. */
  ghost predicate Paired(actions: seq<Action>, reply: nat -> Value, p: Progress) {
    && p.Going?
    && |p.replies| == Asked(Messages(actions)) && |p.commands| == ReadCommands(actions)
    && (forall i | 0 <= i < |p.replies| :: p.replies[i] == reply(i))
    && p.c.pendingTaskIds == [] && Select(p.c.input, true) == []
    && Select(Arrivals(actions), true) == p.replies
    && Select(Arrivals(actions), false) == p.commands + p.c.pendingCommands + Select(p.c.input, false)
  }

  /** It holds of every thread whose calls return, garbled messages included. */
  lemma {:induction false} PairedWhileGoing(actions: seq<Action>, reply: nat -> Value)
    requires StormKeepsOrder(actions, reply) && Thread(actions).Going?
    ensures Paired(actions, reply, Thread(actions))
  {
    hide AfterAction, Select, Asked, Messages, Arrivals, ReadCommands;
    if actions == [] {
      NothingAsked();
    } else {
      var before, a := actions[..|actions| - 1], actions[|actions| - 1];
      var p := Thread(before);
      OrderPrefix(actions, reply);
      StoppedStays(p, a);
      PairedWhileGoing(before, reply);
      assert actions[..|actions|] == actions && before + [a] == actions;
      AskedStep(before, a);
      SelectConcat(Arrivals(before), a.arrivals, true);
      SelectConcat(Arrivals(before), a.arrivals, false);
      ActionBooks(p, a, p.replies, Select(Arrivals(before), false));
    }
  }

  // ---- the calls return ----

  predicate Parsable(input: seq<Incoming>) {
    forall m | m in input :: m.Got?
  }

  ghost predicate Served(actions: seq<Action>) {
    && Asked(Messages(actions)) <= |Select(Arrivals(actions), true)|
    && ReadCommands(actions) <= |Select(Arrivals(actions), false)|
  }

  /** By the end of each action Storm has answered every message that asks for task ids, and has sent a command
      for every `read_command`. */
  ghost predicate StormServes(actions: seq<Action>) {
    forall k | 0 <= k <= |actions| :: Served(actions[..k])
  }

  lemma ServesPrefix(actions: seq<Action>)
    requires actions != []
    ensures StormServes(actions) <==> StormServes(actions[..|actions| - 1]) && Served(actions)
  {
    hide Served;
    var before := actions[..|actions| - 1];
    assert actions[..|actions|] == actions;
    if StormServes(actions) {
      forall k | 0 <= k <= |before|
        ensures Served(before[..k])
      {
        assert before[..k] == actions[..k];
      }
    }
    if StormServes(before) && Served(actions) {
      forall k | 0 <= k <= |actions|
        ensures Served(actions[..k])
      {
        if k <= |before| {
          assert before[..k] == actions[..k];
        }
      }
    }
  }

  /** A read of parsable input returns if and only if there is something for it to return. */
  lemma {:induction false} SkimFinds(input: seq<Incoming>, lists: bool)
    requires Parsable(input)
    ensures Skim(input, lists).result.Returned? <==> Select(input, lists) != []
    ensures Parsable(Skim(input, lists).rest)
  {
    if input != [] {
      assert input[0] in input && forall m | m in input[1..] :: m in input;
      SkimFinds(input[1..], lists);
    }
  }

  lemma ActionReturnsIff(p: Progress, a: Action)
    requires p.Going? && p.c.pendingTaskIds == [] && Select(p.c.input, true) == []
    requires Parsable(p.c.input) && Parsable(a.arrivals)
    ensures AfterAction(p, a).Going? <==>
      && (Waits(a) ==> Select(a.arrivals, true) != [])
      && (a.DoReadCommand? ==> |p.c.pendingCommands| + |Select(p.c.input, false)| + |Select(a.arrivals, false)| > 0)
    ensures AfterAction(p, a).Going? ==> Parsable(AfterAction(p, a).c.input)
  {
    hide Skim, Select;
    var input := p.c.input + a.arrivals;
    SelectConcat(p.c.input, a.arrivals, true);
    SelectConcat(p.c.input, a.arrivals, false);
    SkimFinds(input, true);
    SkimFinds(input, false);
  }

  /** Against a Storm that keeps order and sends nothing garbled, the calls of a thread all return if and only if
      Storm serves them. */
  lemma {:induction false} ReturnsIffServed(actions: seq<Action>, reply: nat -> Value)
    requires StormKeepsOrder(actions, reply) && Parsable(Arrivals(actions))
    ensures Thread(actions).Going? <==> StormServes(actions)
    ensures Thread(actions).Going? ==> Parsable(Thread(actions).c.input)
  {
    hide AfterAction, Select, Asked, Messages, ReadCommands, StormServes, Waits;
    if actions == [] {
      NothingServed();
    } else {
      var before, a := actions[..|actions| - 1], actions[|actions| - 1];
      var p := Thread(before);
      OrderPrefix(actions, reply);
      assert actions[..|actions|] == actions && before + [a] == actions;
      assert forall m | m in Arrivals(before) || m in a.arrivals :: m in Arrivals(actions);
      ReturnsIffServed(before, reply);
      ServesPrefix(actions);
      StoppedStays(p, a);
      if p.Going? {
        PairedWhileGoing(before, reply);
        AskedStep(before, a);
        SelectConcat(Arrivals(before), a.arrivals, true);
        SelectConcat(Arrivals(before), a.arrivals, false);
        ActionReturnsIff(p, a);
      }
    }
  }

  lemma NothingServed()
    ensures StormServes([])
  {
    var none: seq<Action> := [];
    assert forall k | 0 <= k <= |none| :: none[..k] == none;
    NothingAsked();
  }

  /** Against a Storm that answers exactly the emits that ask for it, in order, with commands in between
      anyhow, every emit returns, the i-th that waits with the i-th answer; between calls no reply is
      outstanding, and no command is lost or changes places. */
  lemma {:induction false} EmitsGetTheirReplies(actions: seq<Action>, reply: nat -> Value)
    requires StormKeepsOrder(actions, reply) && StormServes(actions) && Parsable(Arrivals(actions))
    ensures Paired(actions, reply, Thread(actions))
  {
    ReturnsIffServed(actions, reply);
    PairedWhileGoing(actions, reply);
  }

  lemma StoppedStays(p: Progress, a: Action)
    ensures p.Stopped? ==> AfterAction(p, a).Stopped?
  {
  }

  lemma NothingAsked()
    ensures Asked(Messages([])) == 0 && ReadCommands([]) == 0
    ensures Arrivals([]) == [] && Select([], true) == [] && Select([], false) == []
  {
  }
}
