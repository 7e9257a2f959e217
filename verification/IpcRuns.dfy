/** What every run of the port and scheduler system keeps. */
module IpcRuns {
  import opened Handles
  import opened IpcModel

  // ---- the ready ring ----

  ghost predicate NoRepeats(q: seq<int>) {
    forall a, b :: 0 <= a < b < |q| ==> q[a] != q[b]
  }

  /** A ready entry is in the ring and a running one is current; nothing else is, except
      that an entry whose process was destroyed may be in one of the two places still. A
      blocked one is suspended inside a call on a real port. */
  ghost predicate TaskOk(s: Sys, i: int)
    requires 0 <= i < |s.tasks|
  {
    var t := s.tasks[i];
    && (t.used ==> t.state != New)
    && (i in s.queue ==> t.used && (t.state == Ready || t.state == Gone) && i != s.current)
    && (i == s.current ==> t.used && (t.state == Running || t.state == Gone))
    && (t.used && t.state == Ready ==> i in s.queue) && (t.used && t.state == Running ==> i == s.current)
    && (t.used && t.state == Blocked ==> 0 <= t.on < TABLE_MAX && t.op != Idle)
  }

  ghost predicate SchedInv(s: Sys) {
    && Shape(s) && NoRepeats(s.queue)
    && (forall x :: x in s.queue ==> 0 <= x < TABLE_MAX)
    && forall i :: 0 <= i < TABLE_MAX ==> TaskOk(s, i)
  }

  lemma FreshSched(s: Sys)
    requires Fresh(s)
    ensures SchedInv(s)
  {
  }

  /** One entry changes and may join the ring at its end. */
  lemma Push(s: Sys, t: Sys, i: int)
    requires SchedInv(s) && Shape(t) && 0 <= i < TABLE_MAX && i !in s.queue
    requires t.queue == s.queue + [i]
    requires forall j :: 0 <= j < TABLE_MAX && j != i ==> t.tasks[j] == s.tasks[j]
    requires t.tasks[i].used && (t.tasks[i].state == Ready || t.tasks[i].state == Gone)
    requires (t.current == s.current && s.current != i) || (t.current == NONE && s.current == i)
    ensures SchedInv(t)
  {
    forall j | 0 <= j < TABLE_MAX ensures TaskOk(t, j) {
      assert TaskOk(s, j);
    }
  }

  lemma WakeSched(s: Sys, k: int)
    requires SchedInv(s)
    ensures SchedInv(Wake(s, k))
  {
    hide SchedInv;
    ShapeOf(s);
    WakeShape(s, k);
    var w := Waiter(s.tasks, k, 0);
    if w != NONE {
      WaiterOut(s, w, k);
      Push(s, Wake(s, k), w);
    }
  }

  lemma WaiterOut(s: Sys, w: int, k: int)
    requires SchedInv(s) && 0 <= w < TABLE_MAX && Waits(s.tasks[w], k)
    ensures w !in s.queue && w != s.current
  {
    assert TaskOk(s, w);
  }

  lemma FinishSched(s: Sys)
    requires SchedInv(s)
    ensures SchedInv(Finish(s))
  {
    var t := Finish(s);
    forall j | 0 <= j < TABLE_MAX ensures TaskOk(t, j) {
      assert TaskOk(s, j);
    }
  }

  lemma BlockSched(s: Sys, k: int, op: Op)
    requires SchedInv(s) && s.current >= 0 && 0 <= k < TABLE_MAX && op != Idle
    ensures SchedInv(Block(s, k, op))
  {
    var t := Block(s, k, op);
    forall j | 0 <= j < TABLE_MAX ensures TaskOk(t, j) {
      assert TaskOk(s, j);
    }
  }

  /** Only ports and histories differ. */
  lemma SameTasks(s: Sys, t: Sys)
    requires SchedInv(s) && Sized(t) && t.tasks == s.tasks && t.queue == s.queue && t.current == s.current
    ensures SchedInv(t)
  {
    forall j | 0 <= j < TABLE_MAX ensures TaskOk(t, j) {
      assert TaskOk(s, j);
    }
  }

  function Staged(s: Sys, k: int, msg: Msg): Sys
    requires Sized(s) && 0 <= k < TABLE_MAX
  {
    s.(ports := s.ports[k := s.ports[k].(staged := msg, occupied := true)], sent := s.sent[k := s.sent[k] + [msg]])
  }

  function Taken(s: Sys, k: int): Sys
    requires Sized(s) && 0 <= k < TABLE_MAX
  {
    s.(ports := s.ports[k := s.ports[k].(staged := EMPTY_MSG, occupied := false)],
       got := s.got[k := s.got[k] + [s.ports[k].staged]])
  }

  lemma StageSched(s: Sys, target: int, msg: Msg)
    requires SchedInv(s)
    ensures SchedInv(Stage(s, target, msg).0)
  {
    hide SchedInv, Wake, ResolvePort;
    assert Shape(s) by { ShapeOf(s); }
    var k := ResolvePort(s.ports, target);
    if k < 0 {
      FinishSched(s);
    } else if s.ports[k].occupied {
      if s.current >= 0 { BlockSched(s, k, Sending(target, msg)); }
    } else {
      SameTasks(s, Staged(s, k, msg));
      FinishSched(Staged(s, k, msg));
      WakeSched(Finish(Staged(s, k, msg)), k);
    }
  }

  lemma ShapeOf(s: Sys)
    requires SchedInv(s)
    ensures Shape(s)
  {
  }

  lemma ConsumeSched(s: Sys, from: int)
    requires SchedInv(s)
    ensures SchedInv(Consume(s, from).0)
  {
    hide SchedInv, Wake, ResolvePort;
    assert Shape(s) by { ShapeOf(s); }
    var k := ResolvePort(s.ports, from);
    if k < 0 {
      FinishSched(s);
    } else if !s.ports[k].occupied {
      if s.current >= 0 { BlockSched(s, k, Receiving(from)); }
    } else {
      SameTasks(s, Taken(s, k));
      FinishSched(Taken(s, k));
      WakeSched(Finish(Taken(s, k)), k);
    }
  }

  /** Nothing is dropped from a ring that does not hold the entry. */
  lemma {:induction false} WithoutAbsent(q: seq<int>, i: int)
    requires i !in q
    ensures Without(q, i) == q
    decreases |q|
  {
    if q != [] {
      WithoutAbsent(q[1..], i);
      assert q == [q[0]] + q[1..];
    }
  }

  lemma ExitSched(s: Sys)
    requires SchedInv(s) && s.current >= 0
    ensures SchedInv(Exit(s)) && Exit(s).queue == s.queue
  {
    assert TaskOk(s, s.current);
    WithoutAbsent(s.queue, s.current);
    var t := Exit(s);
    forall j | 0 <= j < TABLE_MAX ensures TaskOk(t, j) {
      assert TaskOk(s, j);
    }
  }

  lemma PopQueue(q: seq<int>)
    requires NoRepeats(q) && q != []
    ensures NoRepeats(q[1..]) && q[0] !in q[1..]
    ensures forall x :: x in q <==> x == q[0] || x in q[1..]
  {
    assert q == [q[0]] + q[1..];
  }

  lemma DispatchSched(s: Sys, sound: bool)
    requires SchedInv(s) && s.current < 0 && s.queue != [] && 0 <= s.queue[0] < TABLE_MAX
    ensures SchedInv(Dispatch(s, sound)) && Dispatch(s, sound).queue == s.queue[1..]
  {
    hide NoRepeats, Without;
    var i, rest := s.queue[0], s.queue[1..];
    PopQueue(s.queue);
    assert TaskOk(s, i);
    WithoutAbsent(rest, i);
    var t := Dispatch(s, sound);
    forall j | 0 <= j < TABLE_MAX ensures TaskOk(t, j) {
      assert TaskOk(s, j);
    }
  }

  lemma YieldSched(s: Sys)
    requires SchedInv(s) && s.current >= 0
    ensures SchedInv(Yield(s))
  {
    assert TaskOk(s, s.current);
    Push(s, Yield(s), s.current);
  }

  lemma RegisterSched(s: Sys, i: int, on: int)
    requires SchedInv(s) && 0 <= i < TABLE_MAX && !s.tasks[i].used
    ensures SchedInv(Register(s, i, on))
  {
    assert TaskOk(s, i);
    Push(s, Register(s, i, on), i);
  }

  lemma DestroySched(s: Sys, i: int)
    requires SchedInv(s) && 0 <= i < TABLE_MAX && s.tasks[i].used
    ensures SchedInv(Destroy(s, i))
  {
    var t := Destroy(s, i);
    forall j | 0 <= j < TABLE_MAX ensures TaskOk(t, j) {
      assert TaskOk(s, j);
    }
  }

  lemma StepSched(s: Sys, a: Action)
    requires SchedInv(s) && Enabled(s, a)
    ensures SchedInv(Step(s, a))
  {
    hide SchedInv, Stage, Consume, ResolvePort, Yield, Exit, Dispatch, Register, Destroy;
    assert Shape(s) by { ShapeOf(s); }
    match a
    case ASend(sender, target, msg, _, _) => StageSched(s, target, msg.(sender := sender));
    case ARecv(_, from, _, _) => ConsumeSched(s, from);
    case ARetry =>
      match s.tasks[s.current].op {
        case Idle =>
        case Sending(target, msg) => StageSched(s, target, msg);
        case Receiving(from) => ConsumeSched(s, from);
      }
    case AYield => YieldSched(s);
    case AExit => ExitSched(s);
    case ADispatch(sound) => DispatchSched(s, sound);
    case ARegister(i, on) => RegisterSched(s, i, on);
    case ADestroy(i) => DestroySched(s, i);
    case AOpen(k, owner, sendCap, recvCap) => SameTasks(s, OpenPort(s, k, owner, sendCap, recvCap));
    case AClose(k) => SameTasks(s, ClosePort(s, k));
  }

  /** In every state of every run the ring holds each ready entry once and nothing
      else, and at most one process runs. */
  lemma {:induction false} RunSched(states: seq<Sys>, actions: seq<Action>, n: nat)
    requires Run(states, actions) && n < |states|
    ensures SchedInv(states[n])
  {
    hide SchedInv, Step, Enabled, Shape;
    if n == 0 {
      FreshSched(states[0]);
    } else {
      RunSched(states, actions, n - 1);
      StepSched(states[n - 1], actions[n - 1]);
    }
  }

  /** A ring without repeats fits the table, with room to spare for an entry not in it. */
  lemma RingFits(s: Sys, i: int)
    requires SchedInv(s) && 0 <= i < TABLE_MAX && i !in s.queue
    ensures |s.queue| < TABLE_MAX
  {
    Pigeonhole(s.queue + [i], TABLE_MAX);
  }

  lemma {:induction false} Pigeonhole(q: seq<int>, n: nat)
    requires NoRepeats(q) && forall x :: x in q ==> 0 <= x < n
    ensures |q| <= n
  {
    if q != [] {
      assert q[0] in q;
      if n - 1 in q {
        var p :| 0 <= p < |q| && q[p] == n - 1;
        var r := q[..p] + q[p + 1..];
        forall x | x in r ensures 0 <= x < n - 1 {
          var j :| 0 <= j < |r| && r[j] == x;
          var k := if j < p then j else j + 1;
          assert x == q[k] && q[k] in q && q[k] != q[p];
        }
        Pigeonhole(r, n - 1);
      } else {
        Pigeonhole(q, n - 1);
      }
    }
  }

  // ---- how the run ends ----

  datatype RunResult = AllExited | Deadlock

  /** Registered, not destroyed, and not exited. */
  predicate Unfinished(t: Task) {
    t.used && t.state != Exited && t.state != Gone
  }

  /** proc_sched_run's answer when the ring is empty. */
  function Outcome(s: Sys): RunResult {
    if exists i :: 0 <= i < |s.tasks| && Unfinished(s.tasks[i]) then Deadlock else AllExited
  }

  /** The scheduler stops with OK exactly when everything registered has exited or was
      destroyed, and with DEADLOCK only when everything that has not is blocked. */
  lemma OutcomeMeans(s: Sys)
    requires SchedInv(s) && s.queue == [] && s.current == NONE
    ensures Outcome(s) == AllExited <==> forall i :: 0 <= i < TABLE_MAX && s.tasks[i].used ==> s.tasks[i].state == Exited || s.tasks[i].state == Gone
    ensures Outcome(s) == Deadlock ==> forall i :: 0 <= i < TABLE_MAX && Unfinished(s.tasks[i]) ==> s.tasks[i].state == Blocked
  {
    forall i | 0 <= i < TABLE_MAX && Unfinished(s.tasks[i]) ensures s.tasks[i].state == Blocked {
      assert TaskOk(s, i);
    }
  }

  /** The ring is a queue: a step takes its head, adds one entry at its end, or leaves it alone. */
  lemma QueueStep(s: Sys, a: Action)
    requires SchedInv(s) && Enabled(s, a)
    ensures var t := Step(s, a);
            || t.queue == s.queue
            || (a.ADispatch? && t.queue == s.queue[1..] && (t.current == s.queue[0] || t.tasks[s.queue[0]].state in {Exited, Gone}))
            || exists i :: t.queue == s.queue + [i]
  {
    hide Waiter, ResolvePort;
    match a
    case ADispatch(sound) => DispatchSched(s, sound);
    case AExit => ExitSched(s);
    case ARegister(i, _) => assert Step(s, a).queue == s.queue + [i];
    case AYield => assert Step(s, a).queue == s.queue + [s.current];
    case _ =>
  }

  // ---- no envelope is lost, repeated, reordered or malformed ----

  function InSlot(p: Port): seq<Msg> {
    if p.occupied then [p.staged] else []
  }

  /** What was received from the port, then what is in its slot, is what was sent to it. */
  ghost predicate FlowOk(s: Sys, k: int)
    requires Sized(s) && 0 <= k < TABLE_MAX
  {
    && (s.ports[k].live ==> s.got[k] + InSlot(s.ports[k]) == s.sent[k])
    && (s.ports[k].occupied ==> s.ports[k].live && WellFormed(s.ports[k].staged))
  }

  ghost predicate OpOk(t: Task) {
    t.op.Sending? ==> WellFormed(t.op.msg)
  }

  ghost predicate FlowInv(s: Sys) {
    && Shape(s)
    && (forall k :: 0 <= k < TABLE_MAX ==> FlowOk(s, k))
    && (forall i :: 0 <= i < TABLE_MAX && s.tasks[i].used ==> OpOk(s.tasks[i]))
  }

  ghost predicate FreshFlow(s: Sys) {
    Fresh(s) && forall k :: 0 <= k < TABLE_MAX ==> !s.ports[k].occupied
  }

  lemma FlowStart(s: Sys)
    requires FreshFlow(s)
    ensures FlowInv(s)
  {
  }

  lemma WakeFlow(s: Sys, k: int)
    requires FlowInv(s)
    ensures FlowInv(Wake(s, k))
  {
    WakeShape(s, k);
    var t := Wake(s, k);
    forall j | 0 <= j < TABLE_MAX ensures FlowOk(t, j) {
      assert FlowOk(s, j);
    }
  }

  lemma FinishFlow(s: Sys)
    requires FlowInv(s)
    ensures FlowInv(Finish(s))
  {
    var t := Finish(s);
    forall j | 0 <= j < TABLE_MAX ensures FlowOk(t, j) {
      assert FlowOk(s, j);
    }
  }

  lemma StagedFlow(s: Sys, k: int, msg: Msg)
    requires FlowInv(s) && 0 <= k < TABLE_MAX && s.ports[k].live && !s.ports[k].occupied && WellFormed(msg)
    ensures FlowInv(Staged(s, k, msg))
  {
    var t := Staged(s, k, msg);
    forall j | 0 <= j < TABLE_MAX ensures FlowOk(t, j) {
      assert FlowOk(s, j);
    }
  }

  lemma TakenFlow(s: Sys, k: int)
    requires FlowInv(s) && 0 <= k < TABLE_MAX && s.ports[k].occupied
    ensures FlowInv(Taken(s, k)) && WellFormed(s.ports[k].staged)
  {
    assert FlowOk(s, k);
    var t := Taken(s, k);
    forall j | 0 <= j < TABLE_MAX ensures FlowOk(t, j) {
      assert FlowOk(s, j);
    }
  }

  lemma StageFlow(s: Sys, target: int, msg: Msg)
    requires FlowInv(s) && WellFormed(msg)
    ensures FlowInv(Stage(s, target, msg).0)
  {
    hide FlowOk, Wake, ResolvePort, WellFormed;
    var k := ResolvePort(s.ports, target);
    if k < 0 {
      FinishFlow(s);
    } else if s.ports[k].occupied {
      if s.current >= 0 { SamePorts(s, Block(s, k, Sending(target, msg))); }
    } else {
      StagedFlow(s, k, msg);
      FinishFlow(Staged(s, k, msg));
      WakeFlow(Finish(Staged(s, k, msg)), k);
    }
  }

  lemma SamePorts(s: Sys, t: Sys)
    requires FlowInv(s) && Shape(t) && t.ports == s.ports && t.sent == s.sent && t.got == s.got
    requires forall i :: 0 <= i < TABLE_MAX && t.tasks[i].used ==> OpOk(t.tasks[i])
    ensures FlowInv(t)
  {
    forall j | 0 <= j < TABLE_MAX ensures FlowOk(t, j) {
      assert FlowOk(s, j);
    }
  }

  /** A receive never rejects an envelope it has taken out of the slot. */
  lemma ConsumeFlow(s: Sys, from: int)
    requires FlowInv(s)
    ensures FlowInv(Consume(s, from).0) && Consume(s, from).1 != InvalidMsg
  {
    hide FlowOk, Wake, ResolvePort, WellFormed;
    var k := ResolvePort(s.ports, from);
    if k < 0 {
      FinishFlow(s);
    } else if !s.ports[k].occupied {
      if s.current >= 0 { SamePorts(s, Block(s, k, Receiving(from))); }
    } else {
      TakenFlow(s, k);
      FinishFlow(Taken(s, k));
      WakeFlow(Finish(Taken(s, k)), k);
    }
  }

  lemma OpenFlow(s: Sys, k: int, owner: int, sendCap: int, recvCap: int)
    requires FlowInv(s) && 0 <= k < TABLE_MAX && !s.ports[k].live
    ensures FlowInv(OpenPort(s, k, owner, sendCap, recvCap))
  {
    var t := OpenPort(s, k, owner, sendCap, recvCap);
    forall j | 0 <= j < TABLE_MAX ensures FlowOk(t, j) {
      assert FlowOk(s, j);
    }
  }

  lemma CloseFlow(s: Sys, k: int)
    requires FlowInv(s) && 0 <= k < TABLE_MAX
    ensures FlowInv(ClosePort(s, k))
  {
    var t := ClosePort(s, k);
    forall j | 0 <= j < TABLE_MAX ensures FlowOk(t, j) {
      assert FlowOk(s, j);
    }
  }

  lemma StepFlow(s: Sys, a: Action)
    requires FlowInv(s) && Enabled(s, a)
    ensures FlowInv(Step(s, a))
  {
    hide FlowOk, Stage, Consume, ResolvePort, Without;
    match a
    case ASend(sender, target, msg, _, _) =>
      if ValidOut(msg) && sender != 0 { StageFlow(s, target, msg.(sender := sender)); }
    case ARecv(_, from, _, _) => ConsumeFlow(s, from);
    case ARetry =>
      assert OpOk(s.tasks[s.current]);
      match s.tasks[s.current].op {
        case Idle =>
        case Sending(target, msg) => StageFlow(s, target, msg);
        case Receiving(from) => ConsumeFlow(s, from);
      }
    case AOpen(k, owner, sendCap, recvCap) => OpenFlow(s, k, owner, sendCap, recvCap);
    case AClose(k) => CloseFlow(s, k);
    case AYield => SamePorts(s, Yield(s));
    case AExit => SamePorts(s, Exit(s));
    case ADispatch(sound) => SamePorts(s, Dispatch(s, sound));
    case ARegister(i, on) => SamePorts(s, Register(s, i, on));
    case ADestroy(i) => SamePorts(s, Destroy(s, i));
  }

  /** Over every interleaving, for each live port: received, then staged, is sent. */
  lemma {:induction false} RunFlow(states: seq<Sys>, actions: seq<Action>, n: nat)
    requires Run(states, actions) && FreshFlow(states[0]) && n < |states|
    ensures FlowInv(states[n])
  {
    hide FlowInv, Step, Enabled, Shape;
    if n == 0 {
      FlowStart(states[0]);
    } else {
      RunFlow(states, actions, n - 1);
      StepFlow(states[n - 1], actions[n - 1]);
    }
  }

  /** What a send adds to the history is its own envelope under the authenticated
      sender, now or, if it is suspended, when its retry succeeds. */
  lemma SendAdds(s: Sys, sender: int, target: int, msg: Msg, allowed: bool, inside: bool)
    requires Shape(s)
    ensures var (t, r) := Send(s, sender, target, msg, allowed, inside); var k := ResolvePort(s.ports, target);
            && (r == Done ==> k >= 0 && sender != 0 && t.sent == s.sent[k := s.sent[k] + [msg.(sender := sender)]])
            && (r == Suspended ==> s.current >= 0 && t.sent == s.sent && t.tasks[s.current].op == Sending(target, msg.(sender := sender)))
            && (r != Done ==> t.sent == s.sent)
  {
    hide Waiter;
  }

  lemma RetryAdds(s: Sys)
    requires Shape(s) && s.current >= 0 && s.tasks[s.current].op.Sending?
    ensures var (t, r) := Retry(s); var op := s.tasks[s.current].op; var k := ResolvePort(s.ports, op.target);
            && (r == Done ==> k >= 0 && t.sent == s.sent[k := s.sent[k] + [op.msg]])
            && (r != Done ==> t.sent == s.sent) && (r == Suspended ==> t.tasks[s.current].op == op)
  {
    hide Waiter;
  }

  /** A suspended operation stays as it is until its own process retries it. */
  lemma OpKept(s: Sys, a: Action, i: int)
    requires Shape(s) && Enabled(s, a) && 0 <= i < TABLE_MAX && i != s.current && s.tasks[i].used
    ensures Step(s, a).tasks[i].op == s.tasks[i].op && Step(s, a).tasks[i].used
  {
    hide Waiter, ResolvePort, Without;
  }

  /** What one turn of a send answers: the handle, the slot and whether a process runs decide. */
  lemma StageAnswers(s: Sys, target: int, msg: Msg)
    requires Shape(s)
    ensures var k, r := ResolvePort(s.ports, target), Stage(s, target, msg).1;
            && (r == InvalidPort <==> k < 0) && (r == Done <==> k >= 0 && !s.ports[k].occupied)
            && (r == Suspended <==> k >= 0 && s.ports[k].occupied && s.current >= 0)
            && (r == PeerGone <==> k >= 0 && s.ports[k].occupied && s.current < 0)
  {
    hide Wake, ResolvePort;
  }

  /** What one turn of a receive answers. */
  lemma ConsumeAnswers(s: Sys, from: int)
    requires Shape(s)
    ensures var k, r := ResolvePort(s.ports, from), Consume(s, from).1;
            && (r == InvalidPort <==> k < 0)
            && (r == Suspended <==> k >= 0 && !s.ports[k].occupied && s.current >= 0)
            && (r == PeerGone <==> k >= 0 && !s.ports[k].occupied && s.current < 0)
            && (r == Done || r == InvalidMsg <==> k >= 0 && s.ports[k].occupied)
  {
    hide Wake, ResolvePort;
  }
}
