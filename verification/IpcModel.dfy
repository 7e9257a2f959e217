/** Synchronous ports over the cooperative scheduler, as a step system. A coroutine
    that is suspended inside a send or a receive is represented by the operation it
    will retry when it is next dispatched. */
module IpcModel {
  import opened Bytes
  import opened Handles

  // ---- envelopes ----

  datatype Msg = Msg(abi: int, flags: int, sender: int, tag: int, len: int, payload: seq<Byte>)

  const ABI_VERSION := 0
  const PAYLOAD_MAX := 64

  /** What a sender's envelope must satisfy. */
  predicate ValidOut(m: Msg) {
    m.abi == ABI_VERSION && m.flags == 0 && m.len <= PAYLOAD_MAX
  }

  /** What a receiver demands of a delivered envelope. */
  predicate WellFormed(m: Msg) {
    m.sender != 0 && ValidOut(m)
  }

  datatype Port = Port(live: bool, occupied: bool, gen: int, owner: int, sendCap: int, recvCap: int, staged: Msg)

  function PortSlots(ports: seq<Port>): (r: seq<Slot>)
    ensures |r| == |ports| && forall i :: 0 <= i < |r| ==> r[i] == Slot(ports[i].live, ports[i].gen)
  {
    seq(|ports|, i requires 0 <= i < |ports| => Slot(ports[i].live, ports[i].gen))
  }

  /** The table index a port handle stands for, or -1. */
  function ResolvePort(ports: seq<Port>, h: int): (k: int)
    ensures -1 <= k < |ports| && k < TABLE_MAX && (k >= 0 ==> ports[k].live)
  {
    Resolve(PortSlots(ports), h)
  }

  // ---- tasks ----

  /** What the scheduler sees of a process; Gone is an entry whose process was destroyed. */
  datatype State = New | Ready | Running | Blocked | Exited | Gone

  /** Where a suspended coroutine stands. */
  datatype Op = Idle | Sending(target: int, msg: Msg) | Receiving(from: int)

  const NONE := -1

  /** One scheduler entry with its process: the port it is blocked on is a table index. */
  datatype Task = Task(used: bool, state: State, on: int, op: Op)

  datatype Result = Done | InvalidPort | InvalidMsg | CapDenied | Bounds | PeerGone | Suspended

  datatype Sys = Sys(tasks: seq<Task>, queue: seq<int>, current: int, ports: seq<Port>,
                     sent: seq<seq<Msg>>, got: seq<seq<Msg>>)

  ghost predicate Sized(s: Sys) {
    |s.tasks| == |s.ports| == |s.sent| == |s.got| == TABLE_MAX
  }

  ghost predicate CurrentOk(s: Sys) {
    s.current == NONE || (0 <= s.current < |s.tasks| && s.tasks[s.current].used)
  }

  // ---- block and wake ----

  predicate Waits(t: Task, port: int) {
    t.used && t.state == Blocked && t.on == port
  }

  /** The lowest entry from i on that is blocked on the port, or -1. */
  function Waiter(tasks: seq<Task>, port: int, i: nat): (w: int)
    requires i <= |tasks|
    ensures w == NONE || (i <= w < |tasks| && Waits(tasks[w], port))
    ensures forall j :: i <= j < |tasks| && (w == NONE || j < w) ==> !Waits(tasks[j], port)
    decreases |tasks| - i
  {
    if i == |tasks| then NONE
    else if Waits(tasks[i], port) then i
    else Waiter(tasks, port, i + 1)
  }

  function Wake(s: Sys, port: int): Sys {
    var w := Waiter(s.tasks, port, 0);
    if w == NONE then s
    else s.(tasks := s.tasks[w := s.tasks[w].(state := Ready, on := NONE)], queue := s.queue + [w])
  }

  /** A state is set for a process that is there, and nothing is for one that is gone. */
  function Moved(t: Task, state: State, on: int): Task {
    if t.state == Gone then t else t.(state := state, on := on)
  }

  function Block(s: Sys, port: int, op: Op): Sys
    requires 0 <= s.current < |s.tasks|
  {
    s.(tasks := s.tasks[s.current := Moved(s.tasks[s.current], Blocked, port).(op := op)], current := NONE)
  }

  /** The running coroutine leaves the retry loop. */
  function Finish(s: Sys): Sys {
    if 0 <= s.current < |s.tasks| then s.(tasks := s.tasks[s.current := s.tasks[s.current].(op := Idle)]) else s
  }

  // ---- one turn of the two retry loops ----

  /** Outside the scheduler a full slot is an error; under it the caller is suspended. */
  function Stage(s: Sys, target: int, msg: Msg): (Sys, Result)
    requires Sized(s) && CurrentOk(s)
  {
    var k := ResolvePort(s.ports, target);
    if k < 0 then (Finish(s), InvalidPort)
    else if s.ports[k].occupied then
      if s.current < 0 then (s, PeerGone) else (Block(s, k, Sending(target, msg)), Suspended)
    else
      var t := s.(ports := s.ports[k := s.ports[k].(staged := msg, occupied := true)],
                  sent := s.sent[k := s.sent[k] + [msg]]);
      (Wake(Finish(t), k), Done)
  }

  const EMPTY_MSG := Msg(0, 0, 0, 0, 0, [])

  function Consume(s: Sys, from: int): (Sys, Result)
    requires Sized(s) && CurrentOk(s)
  {
    var k := ResolvePort(s.ports, from);
    if k < 0 then (Finish(s), InvalidPort)
    else if !s.ports[k].occupied then
      if s.current < 0 then (s, PeerGone) else (Block(s, k, Receiving(from)), Suspended)
    else
      var m := s.ports[k].staged;
      var t := s.(ports := s.ports[k := s.ports[k].(staged := EMPTY_MSG, occupied := false)],
                  got := s.got[k := s.got[k] + [m]]);
      (Wake(Finish(t), k), if WellFormed(m) then Done else InvalidMsg)
  }

  // ---- the calls a process makes ----

  /** ipc_send: the checks in their order, then the first turn of the loop. The
      capability decision and the buffer bound are inputs. */
  function Send(s: Sys, sender: int, target: int, msg: Msg, allowed: bool, inside: bool): (Sys, Result)
    requires Sized(s) && CurrentOk(s)
  {
    if !ValidOut(msg) then (s, InvalidMsg)
    else if ResolvePort(s.ports, target) < 0 then (s, InvalidPort)
    else if !allowed then (s, CapDenied)
    else if !inside then (s, Bounds)
    else if sender == 0 then (s, InvalidMsg)
    else Stage(s, target, msg.(sender := sender))
  }

  /** ipc_send_h: the sender is the owner of the handle, and is looked at before the buffer. */
  function SendByHandle(s: Sys, owner: int, target: int, msg: Msg, allowed: bool, inside: bool): (Sys, Result)
    requires Sized(s) && CurrentOk(s)
  {
    if !ValidOut(msg) then (s, InvalidMsg)
    else if ResolvePort(s.ports, target) < 0 then (s, InvalidPort)
    else if !allowed then (s, CapDenied)
    else if owner == 0 then (s, InvalidMsg)
    else if !inside then (s, Bounds)
    else Stage(s, target, msg.(sender := owner))
  }

  /** Both sends make the same step; they name a refusal differently only when the sender
      is unknown and the buffer is out of bounds as well. */
  lemma SendsAgree(s: Sys, sender: int, target: int, msg: Msg, allowed: bool, inside: bool)
    requires Sized(s) && CurrentOk(s)
    ensures var a, b := Send(s, sender, target, msg, allowed, inside), SendByHandle(s, sender, target, msg, allowed, inside);
            a.0 == b.0 && (a.1 != b.1 ==> sender == 0 && !inside)
  {
    hide Stage, ResolvePort;
  }

  function Recv(s: Sys, receiver: int, from: int, allowed: bool, inside: bool): (Sys, Result)
    requires Sized(s) && CurrentOk(s)
  {
    var k := ResolvePort(s.ports, from);
    if k < 0 then (s, InvalidPort)
    else if s.ports[k].owner != receiver then (s, CapDenied)
    else if !allowed then (s, CapDenied)
    else if !inside then (s, Bounds)
    else Consume(s, from)
  }

  // ---- the scheduler ----

  /** Registering does not touch what the process table holds as the port waited for. */
  function Register(s: Sys, i: int, on: int): Sys
    requires 0 <= i < |s.tasks|
  {
    s.(tasks := s.tasks[i := Task(true, Ready, on, Idle)], queue := s.queue + [i])
  }

  function Yield(s: Sys): Sys
    requires 0 <= s.current < |s.tasks|
  {
    s.(tasks := s.tasks[s.current := Moved(s.tasks[s.current], Ready, s.tasks[s.current].on)], queue := s.queue + [s.current], current := NONE)
  }

  function Without(q: seq<int>, i: int): seq<int> {
    if q == [] then [] else (if q[0] == i then [] else [q[0]]) + Without(q[1..], i)
  }

  function Exit(s: Sys): Sys
    requires 0 <= s.current < |s.tasks|
  {
    s.(tasks := s.tasks[s.current := Moved(s.tasks[s.current], Exited, s.tasks[s.current].on)], queue := Without(s.queue, s.current), current := NONE)
  }

  /** One turn of the dispatch loop on a non-empty ring; `sound` says that the address
      space of the process passes its check. */
  function Dispatch(s: Sys, sound: bool): Sys
    requires s.queue != [] && 0 <= s.queue[0] < |s.tasks|
  {
    var i, rest := s.queue[0], s.queue[1..];
    if s.tasks[i].state == Exited || s.tasks[i].state == Gone then s.(queue := rest)
    else if !sound then s.(tasks := s.tasks[i := s.tasks[i].(state := Exited)], queue := Without(rest, i), current := NONE)
    else s.(tasks := s.tasks[i := s.tasks[i].(state := Running)], queue := rest, current := i)
  }

  /** The process of an entry is destroyed; the entry stays, and so does its place in the ring. */
  function Destroy(s: Sys, i: int): Sys
    requires 0 <= i < |s.tasks|
  {
    s.(tasks := s.tasks[i := s.tasks[i].(state := Gone, on := NONE)])
  }

  // ---- ports come and go ----

  function OpenPort(s: Sys, k: int, owner: int, sendCap: int, recvCap: int): Sys
    requires Sized(s) && 0 <= k < |s.ports|
  {
    s.(ports := s.ports[k := Port(true, false, s.ports[k].gen, owner, sendCap, recvCap, EMPTY_MSG)],
       sent := s.sent[k := []], got := s.got[k := []])
  }

  function ClosePort(s: Sys, k: int): Sys
    requires Sized(s) && 0 <= k < |s.ports|
  {
    s.(ports := s.ports[k := s.ports[k].(live := false, occupied := false, gen := NextGen(s.ports[k].gen), staged := EMPTY_MSG)])
  }

  // ---- runs ----

  datatype Action =
    | ASend(sender: int, target: int, msg: Msg, allowed: bool, inside: bool)
    | ARecv(receiver: int, from: int, allowed: bool, inside: bool)
    | ARetry
    | AYield
    | AExit
    | ADispatch(sound: bool)
    | ARegister(entry: int, on: int)
    | ADestroy(gone: int)
    | AOpen(slot: int, owner: int, sendCap: int, recvCap: int)
    | AClose(slot: int)

  ghost predicate IsIdle(s: Sys)
    requires CurrentOk(s)
  {
    s.current >= 0 ==> s.tasks[s.current].op == Idle
  }

  /** When an action can happen: a call is made by the running process when it is not
      inside another call, or by kernel code while nothing runs; a retry is what a
      process resumed inside a call does next. */
  ghost predicate Enabled(s: Sys, a: Action)
    requires Sized(s) && CurrentOk(s)
  {
    match a
    case ASend(_, _, _, _, _) => IsIdle(s)
    case ARecv(_, _, _, _) => IsIdle(s)
    case ARetry => s.current >= 0 && !s.tasks[s.current].op.Idle?
    case AYield => s.current >= 0 && IsIdle(s)
    case AExit => s.current >= 0 && IsIdle(s)
    case ADispatch(_) => s.current < 0 && s.queue != [] && 0 <= s.queue[0] < TABLE_MAX && s.tasks[s.queue[0]].used
    case ARegister(i, _) => 0 <= i < TABLE_MAX && !s.tasks[i].used
    case ADestroy(i) => 0 <= i < TABLE_MAX && s.tasks[i].used && s.tasks[i].state != Gone
    case AOpen(k, _, _, _) => 0 <= k < TABLE_MAX && !s.ports[k].live
    case AClose(k) => 0 <= k < TABLE_MAX && s.ports[k].live
  }

  function Retry(s: Sys): (Sys, Result)
    requires Sized(s) && CurrentOk(s) && s.current >= 0
  {
    match s.tasks[s.current].op
    case Idle => (s, Done)
    case Sending(target, msg) => Stage(s, target, msg)
    case Receiving(from) => Consume(s, from)
  }

  ghost function Step(s: Sys, a: Action): Sys
    requires Sized(s) && CurrentOk(s) && Enabled(s, a)
  {
    match a
    case ASend(sender, target, msg, allowed, inside) => Send(s, sender, target, msg, allowed, inside).0
    case ARecv(receiver, from, allowed, inside) => Recv(s, receiver, from, allowed, inside).0
    case ARetry => Retry(s).0
    case AYield => Yield(s)
    case AExit => Exit(s)
    case ADispatch(sound) => Dispatch(s, sound)
    case ARegister(i, on) => Register(s, i, on)
    case ADestroy(i) => Destroy(s, i)
    case AOpen(k, owner, sendCap, recvCap) => OpenPort(s, k, owner, sendCap, recvCap)
    case AClose(k) => ClosePort(s, k)
  }

  ghost predicate Shape(s: Sys) {
    Sized(s) && CurrentOk(s)
  }

  lemma WakeShape(s: Sys, k: int)
    requires Shape(s)
    ensures Shape(Wake(s, k)) && Wake(s, k).current == s.current && Wake(s, k).ports == s.ports
    ensures Wake(s, k).sent == s.sent && Wake(s, k).got == s.got
  {
  }

  lemma StageShape(s: Sys, target: int, msg: Msg)
    requires Shape(s)
    ensures Shape(Stage(s, target, msg).0)
  {
    hide Wake, ResolvePort;
    var k := ResolvePort(s.ports, target);
    if k >= 0 && !s.ports[k].occupied {
      var t := s.(ports := s.ports[k := s.ports[k].(staged := msg, occupied := true)], sent := s.sent[k := s.sent[k] + [msg]]);
      WakeShape(Finish(t), k);
    }
  }

  lemma ConsumeShape(s: Sys, from: int)
    requires Shape(s)
    ensures Shape(Consume(s, from).0)
  {
    hide Wake, ResolvePort;
    var k := ResolvePort(s.ports, from);
    if k >= 0 && s.ports[k].occupied {
      var m := s.ports[k].staged;
      var t := s.(ports := s.ports[k := s.ports[k].(staged := EMPTY_MSG, occupied := false)], got := s.got[k := s.got[k] + [m]]);
      WakeShape(Finish(t), k);
    }
  }

  lemma StepShape(s: Sys, a: Action)
    requires Shape(s) && Enabled(s, a)
    ensures Shape(Step(s, a))
  {
    hide Stage, Consume, ResolvePort;
    match a
    case ASend(sender, target, msg, _, _) => StageShape(s, target, msg.(sender := sender));
    case ARecv(_, from, _, _) => ConsumeShape(s, from);
    case ARetry =>
      match s.tasks[s.current].op {
        case Idle =>
        case Sending(target, msg) => StageShape(s, target, msg);
        case Receiving(from) => ConsumeShape(s, from);
      }
    case _ =>
  }

  /** The system before anything is registered. */
  ghost predicate Fresh(s: Sys) {
    && Sized(s) && s.current == NONE && s.queue == []
    && (forall i :: 0 <= i < TABLE_MAX ==> !s.tasks[i].used)
    && (forall k :: 0 <= k < TABLE_MAX ==> !s.ports[k].live)
  }

  /** A run: the states before each action and after the last. */
  ghost predicate Run(states: seq<Sys>, actions: seq<Action>) {
    && |states| == |actions| + 1 && Fresh(states[0])
    && forall i :: 0 <= i < |actions| ==>
         Shape(states[i]) && Enabled(states[i], actions[i]) && states[i + 1] == Step(states[i], actions[i])
  }
}
