/** Wake-ups: none is lost with one sending and one receiving process per port; with
    two senders one can be. */
module IpcWake {
  import opened Handles
  import opened IpcModel
  import opened IpcRuns

  /** Which entry sends to each port and which receives from it. */
  datatype Roles = Roles(sender: seq<int>, receiver: seq<int>)

  ghost predicate RolesOk(r: Roles) {
    |r.sender| == |r.receiver| == TABLE_MAX
  }

  /** The running process calls a port only in its own role, and no port is closed. */
  ghost predicate Disciplined(s: Sys, a: Action, r: Roles)
    requires RolesOk(r)
  {
    match a
    case ASend(_, target, _, _, _) =>
      var k := ResolvePort(s.ports, target); s.current >= 0 && k >= 0 ==> r.sender[k] == s.current
    case ARecv(_, from, _, _) =>
      var k := ResolvePort(s.ports, from); s.current >= 0 && k >= 0 ==> r.receiver[k] == s.current
    case AClose(_) => false
    case _ => true
  }

  /** A suspended call is on a live port and in the caller's role. */
  ghost predicate OpRole(ports: seq<Port>, t: Task, i: int, r: Roles)
    requires RolesOk(r)
  {
    match t.op
    case Idle => true
    case Sending(target, _) => var k := ResolvePort(ports, target); k >= 0 && r.sender[k] == i
    case Receiving(from) => var k := ResolvePort(ports, from); k >= 0 && r.receiver[k] == i
  }

  /** A blocked sender faces a full slot and a blocked receiver an empty one. */
  ghost predicate WaitOk(ports: seq<Port>, t: Task) {
    t.state == Blocked ==>
      match t.op
      case Idle => false
      case Sending(target, _) => var k := ResolvePort(ports, target); k >= 0 && t.on == k && ports[k].occupied
      case Receiving(from) => var k := ResolvePort(ports, from); k >= 0 && t.on == k && !ports[k].occupied
  }

  ghost predicate WakeInv(s: Sys, r: Roles) {
    && RolesOk(r) && Shape(s)
    && forall i :: 0 <= i < TABLE_MAX && s.tasks[i].used ==> OpRole(s.ports, s.tasks[i], i, r) && WaitOk(s.ports, s.tasks[i])
  }

  lemma SameResolve(p: seq<Port>, q: seq<Port>, h: int)
    requires |p| == |q| && forall k :: 0 <= k < |p| ==> p[k].live == q[k].live && p[k].gen == q[k].gen
    ensures ResolvePort(p, h) == ResolvePort(q, h)
  {
    assert PortSlots(p) == PortSlots(q);
  }

  /** Filling or emptying slot k and waking its only waiter settles every wait. */
  lemma Rendezvous(s: Sys, t: Sys, k: int, r: Roles)
    requires SchedInv(s) && WakeInv(s, r) && Shape(t) && 0 <= k < TABLE_MAX
    requires t.ports == s.ports[k := t.ports[k]] && t.ports[k].live == s.ports[k].live && t.ports[k].gen == s.ports[k].gen
    requires t.ports[k].occupied != s.ports[k].occupied && t.tasks == Finish(s).tasks
    ensures WakeInv(Wake(t, k), r)
  {
    var u := Wake(t, k);
    WakeShape(t, k);
    var w := Waiter(t.tasks, k, 0);
    forall i | 0 <= i < TABLE_MAX && u.tasks[i].used
      ensures OpRole(u.ports, u.tasks[i], i, r) && WaitOk(u.ports, u.tasks[i])
    {
      assert TaskOk(s, i) && s.tasks[i].used;
      assert OpRole(s.ports, s.tasks[i], i, r) && WaitOk(s.ports, s.tasks[i]);
      RoleKept(s.ports, t.ports, s.tasks[i], u.tasks[i], i, r);
      if u.tasks[i].state == Blocked {
        assert u.tasks[i] == s.tasks[i];
        if u.tasks[i].on == k {
          OneWaiter(s, t, k, w, i, r);
        }
        WaitKept(s.ports, t.ports, s.tasks[i], k);
      }
    }
  }

  lemma RoleKept(p: seq<Port>, q: seq<Port>, t: Task, u: Task, i: int, r: Roles)
    requires RolesOk(r) && |p| == |q| && forall k :: 0 <= k < |p| ==> p[k].live == q[k].live && p[k].gen == q[k].gen
    requires OpRole(p, t, i, r) && (u.op == t.op || u.op == Idle)
    ensures OpRole(q, u, i, r)
  {
    if u.op.Sending? { SameResolve(p, q, u.op.target); }
    if u.op.Receiving? { SameResolve(p, q, u.op.from); }
  }

  lemma WaitKept(p: seq<Port>, q: seq<Port>, t: Task, k: int)
    requires 0 <= k < |p| == |q| && forall j :: 0 <= j < |p| ==> p[j].live == q[j].live && p[j].gen == q[j].gen
    requires WaitOk(p, t) && t.state == Blocked && t.on != k && forall j :: 0 <= j < |p| && j != k ==> p[j] == q[j]
    ensures WaitOk(q, t)
  {
    if t.op.Sending? { SameResolve(p, q, t.op.target); }
    if t.op.Receiving? { SameResolve(p, q, t.op.from); }
  }

  /** Everything blocked on a port is in the same role there, so it is one process. */
  lemma OneWaiter(s: Sys, t: Sys, k: int, w: int, i: int, r: Roles)
    requires SchedInv(s) && WakeInv(s, r) && Shape(t) && t.tasks == Finish(s).tasks && w == Waiter(t.tasks, k, 0)
    requires 0 <= i < TABLE_MAX && 0 <= k < TABLE_MAX && s.tasks[i].used && s.tasks[i].state == Blocked && s.tasks[i].on == k
    ensures w == i
  {
    assert TaskOk(s, i);
    assert Waits(t.tasks[i], k);
    assert TaskOk(s, w);
    assert s.tasks[w].used && s.tasks[w].state == Blocked && s.tasks[w].on == k;
    assert OpRole(s.ports, s.tasks[w], w, r) && WaitOk(s.ports, s.tasks[w]);
    assert OpRole(s.ports, s.tasks[i], i, r) && WaitOk(s.ports, s.tasks[i]);
  }

  lemma StageWake(s: Sys, target: int, msg: Msg, r: Roles)
    requires SchedInv(s) && WakeInv(s, r)
    requires s.current >= 0 && ResolvePort(s.ports, target) >= 0 ==> r.sender[ResolvePort(s.ports, target)] == s.current
    ensures WakeInv(Stage(s, target, msg).0, r)
  {
    hide Wake, ResolvePort, SchedInv;
    var k := ResolvePort(s.ports, target);
    if k >= 0 && !s.ports[k].occupied {
      Rendezvous(s, Finish(Staged(s, k, msg)), k, r);
    } else {
      CurrentRuns(s);
      ShapeOnly(s, Stage(s, target, msg).0, r);
    }
  }

  lemma CurrentRuns(s: Sys)
    requires SchedInv(s)
    ensures s.current >= 0 ==> s.tasks[s.current].state != Blocked
  {
    if s.current >= 0 { assert TaskOk(s, s.current); }
  }

  lemma ConsumeWake(s: Sys, from: int, r: Roles)
    requires SchedInv(s) && WakeInv(s, r)
    requires s.current >= 0 && ResolvePort(s.ports, from) >= 0 ==> r.receiver[ResolvePort(s.ports, from)] == s.current
    ensures WakeInv(Consume(s, from).0, r)
  {
    hide Wake, ResolvePort, SchedInv;
    var k := ResolvePort(s.ports, from);
    if k >= 0 && s.ports[k].occupied {
      Rendezvous(s, Finish(Taken(s, k)), k, r);
    } else {
      CurrentRuns(s);
      ShapeOnly(s, Consume(s, from).0, r);
    }
  }

  /** Ports are as before, and every task is as before or meets the conditions itself. */
  lemma ShapeOnly(s: Sys, t: Sys, r: Roles)
    requires WakeInv(s, r) && Shape(t) && t.ports == s.ports
    requires forall i :: 0 <= i < TABLE_MAX && t.tasks[i].used && t.tasks[i] != s.tasks[i] ==>
               OpRole(t.ports, t.tasks[i], i, r) && WaitOk(t.ports, t.tasks[i])
    ensures WakeInv(t, r)
  {
  }

  lemma OpenWake(s: Sys, k: int, owner: int, sendCap: int, recvCap: int, r: Roles)
    requires WakeInv(s, r) && 0 <= k < TABLE_MAX && !s.ports[k].live
    ensures WakeInv(OpenPort(s, k, owner, sendCap, recvCap), r)
  {
    var t := OpenPort(s, k, owner, sendCap, recvCap);
    forall i | 0 <= i < TABLE_MAX && t.tasks[i].used
      ensures OpRole(t.ports, t.tasks[i], i, r) && WaitOk(t.ports, t.tasks[i])
    {
      assert OpRole(s.ports, s.tasks[i], i, r) && WaitOk(s.ports, s.tasks[i]);
      match s.tasks[i].op
      case Idle =>
      case Sending(h, _) => StillResolves(s.ports, t.ports, h, k);
      case Receiving(h) => StillResolves(s.ports, t.ports, h, k);
    }
  }

  lemma StillResolves(p: seq<Port>, q: seq<Port>, h: int, k: int)
    requires |p| == |q| && ResolvePort(p, h) >= 0 && ResolvePort(p, h) != k && forall j :: 0 <= j < |p| && j != k ==> p[j] == q[j]
    ensures ResolvePort(q, h) == ResolvePort(p, h)
  {
  }

  lemma StepWake(s: Sys, a: Action, r: Roles)
    requires SchedInv(s) && WakeInv(s, r) && Enabled(s, a) && Disciplined(s, a, r)
    ensures WakeInv(Step(s, a), r)
  {
    hide Stage, Consume, ResolvePort, Without, OpRole, WaitOk, SchedInv;
    match a
    case ASend(sender, target, msg, _, _) => StageWake(s, target, msg.(sender := sender), r);
    case ARecv(_, from, _, _) => ConsumeWake(s, from, r);
    case ARetry => RetryWake(s, r);
    case AOpen(k, owner, sendCap, recvCap) => OpenWake(s, k, owner, sendCap, recvCap, r);
    case AYield => ReadyWake(s, Yield(s), s.current, r);
    case AExit => ReadyWake(s, Exit(s), s.current, r);
    case ADispatch(sound) => ReadyWake(s, Dispatch(s, sound), s.queue[0], r);
    case ARegister(i, on) => RegisterWake(s, i, on, r);
    case ADestroy(i) => ReadyWake(s, Destroy(s, i), i, r);
    case _ =>
  }

  lemma RegisterWake(s: Sys, i: int, on: int, r: Roles)
    requires WakeInv(s, r) && 0 <= i < TABLE_MAX
    ensures WakeInv(Register(s, i, on), r)
  {
    ShapeOnly(s, Register(s, i, on), r);
  }

  lemma RetryWake(s: Sys, r: Roles)
    requires SchedInv(s) && WakeInv(s, r) && s.current >= 0
    ensures WakeInv(Retry(s).0, r)
  {
    hide Stage, Consume, ResolvePort;
    assert OpRole(s.ports, s.tasks[s.current], s.current, r);
    match s.tasks[s.current].op
    case Idle =>
    case Sending(target, msg) => StageWake(s, target, msg, r);
    case Receiving(from) => ConsumeWake(s, from, r);
  }

  /** One entry changes to a state other than blocked, inside the same call. */
  lemma ReadyWake(s: Sys, t: Sys, i: int, r: Roles)
    requires WakeInv(s, r) && Shape(t) && t.ports == s.ports && 0 <= i < TABLE_MAX && s.tasks[i].used
    requires forall j :: 0 <= j < TABLE_MAX && j != i ==> t.tasks[j] == s.tasks[j]
    requires t.tasks[i] == s.tasks[i] || (t.tasks[i].op == s.tasks[i].op && t.tasks[i].state != Blocked)
    ensures WakeInv(t, r)
  {
    assert OpRole(s.ports, s.tasks[i], i, r) && WaitOk(s.ports, s.tasks[i]);
    ShapeOnly(s, t, r);
  }

  lemma FreshWake(s: Sys, r: Roles)
    requires Fresh(s) && RolesOk(r)
    ensures WakeInv(s, r)
  {
  }

  /** With one sending and one receiving process per port and no port closed, in every
      state of every run a blocked receiver faces an empty slot and a blocked sender a full one. */
  lemma {:induction false} RunWake(states: seq<Sys>, actions: seq<Action>, r: Roles, n: nat)
    requires Run(states, actions) && RolesOk(r) && n < |states|
    requires forall i :: 0 <= i < |actions| ==> Disciplined(states[i], actions[i], r)
    ensures WakeInv(states[n], r)
  {
    hide SchedInv, WakeInv, Step, Enabled, Shape, Disciplined;
    if n == 0 {
      FreshWake(states[0], r);
    } else {
      RunWake(states, actions, r, n - 1);
      RunSched(states, actions, n - 1);
      StepWake(states[n - 1], actions[n - 1], r);
    }
  }

  /** So the two partners of a port are never both blocked on it. */
  lemma NeverBothBlocked(s: Sys, r: Roles, i: int, j: int, k: int)
    requires WakeInv(s, r) && 0 <= i < TABLE_MAX && 0 <= j < TABLE_MAX
    requires Waits(s.tasks[i], k) && Waits(s.tasks[j], k)
    ensures i == j
  {
    assert OpRole(s.ports, s.tasks[i], i, r) && WaitOk(s.ports, s.tasks[i]);
    assert OpRole(s.ports, s.tasks[j], j, r) && WaitOk(s.ports, s.tasks[j]);
  }
}
