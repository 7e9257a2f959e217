/** What goes wrong with two senders on one port: the wake-up after a send goes to the
    lowest entry blocked on the port, which can be the other sender. */
module IpcTwoSenders {
  import opened Handles
  import opened IpcModel
  import opened IpcRuns

  /** A send that fills the slot wakes a waiting receiver exactly when no entry before
      it is blocked on the same port. */
  lemma SendWakesIff(s: Sys, target: int, msg: Msg, j: int)
    requires SchedInv(s) && 0 <= j < TABLE_MAX
    requires var k := ResolvePort(s.ports, target); k >= 0 && !s.ports[k].occupied && Waits(s.tasks[j], k)
    ensures var k, t := ResolvePort(s.ports, target), Stage(s, target, msg).0;
            t.tasks[j].state == Ready <==> forall i :: 0 <= i < j ==> !Waits(s.tasks[i], k)
  {
    hide ResolvePort;
    var k := ResolvePort(s.ports, target);
    WaitersKept(s, Staged(s, k, msg), k);
    assert Waits(Finish(Staged(s, k, msg)).tasks[j], k);
  }

  /** And a receive that empties the slot wakes a waiting sender exactly when no entry
      before it is blocked on the same port. */
  lemma ConsumeWakesIff(s: Sys, from: int, j: int)
    requires SchedInv(s) && 0 <= j < TABLE_MAX
    requires var k := ResolvePort(s.ports, from); k >= 0 && s.ports[k].occupied && Waits(s.tasks[j], k)
    ensures var k, t := ResolvePort(s.ports, from), Consume(s, from).0;
            t.tasks[j].state == Ready <==> forall i :: 0 <= i < j ==> !Waits(s.tasks[i], k)
  {
    hide ResolvePort;
    var k := ResolvePort(s.ports, from);
    WaitersKept(s, Taken(s, k), k);
    assert Waits(Finish(Taken(s, k)).tasks[j], k);
  }

  lemma WaitersKept(s: Sys, t: Sys, k: int)
    requires SchedInv(s) && Shape(t) && t.tasks == s.tasks && t.current == s.current
    ensures forall i :: 0 <= i < TABLE_MAX ==> Waits(Finish(t).tasks[i], k) == Waits(s.tasks[i], k)
  {
    forall i | 0 <= i < TABLE_MAX ensures Waits(Finish(t).tasks[i], k) == Waits(s.tasks[i], k) { assert TaskOk(s, i); }
  }

  // ---- a run that ends in deadlock with an envelope in the slot ----

  /** Three entries, two of them senders to port 0 and the third its receiver. */
  datatype World = World(a: Task, b: Task, c: Task, queue: seq<int>, current: int, port: Port, sent: seq<Msg>, got: seq<Msg>)

  const LETTER := Msg(0, 0, 5, 0, 0, [])
  const HANDLE := 0x1_0000

  ghost function Sys3(s: Sys, w: World): Sys
    requires Sized(s)
  {
    Sys(s.tasks[0 := w.a][1 := w.b][2 := w.c], w.queue, w.current, s.ports[0 := w.port], s.sent[0 := w.sent], s.got[0 := w.got])
  }

  ghost predicate Base(s: Sys) {
    FreshFlow(s) && s.ports[0].gen == 1
  }

  function At(w: World, i: int): Task {
    if i == 0 then w.a else if i == 1 then w.b else w.c
  }

  function Put(w: World, i: int, t: Task): World {
    if i == 0 then w.(a := t) else if i == 1 then w.(b := t) else w.(c := t)
  }

  function Woken(w: World): World {
    var ready := (t: Task) => t.(state := Ready, on := NONE);
    if Waits(w.a, 0) then w.(a := ready(w.a), queue := w.queue + [0])
    else if Waits(w.b, 0) then w.(b := ready(w.b), queue := w.queue + [1])
    else if Waits(w.c, 0) then w.(c := ready(w.c), queue := w.queue + [2])
    else w
  }

  ghost predicate WorldOk(w: World) {
    && w.a.used && w.b.used && w.c.used && w.a.state != Gone && w.b.state != Gone && w.c.state != Gone && -1 <= w.current <= 2 && w.port.live && w.port.gen == 1
  }

  function Sent(w: World): World {
    if w.port.occupied then Put(w, w.current, At(w, w.current).(state := Blocked, on := 0, op := Sending(HANDLE, LETTER))).(current := NONE)
    else Woken(Put(w, w.current, At(w, w.current).(op := Idle)).(port := w.port.(occupied := true, staged := LETTER), sent := w.sent + [LETTER]))
  }

  function Got(w: World): World {
    if !w.port.occupied then Put(w, w.current, At(w, w.current).(state := Blocked, on := 0, op := Receiving(HANDLE))).(current := NONE)
    else Woken(Put(w, w.current, At(w, w.current).(op := Idle)).(port := w.port.(occupied := false, staged := EMPTY_MSG), got := w.got + [w.port.staged]))
  }

  lemma HandleIs(s: Sys, w: World)
    requires Sized(s) && WorldOk(w)
    ensures ResolvePort(Sys3(s, w).ports, HANDLE) == 0
  {
  }

  lemma WakeIs(s: Sys, w: World)
    requires Base(s) && WorldOk(w)
    ensures Wake(Sys3(s, w), 0) == Sys3(s, Woken(w))
  {
    var t := Sys3(s, w);
    var i := Waiter(t.tasks, 0, 0);
    assert forall j :: 2 < j < TABLE_MAX ==> !Waits(t.tasks[j], 0);
    assert t.tasks[0] == w.a && t.tasks[1] == w.b && t.tasks[2] == w.c;
    assert i == NONE || i == 0 || i == 1 || i == 2;
    assert Wake(t, 0).tasks == Sys3(s, Woken(w)).tasks;
  }

  lemma StageIs(s: Sys, w: World)
    requires Base(s) && WorldOk(w) && w.current >= 0
    ensures Shape(Sys3(s, w)) && Stage(Sys3(s, w), HANDLE, LETTER).0 == Sys3(s, Sent(w))
  {
    hide Wake, ResolvePort;
    HandleIs(s, w);
    if w.port.occupied {
      assert Block(Sys3(s, w), 0, Sending(HANDLE, LETTER)) == Sys3(s, Sent(w));
    } else {
      var v := Put(w, w.current, At(w, w.current).(op := Idle)).(port := w.port.(occupied := true, staged := LETTER), sent := w.sent + [LETTER]);
      assert Finish(Staged(Sys3(s, w), 0, LETTER)) == Sys3(s, v);
      WakeIs(s, v);
    }
  }

  lemma ConsumeIs(s: Sys, w: World)
    requires Base(s) && WorldOk(w) && w.current >= 0
    ensures Shape(Sys3(s, w)) && Consume(Sys3(s, w), HANDLE).0 == Sys3(s, Got(w))
  {
    hide Wake, ResolvePort;
    HandleIs(s, w);
    if !w.port.occupied {
      assert Block(Sys3(s, w), 0, Receiving(HANDLE)) == Sys3(s, Got(w));
    } else {
      var v := Put(w, w.current, At(w, w.current).(op := Idle)).(port := w.port.(occupied := false, staged := EMPTY_MSG), got := w.got + [w.port.staged]);
      assert Finish(Taken(Sys3(s, w), 0)) == Sys3(s, v);
      WakeIs(s, v);
    }
  }

  datatype Move = Dispatches | Sends | Receives | Retries

  function ActionOf(m: Move): Action {
    match m
    case Dispatches => ADispatch(true)
    case Sends => ASend(5, HANDLE, LETTER, true, true)
    case Receives => ARecv(9, HANDLE, true, true)
    case Retries => ARetry
  }

  predicate CanMove(w: World, m: Move) {
    match m
    case Dispatches => w.current == NONE && w.queue != [] && 0 <= w.queue[0] <= 2 && At(w, w.queue[0]).state == Ready
    case Sends => 0 <= w.current && At(w, w.current).op == Idle
    case Receives => 0 <= w.current && At(w, w.current).op == Idle && w.port.owner == 9
    case Retries => 0 <= w.current && (At(w, w.current).op == Sending(HANDLE, LETTER) || At(w, w.current).op == Receiving(HANDLE))
  }

  function Next(w: World, m: Move): World
    requires CanMove(w, m)
  {
    match m
    case Dispatches => Put(w, w.queue[0], At(w, w.queue[0]).(state := Running)).(queue := w.queue[1..], current := w.queue[0])
    case Sends => Sent(w)
    case Receives => Got(w)
    case Retries => if At(w, w.current).op.Sending? then Sent(w) else Got(w)
  }

  lemma DispatchIs(s: Sys, w: World)
    requires Base(s) && WorldOk(w) && CanMove(w, Dispatches)
    ensures Shape(Sys3(s, w)) && Dispatch(Sys3(s, w), true) == Sys3(s, Next(w, Dispatches)) && WorldOk(Next(w, Dispatches))
  {
  }

  lemma CallIs(s: Sys, w: World, m: Move)
    requires Base(s) && WorldOk(w) && CanMove(w, m) && m != Dispatches && Shape(Sys3(s, w))
    ensures Enabled(Sys3(s, w), ActionOf(m)) && Step(Sys3(s, w), ActionOf(m)) == Sys3(s, Next(w, m))
  {
    hide Stage, Consume, ResolvePort, Sent, Got, WorldOk;
    HandleIs(s, w);
    match m
    case Sends => StageIs(s, w);
    case Receives => ConsumeIs(s, w);
    case Retries => if At(w, w.current).op.Sending? { StageIs(s, w); } else { ConsumeIs(s, w); }
    case Dispatches =>
  }

  lemma WokenOk(w: World)
    requires WorldOk(w)
    ensures WorldOk(Woken(w))
  {
  }

  lemma SentOk(w: World)
    requires WorldOk(w) && w.current >= 0
    ensures WorldOk(Sent(w)) && WorldOk(Got(w))
  {
    hide Woken;
    var v := Put(w, w.current, At(w, w.current).(op := Idle));
    WokenOk(v.(port := w.port.(occupied := true, staged := LETTER), sent := w.sent + [LETTER]));
    WokenOk(v.(port := w.port.(occupied := false, staged := EMPTY_MSG), got := w.got + [w.port.staged]));
  }

  lemma MoveIs(s: Sys, w: World, m: Move)
    requires Base(s) && WorldOk(w) && CanMove(w, m)
    ensures Shape(Sys3(s, w)) && Enabled(Sys3(s, w), ActionOf(m)) && Step(Sys3(s, w), ActionOf(m)) == Sys3(s, Next(w, m))
    ensures WorldOk(Next(w, m))
  {
    hide Stage, Consume, ResolvePort, Dispatch, Sent, Got, Sys3, Base;
    if m == Dispatches {
      DispatchMove(s, w);
    } else {
      WorldShape(s, w);
      CallIs(s, w, m);
      SentOk(w);
    }
  }

  lemma WorldShape(s: Sys, w: World)
    requires Base(s) && WorldOk(w)
    ensures Shape(Sys3(s, w))
  {
  }

  lemma DispatchMove(s: Sys, w: World)
    requires Base(s) && WorldOk(w) && CanMove(w, Dispatches)
    ensures Shape(Sys3(s, w)) && Enabled(Sys3(s, w), ActionOf(Dispatches)) && WorldOk(Next(w, Dispatches))
    ensures Step(Sys3(s, w), ActionOf(Dispatches)) == Sys3(s, Next(w, Dispatches))
  {
    hide Dispatch;
    DispatchIs(s, w);
  }

  ghost predicate Reachable(s: Sys) {
    exists states, actions :: Run(states, actions) && states[|states| - 1] == s
  }

  lemma Extend(s: Sys, a: Action)
    requires Reachable(s) && Shape(s) && Enabled(s, a)
    ensures Reachable(Step(s, a))
  {
    hide Step, Enabled, Fresh;
    var states, actions :| Run(states, actions) && states[|states| - 1] == s;
    var t := Step(s, a);
    assert Run(states + [t], actions + [a]);
  }

  lemma Go(s: Sys, w: World, m: Move) returns (v: World)
    requires Base(s) && WorldOk(w) && CanMove(w, m) && Reachable(Sys3(s, w))
    ensures v == Next(w, m) && WorldOk(v) && Reachable(Sys3(s, v))
  {
    hide Reachable, Step, Enabled, Sys3, Next, CanMove;
    MoveIs(s, w, m);
    Extend(Sys3(s, w), ActionOf(m));
    v := Next(w, m);
  }

  function Start(): World {
    var t := Task(true, Ready, NONE, Idle);
    World(t, t, t, [0, 1, 2], NONE, Port(true, false, 1, 9, 0, 0, EMPTY_MSG), [], [])
  }

  lemma StartReachable(s: Sys)
    requires Base(s)
    ensures Reachable(Sys3(s, Start()))
  {
    hide Reachable;
    assert Reachable(s) by { Initial(s); }
    var s1 := Step4(s, AOpen(0, 9, 0, 0));
    var s2 := Step4(s1, ARegister(0, NONE));
    var s3 := Step4(s2, ARegister(1, NONE));
    var s4 := Step4(s3, ARegister(2, NONE));
    assert s4 == Sys3(s, Start());
  }

  lemma Initial(s: Sys)
    requires Base(s)
    ensures Reachable(s)
  {
    assert Run([s], []);
  }

  lemma Step4(s: Sys, a: Action) returns (t: Sys)
    requires Shape(s) && Reachable(s) && (a.AOpen? || a.ARegister?) && Enabled(s, a)
    ensures t == Step(s, a) && Reachable(t) && Shape(t)
  {
    hide Reachable;
    StepShape(s, a);
    Extend(s, a);
    t := Step(s, a);
  }

  lemma EndState(s: Sys, w: World) returns (t: Sys)
    requires Base(s) && Reachable(Sys3(s, w)) && w.queue == [] && w.current == NONE
    requires w.port.occupied && Waits(w.c, 0) && w.c.op == Receiving(HANDLE)
    ensures Reachable(t) && Sized(t) && t.queue == [] && t.current == NONE
    ensures t.ports[0].occupied && Waits(t.tasks[2], 0) && t.tasks[2].op == Receiving(HANDLE)
  {
    t := Sys3(s, w);
  }

  /** A reachable state in which nothing can run, an envelope is in the slot, and its
      receiver is blocked: the wake-up that the last send owed it went to a sender. */
  lemma LostWakeUp(s: Sys) returns (t: Sys)
    requires Base(s)
    ensures Reachable(t) && Sized(t) && t.queue == [] && t.current == NONE
    ensures t.ports[0].occupied && Waits(t.tasks[2], 0) && t.tasks[2].op == Receiving(HANDLE)
  {
    hide Reachable, Sys3;
    StartReachable(s);
    var w := Start();
    w := Go(s, w, Dispatches);
    w := Go(s, w, Sends);
    w := Go(s, w, Sends);
    w := Go(s, w, Dispatches);
    w := Go(s, w, Sends);
    w := Go(s, w, Dispatches);
    w := Go(s, w, Receives);
    w := Go(s, w, Receives);
    w := Go(s, w, Dispatches);
    w := Go(s, w, Retries);
    w := Go(s, w, Sends);
    w := Go(s, w, Dispatches);
    w := Go(s, w, Retries);
    t := EndState(s, w);
  }
}
