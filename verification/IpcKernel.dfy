/** The kernel's tables as they are updated in place: the process table, the scheduler's
    entries and ready ring, and the port table. Every method is proved to make exactly
    the step of the model that its name says. */
module IpcKernel {
  import opened Handles
  import opened IpcModel
  import opened IpcRuns

  datatype Pcb = Pcb(live: bool, gen: int, subject: int, state: State, exitCode: int, on: int)

  datatype Entry = Entry(used: bool, pid: int)

  function ProcSlots(procs: seq<Pcb>): (r: seq<Slot>)
    ensures |r| == |procs| && forall i :: 0 <= i < |r| ==> r[i] == Slot(procs[i].live, procs[i].gen)
  {
    seq(|procs|, i requires 0 <= i < |procs| => Slot(procs[i].live, procs[i].gen))
  }

  function ResolvePid(procs: seq<Pcb>, pid: int): (p: int)
    ensures -1 <= p < |procs| && (p >= 0 ==> procs[p].live && procs[p].gen == GenOf(pid) && p == IndexOf(pid))
  {
    Resolve(ProcSlots(procs), pid)
  }

  /** No two entries are for the same process; a process may have been destroyed. */
  ghost predicate Linked(entries: seq<Entry>, procs: seq<Pcb>) {
    && |entries| == |procs| == TABLE_MAX
    && (forall i, j :: 0 <= i < j < |entries| && entries[i].used && entries[j].used ==> entries[i].pid != entries[j].pid)
    && (forall p :: 0 <= p < |procs| ==> procs[p].state != Gone)
  }

  ghost function TaskOf(e: Entry, procs: seq<Pcb>, op: Op): Task {
    if !e.used then Task(false, New, NONE, Idle)
    else if ResolvePid(procs, e.pid) < 0 then Task(true, Gone, NONE, op)
    else var p := procs[ResolvePid(procs, e.pid)]; Task(true, p.state, p.on, op)
  }

  ghost function TasksOf(entries: seq<Entry>, procs: seq<Pcb>, ops: seq<Op>): (r: seq<Task>)
    requires |entries| == |ops|
    ensures |r| == |entries| && forall i :: 0 <= i < |r| ==> r[i] == TaskOf(entries[i], procs, ops[i])
  {
    seq(|entries|, i requires 0 <= i < |entries| => TaskOf(entries[i], procs, ops[i]))
  }

  lemma SamePid(procs: seq<Pcb>, procs': seq<Pcb>, pid: int)
    requires |procs| == |procs'| && forall p :: 0 <= p < |procs| ==> procs[p].live == procs'[p].live && procs[p].gen == procs'[p].gen
    ensures ResolvePid(procs, pid) == ResolvePid(procs', pid)
  {
    assert ProcSlots(procs) == ProcSlots(procs');
  }

  /** Changing the process of one entry changes that task and no other. */
  lemma Marked(entries: seq<Entry>, procs: seq<Pcb>, ops: seq<Op>, i: int, b: Pcb, op: Op)
    requires Linked(entries, procs) && |ops| == TABLE_MAX && 0 <= i < TABLE_MAX && entries[i].used
    requires var p := ResolvePid(procs, entries[i].pid); p >= 0 && b.live && b.gen == procs[p].gen && b.state != Gone
    ensures var p := ResolvePid(procs, entries[i].pid); var procs' := procs[p := b];
            Linked(entries, procs')
            && TasksOf(entries, procs', ops[i := op]) == TasksOf(entries, procs, ops)[i := Task(true, b.state, b.on, op)]
  {
    var p := ResolvePid(procs, entries[i].pid);
    var procs' := procs[p := b];
    forall pid ensures ResolvePid(procs, pid) == ResolvePid(procs', pid) { SamePid(procs, procs', pid); }
    var before, after := TasksOf(entries, procs, ops)[i := Task(true, b.state, b.on, op)], TasksOf(entries, procs', ops[i := op]);
    forall j | 0 <= j < TABLE_MAX ensures after[j] == before[j] {
      if entries[j].used { SameSlot(procs, entries[j].pid, entries[i].pid); }
    }
  }

  // ---- the ready ring ----

  function RingSeq(ring: seq<int>, head: int, count: int): (q: seq<int>)
    requires |ring| == TABLE_MAX && 0 <= head < TABLE_MAX && 0 <= count <= TABLE_MAX
    ensures |q| == count && forall i :: 0 <= i < count ==> q[i] == ring[(head + i) % TABLE_MAX]
  {
    seq(count, i requires 0 <= i < count => ring[(head + i) % TABLE_MAX])
  }

  lemma {:induction false} WithoutAppend(q: seq<int>, x: int, i: int)
    ensures Without(q + [x], i) == Without(q, i) + Keep(x, i)
    decreases |q|
  {
    if q == [] {
      assert q + [x] == [x] && [x][1..] == [];
    } else {
      var h, t, l := Keep(q[0], i), Without(q[1..], i), Keep(x, i);
      assert (q + [x])[1..] == q[1..] + [x];
      WithoutAppend(q[1..], x, i);
      assert h + (t + l) == (h + t) + l;
    }
  }

  function Keep(x: int, i: int): seq<int> {
    if x == i then [] else [x]
  }

  class Kernel {
    var procs: seq<Pcb>
    var entries: seq<Entry>
    const ring: array<int>
    var head: int
    var count: int
    var current: int
    var ports: seq<Port>
    ghost var ops: seq<Op>
    ghost var sent: seq<seq<Msg>>
    ghost var got: seq<seq<Msg>>

    ghost predicate Valid()
      reads this, ring
    {
      && ring.Length == TABLE_MAX && 0 <= head < TABLE_MAX && 0 <= count <= TABLE_MAX
      && |ports| == |ops| == |sent| == |got| == |entries| == |procs| == TABLE_MAX
      && Ok(PortSlots(ports)) && Ok(ProcSlots(procs)) && Linked(entries, procs)
    }

    function Queue(): seq<int>
      requires ring.Length == TABLE_MAX && 0 <= head < TABLE_MAX && 0 <= count <= TABLE_MAX
      reads this, ring
    {
      RingSeq(ring[..], head, count)
    }

    ghost function View(): Sys
      requires Valid()
      reads this, ring
    {
      Sys(TasksOf(entries, procs, ops), Queue(), current, ports, sent, got)
    }

    /** The tables after their first initialisation and a reset of the scheduler. */
    constructor ()
      ensures Valid() && FreshFlow(View()) && fresh(ring)
      ensures forall k :: 0 <= k < TABLE_MAX ==> View().sent[k] == [] && View().got[k] == []
    {
      procs := seq(TABLE_MAX, _ => Pcb(false, 1, 0, New, 0, NONE));
      entries := seq(TABLE_MAX, _ => Entry(false, 0));
      ports := seq(TABLE_MAX, _ => Port(false, false, 1, 0, 0, 0, EMPTY_MSG));
      ring := new int[TABLE_MAX];
      head, count, current := 0, 0, NONE;
      ops, sent, got := seq(TABLE_MAX, _ => Idle), seq(TABLE_MAX, _ => []), seq(TABLE_MAX, _ => []);
    }

    method ReadyPush(i: int)
      requires Valid() && count < TABLE_MAX
      modifies ring, `count
      ensures Valid() && Queue() == old(Queue()) + [i]
    {
      hide Linked, Ok;
      ghost var q := Queue();
      var tail := (head + count) % TABLE_MAX;
      ring[tail] := i;
      count := count + 1;
      forall j | 0 <= j < count ensures Queue()[j] == (q + [i])[j] {
        if j < count - 1 { assert (head + j) % TABLE_MAX != tail; }
      }
    }

    method ReadyPop() returns (i: int)
      requires Valid()
      modifies `head, `count
      ensures Valid()
      ensures old(count) == 0 ==> i == NONE && Queue() == old(Queue())
      ensures old(count) > 0 ==> i == old(Queue())[0] && Queue() == old(Queue())[1..]
    {
      hide Linked, Ok;
      if count == 0 { return NONE; }
      ghost var q := Queue();
      i := ring[head];
      head := (head + 1) % TABLE_MAX;
      count := count - 1;
      assert q[0] == ring[(old(head) + 0) % TABLE_MAX];
      forall j | 0 <= j < count ensures Queue()[j] == q[1..][j] {
        assert q[1..][j] == q[j + 1];
      }
    }

    /** The entries of the ring other than i, in order. */
    method Others(i: int) returns (tmp: array<int>, kept: int)
      requires Valid()
      ensures fresh(tmp) && 0 <= kept <= count && tmp.Length == TABLE_MAX && tmp[..kept] == Without(Queue(), i)
    {
      hide Linked, Ok, Without;
      ghost var q := Queue();
      kept := 0;
      tmp := new int[TABLE_MAX];
      var n := 0;
      NoneKept(q, i);
      while n < count
        modifies tmp
        invariant 0 <= n <= count && 0 <= kept <= n && tmp[..kept] == Without(q[..n], i)
      {
        var v := ring[(head + n) % TABLE_MAX];
        assert v == q[n] && q[..n + 1] == q[..n] + [q[n]];
        WithoutAppend(q[..n], q[n], i);
        if v != i {
          tmp[kept] := v;
          kept := kept + 1;
        }
        n := n + 1;
      }
      assert q[..count] == q;
    }

    method ReadyDrop(i: int)
      requires Valid()
      modifies ring, `head, `count
      ensures Valid() && Queue() == Without(old(Queue()), i)
    {
      hide Linked, Ok, Without;
      var tmp, kept := Others(i);
      var n := 0;
      while n < kept
        modifies ring
        invariant 0 <= n <= kept && forall j :: 0 <= j < n ==> ring[j] == tmp[j]
      {
        ring[n] := tmp[n];
        n := n + 1;
      }
      head := 0;
      count := kept;
      assert Queue() == tmp[..kept];
    }

    // ---- process state, as the scheduler sets it ----

    /** Sets the state and the awaited port of the process behind entry i, if it is there. */
    method Mark(i: int, st: State, on: int, ghost op: Op)
      requires Valid() && 0 <= i < TABLE_MAX && entries[i].used && st != Gone
      modifies `procs, `ops
      ensures Valid() && View() == old(View()).(tasks := old(View()).tasks[i := Moved(old(View()).tasks[i], st, on).(op := op)])
    {
      hide Linked, RingSeq;
      var p := EntrySlot(i);
      if p < 0 {
        ops := ops[i := op];
        return;
      }
      StateThere(entries, procs, p);
      var b := procs[p].(state := st, on := on);
      Marked(entries, procs, ops, i, b, op);
      procs := procs[p := b];
      ops := ops[i := op];
    }

    method EntrySlot(i: int) returns (p: int)
      requires Valid() && 0 <= i < TABLE_MAX && entries[i].used
      ensures p == ResolvePid(procs, entries[i].pid) && -1 <= p < |procs|
      ensures View().tasks[i] == if p < 0 then Task(true, Gone, NONE, ops[i]) else Task(true, procs[p].state, procs[p].on, ops[i])
      ensures p >= 0 ==> procs[p].live && procs[p].state != Gone
    {
      p := ResolvePid(procs, entries[i].pid);
    }

    /** Wakes the lowest entry blocked on the port, if there is one. */
    method WakeOne(port: int)
      requires Valid() && SchedInv(View())
      modifies this, ring
      ensures Valid() && View() == Wake(old(View()), port)
    {
      hide Linked, RingSeq, SchedInv;
      ghost var s := View();
      var i := 0;
      while i < TABLE_MAX
        invariant 0 <= i <= TABLE_MAX && Valid() && View() == s
        invariant Waiter(s.tasks, port, 0) == Waiter(s.tasks, port, i)
      {
        if entries[i].used {
          var p := EntrySlot(i);
          if p >= 0 && procs[p].state == Blocked && procs[p].on == port {
            Room(s, i);
            WaiterOut(s, i, port);
            Mark(i, Ready, NONE, ops[i]);
            ReadyPush(i);
            return;
          }
        } else {
          UnusedTask(i);
        }
        i := i + 1;
      }
    }

    lemma UnusedTask(i: int)
      requires Valid() && 0 <= i < TABLE_MAX && !entries[i].used
      ensures !View().tasks[i].used
    {
    }

    /** Suspends the running process on the port, inside the given call. */
    method BlockCurrent(port: int, ghost op: Op)
      requires Valid() && SchedInv(View()) && 0 <= current
      modifies this
      ensures Valid() && View() == Block(old(View()), port, op)
    {
      hide Linked, RingSeq;
      CurrentUsed();
      Mark(current, Blocked, port, op);
      current := NONE;
    }

    lemma CurrentUsed()
      requires Valid() && SchedInv(View()) && 0 <= current
      ensures current < TABLE_MAX && entries[current].used && current !in Queue() && count < TABLE_MAX
      ensures View().tasks[current].used && View().tasks[current].state in {Running, Gone}
    {
      hide Linked, RingSeq;
      var s := View();
      assert TaskOk(s, current);
      RingFits(s, current);
    }

    method Yield()
      requires Valid() && SchedInv(View()) && 0 <= current
      modifies this, ring
      ensures Valid() && View() == IpcModel.Yield(old(View()))
    {
      hide Linked, RingSeq, SchedInv;
      CurrentUsed();
      var p := EntrySlot(current);
      Mark(current, Ready, if p < 0 then NONE else procs[p].on, ops[current]);
      ReadyPush(current);
      current := NONE;
    }

    method Exit(code: int)
      requires Valid() && SchedInv(View()) && 0 <= current
      modifies this, ring
      ensures Valid() && View() == IpcModel.Exit(old(View()))
    {
      hide Linked, RingSeq, SchedInv, Without;
      CurrentUsed();
      var p := EntrySlot(current);
      Mark(current, Exited, if p < 0 then NONE else procs[p].on, ops[current]);
      SetExitCode(current, code);
      ReadyDrop(current);
      current := NONE;
    }

    method SetExitCode(i: int, code: int)
      requires Valid() && 0 <= i < TABLE_MAX && entries[i].used
      modifies `procs
      ensures Valid() && View() == old(View())
    {
      hide Linked, RingSeq;
      var p := EntrySlot(i);
      if p < 0 { return; }
      var b := procs[p].(exitCode := code);
      Marked(entries, procs, ops, i, b, ops[i]);
      assert ops[i := ops[i]] == ops;
      assert View().tasks[i := View().tasks[i]] == View().tasks;
      procs := procs[p := b];
    }

    /** Registers a live process that has no entry yet; the first free entry is taken. */
    method Register(pid: int) returns (ok: bool, i: int)
      requires Valid() && SchedInv(View())
      modifies this, ring
      ensures Valid()
      ensures !ok ==> View() == old(View())
      ensures ok ==> 0 <= i < TABLE_MAX && !old(View()).tasks[i].used && exists on :: View() == IpcModel.Register(old(View()), i, on)
      ensures ok <==> old(ResolvePid(procs, pid)) >= 0 && old(forall j :: 0 <= j < TABLE_MAX && entries[j].used ==> entries[j].pid != pid)
                      && old(exists j :: 0 <= j < TABLE_MAX && !entries[j].used)
    {
      hide Linked, RingSeq, SchedInv;
      ok, i := false, 0;
      var p := ResolvePid(procs, pid);
      if p < 0 { return; }
      var j := 0;
      while j < TABLE_MAX
        invariant 0 <= j <= TABLE_MAX && forall m :: 0 <= m < j && entries[m].used ==> entries[m].pid != pid
      {
        if entries[j].used && entries[j].pid == pid { return; }
        j := j + 1;
      }
      while i < TABLE_MAX && entries[i].used
        invariant 0 <= i <= TABLE_MAX && forall m :: 0 <= m < i ==> entries[m].used
      {
        i := i + 1;
      }
      if i == TABLE_MAX { return; }
      ok := true;
      ghost var s := View();
      UnusedTask(i);
      FreeRoom(s, i);
      Enter(entries, procs, ops, i, pid);
      entries := entries[i := Entry(true, pid)];
      ops := ops[i := Idle];
      procs := procs[p := procs[p].(state := Ready)];
      ReadyPush(i);
      assert View() == IpcModel.Register(s, i, procs[p].on);
    }

    /** One turn of the dispatch loop. */
    method DispatchOne(sound: bool) returns (idle: bool)
      requires Valid() && SchedInv(View()) && current == NONE
      modifies this, ring
      ensures Valid() && idle == (old(count) == 0)
      ensures idle ==> View() == old(View())
      ensures !idle ==> var s := old(View()); s.queue != [] && 0 <= s.queue[0] < TABLE_MAX && View() == Dispatch(s, sound)
    {
      hide Linked, RingSeq, SchedInv, Without;
      ghost var s := View();
      if count > 0 { HeadUsed(s); }
      var i := ReadyPop();
      idle := i < 0;
      if idle { return; }
      TaskUsed(i);
      var p := EntrySlot(i);
      if p < 0 || procs[p].state == Exited { return; }
      if !sound {
        SetExitCode(i, 0xffff_ffff);
        p := EntrySlot(i);
        Mark(i, Exited, if p < 0 then NONE else procs[p].on, ops[i]);
        ReadyDrop(i);
        current := NONE;
      } else {
        current := i;
        Mark(i, Running, procs[p].on, ops[i]);
      }
    }

    lemma TaskUsed(i: int)
      requires Valid() && 0 <= i < TABLE_MAX && View().tasks[i].used
      ensures entries[i].used
    {
    }

    /** What the dispatch loop answers when the ring is empty. */
    method Drained() returns (r: RunResult)
      requires Valid()
      ensures r == Outcome(View())
    {
      hide Linked, RingSeq;
      r := AllExited;
      var i := 0;
      while i < TABLE_MAX
        invariant 0 <= i <= TABLE_MAX
        invariant r == Deadlock ==> Outcome(View()) == Deadlock
        invariant r == AllExited ==> forall j :: 0 <= j < i ==> !Unfinished(View().tasks[j])
      {
        if entries[i].used {
          var p := EntrySlot(i);
          if p >= 0 && procs[p].state != Exited { r := Deadlock; }
        } else {
          UnusedTask(i);
        }
        i := i + 1;
      }
    }

    // ---- one turn of the two retry loops ----

    method StageTurn(target: int, msg: Msg) returns (r: Result)
      requires Valid() && SchedInv(View())
      modifies this, ring
      ensures Valid() && (View(), r) == Stage(old(View()), target, msg)
    {
      hide Linked, RingSeq, SchedInv, Wake;
      ghost var s := View();
      ShapeOf(s);
      var k := ResolvePort(ports, target);
      if k < 0 {
        LeaveCall();
        return InvalidPort;
      }
      if ports[k].occupied {
        if current < 0 { return PeerGone; }
        BlockCurrent(k, Sending(target, msg));
        return Suspended;
      }
      FillSlot(k, msg);
      SameTasks(s, Staged(s, k, msg));
      LeaveCall();
      FinishSched(Staged(s, k, msg));
      WakeOne(k);
      return Done;
    }

    method FillSlot(k: int, msg: Msg)
      requires Valid() && 0 <= k < TABLE_MAX
      modifies `ports, `sent
      ensures Valid() && View() == Staged(old(View()), k, msg)
    {
      hide Linked, RingSeq;
      ports := ports[k := ports[k].(staged := msg, occupied := true)];
      sent := sent[k := sent[k] + [msg]];
    }

    method EmptySlot(k: int)
      requires Valid() && 0 <= k < TABLE_MAX
      modifies `ports, `got
      ensures Valid() && View() == Taken(old(View()), k)
    {
      hide Linked, RingSeq;
      got := got[k := got[k] + [ports[k].staged]];
      ports := ports[k := ports[k].(staged := EMPTY_MSG, occupied := false)];
    }

    ghost method LeaveCall()
      requires Valid() && SchedInv(View())
      modifies `ops
      ensures Valid() && View() == Finish(old(View()))
    {
      hide Linked, RingSeq;
      if current >= 0 {
        CurrentUsed();
        var p := ResolvePid(procs, entries[current].pid);
        if p >= 0 {
          StateThere(entries, procs, p);
          Marked(entries, procs, ops, current, procs[p], Idle);
          assert procs[p := procs[p]] == procs;
        }
        ops := ops[current := Idle];
      }
    }

    method ConsumeTurn(from: int) returns (r: Result, out: Msg)
      requires Valid() && SchedInv(View())
      modifies this, ring
      ensures Valid() && (View(), r) == Consume(old(View()), from)
      ensures r == Done ==> out == old(ports[ResolvePort(ports, from)].staged) && WellFormed(out)
    {
      hide Linked, RingSeq, SchedInv, Wake;
      ghost var s := View();
      ShapeOf(s);
      out := EMPTY_MSG;
      var k := ResolvePort(ports, from);
      if k < 0 {
        LeaveCall();
        return InvalidPort, out;
      }
      if !ports[k].occupied {
        if current < 0 { return PeerGone, out; }
        BlockCurrent(k, Receiving(from));
        return Suspended, out;
      }
      out := ports[k].staged;
      EmptySlot(k);
      SameTasks(s, Taken(s, k));
      LeaveCall();
      FinishSched(Taken(s, k));
      WakeOne(k);
      r := if WellFormed(out) then Done else InvalidMsg;
    }

    // ---- the calls ----

    method Send(sender: int, target: int, msg: Msg, allowed: bool, inside: bool) returns (r: Result)
      requires Valid() && SchedInv(View())
      modifies this, ring
      ensures Valid() && (View(), r) == IpcModel.Send(old(View()), sender, target, msg, allowed, inside)
      ensures r == Done || r == Suspended ==>
                old(ResolvePort(ports, target)) >= 0 && allowed && inside && sender != 0 && msg.abi == 0 && msg.flags == 0 && msg.len <= 64
    {
      hide Linked, RingSeq, SchedInv, Stage;
      ShapeOf(View());
      if !ValidOut(msg) { return InvalidMsg; }
      if ResolvePort(ports, target) < 0 { return InvalidPort; }
      if !allowed { return CapDenied; }
      if !inside { return Bounds; }
      if sender == 0 { return InvalidMsg; }
      r := StageTurn(target, msg.(sender := sender));
    }

    method Recv(receiver: int, from: int, allowed: bool, inside: bool) returns (r: Result, out: Msg)
      requires Valid() && SchedInv(View())
      modifies this, ring
      ensures Valid() && (View(), r) == IpcModel.Recv(old(View()), receiver, from, allowed, inside)
      ensures r == Done || r == Suspended ==>
                old(ResolvePort(ports, from)) >= 0 && old(ports[ResolvePort(ports, from)].owner) == receiver && allowed && inside
      ensures r == Done ==> out == old(ports[ResolvePort(ports, from)].staged) && out.sender != 0 && out.abi == 0 && out.flags == 0 && out.len <= 64
    {
      hide Linked, RingSeq, SchedInv, Consume;
      ShapeOf(View());
      out := EMPTY_MSG;
      var k := ResolvePort(ports, from);
      if k < 0 { return InvalidPort, out; }
      if ports[k].owner != receiver { return CapDenied, out; }
      if !allowed { return CapDenied, out; }
      if !inside { return Bounds, out; }
      r, out := ConsumeTurn(from);
    }

    // ---- processes come and go ----

    /** Takes the first free process slot. An entry left behind by a destroyed process is not
        affected, unless the slot's generation has come round to the one it was made for. */
    method CreateProcess(subject: int) returns (ok: bool, pid: int)
      requires Valid()
      modifies `procs
      ensures Valid()
      ensures !ok || (forall i :: 0 <= i < TABLE_MAX && entries[i].used ==> entries[i].pid != pid) ==> View() == old(View())
      ensures ok <==> old(exists p :: 0 <= p < TABLE_MAX && !procs[p].live)
      ensures ok ==> var p := ResolvePid(procs, pid);
                0 <= p && !old(procs)[p].live && procs[p].subject == subject
                && ProcSlots(procs) == old(ProcSlots(procs))[p := Apply(old(ProcSlots(procs))[p], Alloc)]
    {
      hide RingSeq;
      pid := 0;
      var i := 0;
      while i < TABLE_MAX && procs[i].live
        invariant 0 <= i <= TABLE_MAX && forall j :: 0 <= j < i ==> procs[j].live
      {
        i := i + 1;
      }
      ok := i < TABLE_MAX;
      if !ok { return; }
      ghost var was := procs;
      procs := procs[i := Pcb(true, procs[i].gen, subject, New, 0, NONE)];
      pid := Encode(i, procs[i].gen);
      ResolveEncode(ProcSlots(procs), i, pid);
      if forall j :: 0 <= j < TABLE_MAX && entries[j].used ==> entries[j].pid != pid { NewSlot(entries, was, procs, ops, i, pid); }
      assert ProcSlots(procs) == old(ProcSlots(procs))[i := Apply(old(ProcSlots(procs))[i], Alloc)];
    }

    /** Destroys a process. If it has an entry with the scheduler, that entry is left behind. */
    method DestroyProcess(pid: int) returns (ok: bool, ghost i: int)
      requires Valid()
      modifies `procs
      ensures Valid() && ok == (old(ResolvePid(procs, pid)) >= 0)
      ensures i == NONE || (0 <= i < TABLE_MAX && entries[i].used && entries[i].pid == pid)
      ensures i == NONE ==> forall j :: 0 <= j < TABLE_MAX && entries[j].used ==> entries[j].pid != pid
      ensures View() == if ok && i != NONE then Destroy(old(View()), i) else old(View())
      ensures ok && i != NONE ==> Shape(old(View())) ==> Enabled(old(View()), ADestroy(i))
      ensures ok ==> var p := old(ResolvePid(procs, pid));
                ProcSlots(procs) == old(ProcSlots(procs))[p := Apply(old(ProcSlots(procs))[p], Free)]
    {
      hide RingSeq;
      i := NONE;
      if j :| 0 <= j < TABLE_MAX && entries[j].used && entries[j].pid == pid { i := j; }
      var p := ResolvePid(procs, pid);
      ok := p >= 0;
      if !ok { return; }
      NextGenOk(procs[p].gen);
      var b := procs[p].(live := false, gen := NextGen(procs[p].gen), subject := 0);
      ghost var was := procs;
      procs := procs[p := b];
      FreedSlot(entries, was, procs, ops, p, pid, i);
      assert ProcSlots(procs) == old(ProcSlots(procs))[p := Apply(old(ProcSlots(procs))[p], Free)];
    }

    // ---- ports come and go ----

    /** Empties the port table; a slot that was in use gets a new generation. */
    method ResetPorts()
      requires Valid()
      modifies `ports
      ensures Valid()
      ensures forall k :: 0 <= k < TABLE_MAX ==> !ports[k].live && !ports[k].occupied
      ensures forall k :: 0 <= k < TABLE_MAX ==>
                PortSlots(ports)[k] == Apply(old(PortSlots(ports))[k], Reset(old(ports[k].live || ports[k].occupied)))
    {
      hide Linked, RingSeq;
      ghost var was := ports;
      var i := 0;
      while i < TABLE_MAX
        invariant 0 <= i <= TABLE_MAX && |ports| == TABLE_MAX && Ok(PortSlots(ports))
        invariant forall k :: 0 <= k < i ==> !ports[k].live && !ports[k].occupied
        invariant forall k :: 0 <= k < i ==>
                    ports[k].gen == if was[k].live || was[k].occupied then NextGen(was[k].gen) else was[k].gen
        invariant forall k :: i <= k < TABLE_MAX ==> ports[k] == was[k]
      {
        var g := if ports[i].live || ports[i].occupied then NextGen(ports[i].gen) else ports[i].gen;
        NextGenOk(ports[i].gen);
        ports := ports[i := Port(false, false, g, 0, 0, 0, EMPTY_MSG)];
        i := i + 1;
      }
    }

    /** Opens a port in the first free slot and returns its handle. */
    method CreatePort(owner: int, sendCap: int, recvCap: int, known: bool) returns (r: Result, h: int)
      requires Valid()
      modifies this
      ensures Valid() && (r == Done || View() == old(View()))
      ensures r == Done <==> known && old(exists k :: 0 <= k < TABLE_MAX && !ports[k].live)
      ensures r == Done ==> var k := ResolvePort(ports, h);
                0 <= k && !old(ports)[k].live && View() == OpenPort(old(View()), k, owner, sendCap, recvCap)
                && PortSlots(ports) == old(PortSlots(ports))[k := Apply(old(PortSlots(ports))[k], Alloc)]
    {
      hide Linked, RingSeq;
      h := 0;
      if !known { return InvalidMsg, h; }
      var i := 0;
      while i < TABLE_MAX && ports[i].live
        invariant 0 <= i <= TABLE_MAX && forall j :: 0 <= j < i ==> ports[j].live
      {
        i := i + 1;
      }
      if i == TABLE_MAX { return InvalidPort, h; }
      ports := ports[i := Port(true, false, ports[i].gen, owner, sendCap, recvCap, EMPTY_MSG)];
      sent, got := sent[i := []], got[i := []];
      h := Encode(i, ports[i].gen);
      ResolveEncode(PortSlots(ports), i, h);
      assert PortSlots(ports) == old(PortSlots(ports))[i := Apply(old(PortSlots(ports))[i], Alloc)];
      r := Done;
    }

    /** Closes the port; its handle is stale from then on. */
    method DestroyPort(h: int) returns (r: Result)
      requires Valid()
      modifies this
      ensures Valid() && r == (if old(ResolvePort(ports, h)) >= 0 then Done else InvalidPort)
      ensures r != Done ==> View() == old(View())
      ensures r == Done ==> var k := old(ResolvePort(ports, h));
                View() == ClosePort(old(View()), k)
                && PortSlots(ports) == old(PortSlots(ports))[k := Apply(old(PortSlots(ports))[k], Free)]
    {
      hide Linked, RingSeq;
      var k := ResolvePort(ports, h);
      if k < 0 { return InvalidPort; }
      NextGenOk(ports[k].gen);
      ports := ports[k := ports[k].(live := false, occupied := false, gen := NextGen(ports[k].gen), staged := EMPTY_MSG)];
      assert PortSlots(ports) == old(PortSlots(ports))[k := Apply(old(PortSlots(ports))[k], Free)];
      r := Done;
    }

  }

  /** A new process in a free slot changes no task, unless an entry already holds its pid. */
  lemma NewSlot(entries: seq<Entry>, procs: seq<Pcb>, procs': seq<Pcb>, ops: seq<Op>, p: int, pid: int)
    requires Linked(entries, procs) && |ops| == TABLE_MAX && 0 <= p < TABLE_MAX && !procs[p].live && |procs'| == TABLE_MAX
    requires procs' == procs[p := procs'[p]] && ResolvePid(procs', pid) == p
    requires forall i :: 0 <= i < TABLE_MAX && entries[i].used ==> entries[i].pid != pid
    ensures TasksOf(entries, procs', ops) == TasksOf(entries, procs, ops)
  {
    forall i | 0 <= i < TABLE_MAX && entries[i].used ensures TaskOf(entries[i], procs', ops[i]) == TaskOf(entries[i], procs, ops[i]) {
      SameSlot(procs', entries[i].pid, pid);
      OtherSlot(procs, procs', entries[i].pid, p);
    }
    var before, after := TasksOf(entries, procs, ops), TasksOf(entries, procs', ops);
    assert forall j :: 0 <= j < TABLE_MAX ==> after[j] == before[j];
  }

  /** Freeing a slot changes at most the task of the entry for that process. */
  lemma FreedSlot(entries: seq<Entry>, procs: seq<Pcb>, procs': seq<Pcb>, ops: seq<Op>, p: int, pid: int, i: int)
    requires Linked(entries, procs) && |ops| == TABLE_MAX && 0 <= p < TABLE_MAX && ResolvePid(procs, pid) == p && |procs'| == TABLE_MAX
    requires procs' == procs[p := procs'[p]] && !procs'[p].live
    requires if i == NONE then forall j :: 0 <= j < TABLE_MAX && entries[j].used ==> entries[j].pid != pid
             else 0 <= i < TABLE_MAX && entries[i].used && entries[i].pid == pid
    ensures var before, after := TasksOf(entries, procs, ops), TasksOf(entries, procs', ops);
            after == if i == NONE then before else before[i := before[i].(state := Gone, on := NONE)]
  {
    var before, after := TasksOf(entries, procs, ops), TasksOf(entries, procs', ops);
    forall j | 0 <= j < TABLE_MAX && j != i ensures after[j] == before[j] {
      if entries[j].used {
        SameSlot(procs, entries[j].pid, pid);
        OtherSlot(procs, procs', entries[j].pid, p);
      }
    }
  }

  lemma OtherSlot(procs: seq<Pcb>, procs': seq<Pcb>, pid: int, p: int)
    requires |procs| == |procs'| == TABLE_MAX && ResolvePid(procs, pid) != p && ResolvePid(procs', pid) != p
    requires forall q :: 0 <= q < TABLE_MAX && q != p ==> procs[q] == procs'[q]
    ensures ResolvePid(procs', pid) == ResolvePid(procs, pid)
  {
  }

  lemma HeadUsed(s: Sys)
    requires SchedInv(s) && s.queue != []
    ensures 0 <= s.queue[0] < TABLE_MAX && s.tasks[s.queue[0]].used
  {
    assert s.queue[0] in s.queue;
    assert TaskOk(s, s.queue[0]);
  }

  lemma StateThere(entries: seq<Entry>, procs: seq<Pcb>, p: int)
    requires Linked(entries, procs) && 0 <= p < TABLE_MAX
    ensures procs[p].state != Gone
  {
  }

  lemma NextGenOk(g: int)
    requires GenOk(g)
    ensures GenOk(NextGen(g))
  {
  }

  lemma Room(s: Sys, i: int)
    requires SchedInv(s) && 0 <= i < TABLE_MAX && s.tasks[i].used && s.tasks[i].state == Blocked
    ensures |s.queue| < TABLE_MAX
  {
    assert TaskOk(s, i);
    RingFits(s, i);
  }

  lemma FreeRoom(s: Sys, i: int)
    requires SchedInv(s) && 0 <= i < TABLE_MAX && !s.tasks[i].used
    ensures |s.queue| < TABLE_MAX
  {
    assert TaskOk(s, i);
    RingFits(s, i);
  }

  /** A new entry for a process that has none. */
  lemma Enter(entries: seq<Entry>, procs: seq<Pcb>, ops: seq<Op>, i: int, pid: int)
    requires Linked(entries, procs) && |ops| == TABLE_MAX && 0 <= i < TABLE_MAX && !entries[i].used
    requires ResolvePid(procs, pid) >= 0 && forall j :: 0 <= j < TABLE_MAX && entries[j].used ==> entries[j].pid != pid
    ensures var p := ResolvePid(procs, pid); var procs' := procs[p := procs[p].(state := Ready)];
            Linked(entries[i := Entry(true, pid)], procs')
            && TasksOf(entries[i := Entry(true, pid)], procs', ops[i := Idle])
               == TasksOf(entries, procs, ops)[i := Task(true, Ready, procs[p].on, Idle)]
  {
    var p := ResolvePid(procs, pid);
    var procs' := procs[p := procs[p].(state := Ready)];
    forall q ensures ResolvePid(procs, q) == ResolvePid(procs', q) { SamePid(procs, procs', q); }
    var entries' := entries[i := Entry(true, pid)];
    forall j | 0 <= j < TABLE_MAX && entries[j].used ensures ResolvePid(procs, entries[j].pid) != p {
      SameSlot(procs, entries[j].pid, pid);
    }
    var before, after := TasksOf(entries, procs, ops)[i := Task(true, Ready, procs[p].on, Idle)], TasksOf(entries', procs', ops[i := Idle]);
    assert forall j :: 0 <= j < TABLE_MAX ==> after[j] == before[j];
  }

  lemma SameSlot(procs: seq<Pcb>, a: int, b: int)
    ensures ResolvePid(procs, a) >= 0 && ResolvePid(procs, a) == ResolvePid(procs, b) ==> a == b
  {
  }

  lemma NoneKept(q: seq<int>, i: int)
    ensures Without(q[..0], i) == []
  {
  }
}
