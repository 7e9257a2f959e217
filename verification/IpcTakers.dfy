/** Who gets an envelope: over every run, each envelope taken from a port was taken by a
    receive that the port's owner made, and the owner is the one the port was opened for. */
module IpcTakers {
  import opened Handles
  import opened IpcModel
  import opened IpcRuns

  /** A receive that passes every check: the handle names port k, whose owner makes the call. */
  ghost predicate PassesRecv(s: Sys, a: Action, k: int)
    requires |s.ports| == TABLE_MAX
  {
    a.ARecv? && a.allowed && a.inside && 0 <= k < TABLE_MAX && ResolvePort(s.ports, a.from) == k && s.ports[k].owner == a.receiver
  }

  /** A receive that does anything, or answers anything but a refusal, passed every check. */
  lemma RecvByOwner(s: Sys, receiver: int, from: int, allowed: bool, inside: bool)
    requires Shape(s)
    ensures var (t, r) := Recv(s, receiver, from, allowed, inside);
            if PassesRecv(s, ARecv(receiver, from, allowed, inside), ResolvePort(s.ports, from)) then (t, r) == Consume(s, from)
            else t == s && r in {InvalidPort, CapDenied, Bounds}
  {
    hide Consume;
  }

  /** A turn of a receive that is not suspended ends the call, so that it takes no second envelope. */
  lemma RecvLeaves(s: Sys, from: int)
    requires Shape(s) && s.current >= 0
    ensures var (t, r) := Consume(s, from); |t.tasks| == TABLE_MAX && (r != Suspended ==> t.tasks[s.current].op == Idle)
  {
    hide Waiter, ResolvePort;
  }

  ghost predicate InRecv(s: Sys, i: int, from: int)
    requires |s.tasks| == TABLE_MAX
  {
    0 <= i < TABLE_MAX && s.tasks[i].used && s.tasks[i].op == Receiving(from)
  }

  /** A process is inside a receive only by having made one that passed every check. */
  lemma EntersRecv(s: Sys, a: Action, i: int, from: int)
    requires Shape(s) && Enabled(s, a) && |Step(s, a).tasks| == TABLE_MAX && InRecv(Step(s, a), i, from)
    ensures InRecv(s, i, from) || (i == s.current && a.ARecv? && a.from == from && PassesRecv(s, a, ResolvePort(s.ports, from)))
  {
    hide Waiter, ResolvePort, Without;
  }

  /** An envelope leaves port k only by a receive that passed every check, or by a retry of a suspended one. */
  ghost predicate TakesNow(s: Sys, a: Action, k: int)
    requires Shape(s)
  {
    || PassesRecv(s, a, k)
    || (a == ARetry && s.current >= 0 && s.tasks[s.current].op.Receiving? && ResolvePort(s.ports, s.tasks[s.current].op.from) == k)
  }

  lemma GotGrows(s: Sys, a: Action, k: int)
    requires Shape(s) && Enabled(s, a) && 0 <= k < TABLE_MAX
    ensures var t := Step(s, a);
            && |t.got| == TABLE_MAX
            && if a.AOpen? && a.slot == k then t.got[k] == []
               else t.got[k] == s.got[k] || (TakesNow(s, a, k) && t.got[k] == s.got[k] + [s.ports[k].staged])
  {
    hide Waiter, ResolvePort, Without;
  }

  // ---- over a run ----

  /** Call m is a receive from port k through this handle that its owner makes in entry i. */
  ghost predicate Asked(states: seq<Sys>, actions: seq<Action>, m: int, i: int, from: int, k: int) {
    && 0 <= m < |actions| && m < |states| && Shape(states[m]) && states[m].current == i
    && PassesRecv(states[m], actions[m], k) && actions[m].from == from
  }

  /** Each process inside a receive is there by a call of the run that its port's owner made. */
  ghost predicate Begun(states: seq<Sys>, actions: seq<Action>, n: nat, i: int, from: int) {
    exists m: nat, k :: m < n && Asked(states, actions, m, i, from, k)
  }

  lemma {:induction false} RunBegun(states: seq<Sys>, actions: seq<Action>, n: nat, i: int, from: int)
    requires Run(states, actions) && n < |states| && |states[n].tasks| == TABLE_MAX && InRecv(states[n], i, from)
    ensures Begun(states, actions, n, i, from)
  {
    hide Step, Enabled;
    if n > 0 {
      var s, a := states[n - 1], actions[n - 1];
      StepShape(s, a);
      EntersRecv(s, a, i, from);
      if InRecv(s, i, from) {
        RunBegun(states, actions, n - 1, i, from);
      } else {
        assert Asked(states, actions, n - 1, i, from, ResolvePort(s.ports, from));
      }
    }
  }

  /** The numbers of the steps that took the envelopes of port k since it was opened. */
  ghost function TakenAt(states: seq<Sys>, actions: seq<Action>, n: nat, k: int): seq<int>
    requires Run(states, actions) && n < |states| && 0 <= k < TABLE_MAX
  {
    if n == 0 then []
    else
      var a, was := actions[n - 1], TakenAt(states, actions, n - 1, k);
      if a.AOpen? && a.slot == k then []
      else if Sized(states[n]) && |states[n].got[k]| > |was| then was + [n - 1]
      else was
  }

  /** Step t took the envelope from port k: it is a receive of the port's owner, or resumes one. */
  ghost predicate Took(states: seq<Sys>, actions: seq<Action>, t: int, k: int, msg: Msg) {
    && 0 <= t < |actions| && t < |states| && Shape(states[t]) && 0 <= k < TABLE_MAX
    && states[t].ports[k].staged == msg
    && exists m: nat, from ::
         && m <= t && Asked(states, actions, m, states[t].current, from, k) && ResolvePort(states[t].ports, from) == k
         && (m == t || (actions[t] == ARetry && InRecv(states[t], states[t].current, from)))
  }

  lemma SameSlot(ports: seq<Port>, ports': seq<Port>, h: int)
    requires ResolvePort(ports, h) >= 0 && ResolvePort(ports', h) >= 0
    ensures ResolvePort(ports, h) == ResolvePort(ports', h)
  {
  }

  lemma TakesTook(states: seq<Sys>, actions: seq<Action>, t: nat, k: int)
    requires Run(states, actions) && t < |actions| && 0 <= k < TABLE_MAX && Shape(states[t]) && TakesNow(states[t], actions[t], k)
    ensures Took(states, actions, t, k, states[t].ports[k].staged)
  {
    hide Step, Enabled, ResolvePort;
    var s, a := states[t], actions[t];
    if PassesRecv(s, a, k) {
      assert Asked(states, actions, t, s.current, a.from, k);
    } else {
      var from := s.tasks[s.current].op.from;
      RunBegun(states, actions, t, s.current, from);
      var m: nat, l :| m < t && Asked(states, actions, m, s.current, from, l);
      SameSlot(states[m].ports, s.ports, from);
      assert Asked(states, actions, m, s.current, from, k);
    }
  }

  /** In every state of every run, each envelope taken from a port since it was opened was
      taken by a receive of its own, direct or resumed, that the port's owner made with the
      capability and a buffer in bounds. */
  lemma {:induction false} TakenByOwner(states: seq<Sys>, actions: seq<Action>, n: nat, k: int)
    requires Run(states, actions) && n < |states| && 0 <= k < TABLE_MAX && Sized(states[n]) && states[0].got[k] == []
    ensures var at := TakenAt(states, actions, n, k);
            && |at| == |states[n].got[k]|
            && (forall e :: 0 <= e < |at| ==> at[e] < n && Took(states, actions, at[e], k, states[n].got[k][e]))
            && forall e, f :: 0 <= e < f < |at| ==> at[e] < at[f]
  {
    hide Step, Enabled, Took, TakesNow;
    if n > 0 {
      var s, a := states[n - 1], actions[n - 1];
      TakenByOwner(states, actions, n - 1, k);
      GotGrows(s, a, k);
      if states[n].got[k] != s.got[k] && !(a.AOpen? && a.slot == k) {
        TakesTook(states, actions, n - 1, k);
      }
    }
  }

  // ---- whose port it is ----

  /** Action o opened port k for this owner, and nothing has opened or closed it since. */
  ghost predicate OpenedFor(actions: seq<Action>, o: int, k: int, owner: int, n: nat) {
    && 0 <= o < n <= |actions| && actions[o].AOpen? && actions[o].slot == k && actions[o].owner == owner
    && forall j :: o < j < n ==> !(actions[j].AOpen? && actions[j].slot == k) && !(actions[j].AClose? && actions[j].slot == k)
  }

  lemma PortStep(s: Sys, a: Action, k: int)
    requires Shape(s) && Enabled(s, a) && 0 <= k < TABLE_MAX
    ensures var t := Step(s, a);
            && |t.ports| == TABLE_MAX
            && if a.AOpen? && a.slot == k then
                 t.ports[k] == Port(true, false, s.ports[k].gen, a.owner, a.sendCap, a.recvCap, EMPTY_MSG)
               else if a.AClose? && a.slot == k then !t.ports[k].live
               else t.ports[k].live == s.ports[k].live && t.ports[k].owner == s.ports[k].owner && t.ports[k].gen == s.ports[k].gen
  {
    hide Waiter, ResolvePort, Without;
  }

  /** The owner of a live port is the one it was opened for. */
  lemma {:induction false} RunOwner(states: seq<Sys>, actions: seq<Action>, n: nat, k: int)
    requires Run(states, actions) && n < |states| && 0 <= k < TABLE_MAX && Sized(states[n]) && states[n].ports[k].live
    ensures exists o :: OpenedFor(actions, o, k, states[n].ports[k].owner, n)
  {
    hide Step, Enabled;
    if n > 0 {
      var s, a := states[n - 1], actions[n - 1];
      PortStep(s, a, k);
      if a.AOpen? && a.slot == k {
        assert OpenedFor(actions, n - 1, k, a.owner, n);
      } else {
        RunOwner(states, actions, n - 1, k);
        var o :| OpenedFor(actions, o, k, s.ports[k].owner, n - 1);
        assert OpenedFor(actions, o, k, s.ports[k].owner, n);
      }
    }
  }
}
