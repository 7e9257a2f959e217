/** Where envelopes come from: over every run, each envelope in a port's history was supplied
    by one send of that run, under its authenticated sender, and no send supplies two. */
module IpcSources {
  import opened Handles
  import opened IpcModel
  import opened IpcRuns

  /** For each port the numbers of the actions that supplied its history, and for each
      entry the number of the action that its suspended send began with. */
  datatype Sources = Sources(sent: seq<seq<int>>, pending: seq<int>)

  ghost predicate Supplied(actions: seq<Action>, m: int, msg: Msg, n: int) {
    && 0 <= m < n <= |actions| && actions[m].ASend? && actions[m].sender != 0 && actions[m].allowed && actions[m].inside
    && actions[m].msg.abi == 0 && actions[m].msg.flags == 0 && actions[m].msg.len <= 64
    && msg == actions[m].msg.(sender := actions[m].sender)
  }

  /** The bookkeeping of one step. */
  ghost function Track(p: Sources, s: Sys, a: Action, n: int): Sources
    requires Shape(s) && Enabled(s, a) && |p.sent| == |p.pending| == TABLE_MAX
  {
    match a
    case ASend(sender, target, msg, allowed, inside) =>
      var r, k := Send(s, sender, target, msg, allowed, inside).1, ResolvePort(s.ports, target);
      if r == Done && k >= 0 then p.(sent := p.sent[k := p.sent[k] + [n]])
      else if r == Suspended && s.current >= 0 then p.(pending := p.pending[s.current := n])
      else p
    case ARetry =>
      if s.tasks[s.current].op.Sending? then
        var r, k := Retry(s).1, ResolvePort(s.ports, s.tasks[s.current].op.target);
        if r == Done && k >= 0 then p.(sent := p.sent[k := p.sent[k] + [p.pending[s.current]]]) else p
      else p
    case AOpen(k, _, _, _) => p.(sent := p.sent[k := []])
    case _ => p
  }

  ghost function SourcesAt(states: seq<Sys>, actions: seq<Action>, n: nat): (p: Sources)
    requires Run(states, actions) && n < |states|
    ensures |p.sent| == |p.pending| == TABLE_MAX
  {
    if n == 0 then Sources(seq(TABLE_MAX, _ => []), seq(TABLE_MAX, _ => -1))
    else
      var p := Track(SourcesAt(states, actions, n - 1), states[n - 1], actions[n - 1], n - 1);
      p
  }

  ghost predicate InSend(s: Sys, i: int)
    requires |s.tasks| == TABLE_MAX
  {
    0 <= i < TABLE_MAX && s.tasks[i].used && s.tasks[i].op.Sending?
  }

  /** Each envelope of port k has its source. */
  ghost predicate PortSourced(p: Sources, s: Sys, actions: seq<Action>, n: nat, k: int)
    requires |p.sent| == |s.sent| == TABLE_MAX && 0 <= k < TABLE_MAX
  {
    |p.sent[k]| == |s.sent[k]| && forall e :: 0 <= e < |s.sent[k]| ==> Supplied(actions, p.sent[k][e], s.sent[k][e], n)
  }

  /** No number occurs twice, in the histories or among the suspended sends. */
  ghost predicate Distinct(p: Sources, s: Sys)
    requires |p.sent| == |p.pending| == |s.tasks| == TABLE_MAX
  {
    && (forall k, l, e, f :: 0 <= k < TABLE_MAX && 0 <= l < TABLE_MAX && 0 <= e < |p.sent[k]| && 0 <= f < |p.sent[l]| && (k != l || e != f) ==>
          p.sent[k][e] != p.sent[l][f])
    && (forall i, k, e :: InSend(s, i) && 0 <= k < TABLE_MAX && 0 <= e < |p.sent[k]| ==> p.pending[i] != p.sent[k][e])
    && (forall i, j :: InSend(s, i) && InSend(s, j) && i != j ==> p.pending[i] != p.pending[j])
  }

  ghost predicate Sourced(p: Sources, s: Sys, actions: seq<Action>, n: nat) {
    && |p.sent| == |p.pending| == TABLE_MAX && Shape(s)
    && (forall k :: 0 <= k < TABLE_MAX ==> PortSourced(p, s, actions, n, k))
    && (forall i :: InSend(s, i) ==> Supplied(actions, p.pending[i], s.tasks[i].op.msg, n))
    && Distinct(p, s)
  }

  /** Histories and bookkeeping stay, and suspended sends stay or end. */
  lemma Still(p: Sources, s: Sys, t: Sys, actions: seq<Action>, n: nat)
    requires Sourced(p, s, actions, n) && Shape(t) && n < |actions| && t.sent == s.sent
    requires forall i :: InSend(t, i) ==> InSend(s, i) && t.tasks[i].op == s.tasks[i].op
    ensures Sourced(p, t, actions, n + 1)
  {
    var next := n + 1;
    forall k | 0 <= k < TABLE_MAX ensures PortSourced(p, t, actions, next, k) {
      assert PortSourced(p, s, actions, n, k);
    }
  }

  /** A history gets one envelope with a source of its own, and suspended sends that have another stay or end. */
  lemma Grows(p: Sources, s: Sys, t: Sys, actions: seq<Action>, n: nat, k: int, m: int, msg: Msg)
    requires Sourced(p, s, actions, n) && Shape(t) && n < |actions| && 0 <= k < TABLE_MAX
    requires t.sent == s.sent[k := s.sent[k] + [msg]] && Supplied(actions, m, msg, n + 1)
    requires forall l, e :: 0 <= l < TABLE_MAX && 0 <= e < |p.sent[l]| ==> p.sent[l][e] != m
    requires forall i :: InSend(t, i) ==> InSend(s, i) && t.tasks[i].op == s.tasks[i].op && p.pending[i] != m
    ensures Sourced(p.(sent := p.sent[k := p.sent[k] + [m]]), t, actions, n + 1)
  {
    var q := p.(sent := p.sent[k := p.sent[k] + [m]]);
    var next := n + 1;
    forall l | 0 <= l < TABLE_MAX ensures PortSourced(q, t, actions, next, l) {
      assert PortSourced(p, s, actions, n, l);
    }
    GrowsDistinct(p, s, t, k, m);
  }

  lemma GrowsDistinct(p: Sources, s: Sys, t: Sys, k: int, m: int)
    requires |p.sent| == |p.pending| == |s.tasks| == |t.tasks| == TABLE_MAX && Distinct(p, s) && 0 <= k < TABLE_MAX
    requires forall l, e :: 0 <= l < TABLE_MAX && 0 <= e < |p.sent[l]| ==> p.sent[l][e] != m
    requires forall i :: InSend(t, i) ==> InSend(s, i) && p.pending[i] != m
    ensures Distinct(p.(sent := p.sent[k := p.sent[k] + [m]]), t)
  {
    var q := p.(sent := p.sent[k := p.sent[k] + [m]]);
    assert forall l, e :: 0 <= l < TABLE_MAX && 0 <= e < |q.sent[l]| ==> q.sent[l][e] == if l == k && e == |p.sent[k]| then m else p.sent[l][e];
  }

  lemma BelowNow(p: Sources, s: Sys, actions: seq<Action>, n: nat)
    requires Sourced(p, s, actions, n)
    ensures forall l, e :: 0 <= l < TABLE_MAX && 0 <= e < |p.sent[l]| ==> p.sent[l][e] != n
    ensures forall i :: InSend(s, i) ==> p.pending[i] != n
  {
    forall l, e | 0 <= l < TABLE_MAX && 0 <= e < |p.sent[l]| ensures p.sent[l][e] != n {
      assert PortSourced(p, s, actions, n, l);
      assert Supplied(actions, p.sent[l][e], s.sent[l][e], n);
    }
  }

  /** Only the running process leaves or enters a call. */
  lemma OthersInSend(s: Sys, a: Action, i: int)
    requires Shape(s) && Enabled(s, a) && 0 <= i < TABLE_MAX && i != s.current
    ensures var t := Step(s, a); |t.tasks| == TABLE_MAX && (InSend(t, i) ==> InSend(s, i) && t.tasks[i].op == s.tasks[i].op)
  {
    hide Step, Enabled;
    StepShape(s, a);
    if s.tasks[i].used { OpKept(s, a, i); } else { NewIdle(s, a, i); }
  }

  lemma NewIdle(s: Sys, a: Action, i: int)
    requires Shape(s) && Enabled(s, a) && 0 <= i < TABLE_MAX && i != s.current && !s.tasks[i].used
    ensures var t := Step(s, a); |t.tasks| == TABLE_MAX && !InSend(t, i)
  {
    hide Waiter, ResolvePort, Without;
  }

  lemma SendSourced(p: Sources, s: Sys, actions: seq<Action>, n: nat)
    requires Sourced(p, s, actions, n) && n < |actions| && actions[n].ASend? && Enabled(s, actions[n])
    ensures Sourced(Track(p, s, actions[n], n), Step(s, actions[n]), actions, n + 1)
  {
    hide Sourced, Stage, ResolvePort;
    SourcedShape(p, s, actions, n);
    var a, t := actions[n], Step(s, actions[n]);
    StepShape(s, a);
    BelowNow(p, s, actions, n);
    SendAdds(s, a.sender, a.target, a.msg, a.allowed, a.inside);
    SendEnds(s, a.sender, a.target, a.msg, a.allowed, a.inside);
    forall i | 0 <= i < TABLE_MAX && i != s.current ensures InSend(t, i) ==> InSend(s, i) && t.tasks[i].op == s.tasks[i].op {
      OthersInSend(s, a, i);
    }
    var r := Send(s, a.sender, a.target, a.msg, a.allowed, a.inside).1;
    if r == Done {
      Grows(p, s, t, actions, n, ResolvePort(s.ports, a.target), n, a.msg.(sender := a.sender));
    } else if r == Suspended {
      Begins(p, s, t, actions, n);
    } else {
      Still(p, s, t, actions, n);
    }
  }

  lemma SourcedShape(p: Sources, s: Sys, actions: seq<Action>, n: nat)
    requires Sourced(p, s, actions, n)
    ensures Shape(s) && |p.sent| == |p.pending| == TABLE_MAX
  {
  }

  /** A send that is done or refused leaves its process outside a call; one that is suspended passed every check. */
  lemma SendEnds(s: Sys, sender: int, target: int, msg: Msg, allowed: bool, inside: bool)
    requires Shape(s) && IsIdle(s)
    ensures var (t, r) := Send(s, sender, target, msg, allowed, inside);
            && (r == Done || r == Suspended ==> sender != 0 && allowed && inside && ValidOut(msg))
            && (r != Suspended && s.current >= 0 && |t.tasks| == TABLE_MAX ==> !InSend(t, s.current))
  {
    hide Waiter, ResolvePort;
  }

  lemma Begins(p: Sources, s: Sys, t: Sys, actions: seq<Action>, n: nat)
    requires Sourced(p, s, actions, n) && Shape(t) && 0 <= n < |actions| && t.sent == s.sent && 0 <= s.current < TABLE_MAX
    requires actions[n].ASend? && t.tasks[s.current].op == Sending(actions[n].target, actions[n].msg.(sender := actions[n].sender))
    requires Supplied(actions, n, actions[n].msg.(sender := actions[n].sender), n + 1)
    requires forall l, e :: 0 <= l < TABLE_MAX && 0 <= e < |p.sent[l]| ==> p.sent[l][e] != n
    requires forall i :: InSend(s, i) ==> p.pending[i] != n
    requires forall i :: InSend(t, i) && i != s.current ==> InSend(s, i) && t.tasks[i].op == s.tasks[i].op
    ensures Sourced(p.(pending := p.pending[s.current := n]), t, actions, n + 1)
  {
    var q := p.(pending := p.pending[s.current := n]);
    var next := n + 1;
    forall k | 0 <= k < TABLE_MAX ensures PortSourced(q, t, actions, next, k) {
      assert PortSourced(p, s, actions, n, k);
    }
  }

  lemma RetrySourced(p: Sources, s: Sys, actions: seq<Action>, n: nat)
    requires Sourced(p, s, actions, n) && n < |actions| && actions[n] == ARetry && Enabled(s, ARetry)
    ensures Sourced(Track(p, s, ARetry, n), Step(s, ARetry), actions, n + 1)
  {
    hide Sourced, Stage, Consume, ResolvePort;
    SourcedShape(p, s, actions, n);
    var t := Step(s, ARetry);
    StepShape(s, ARetry);
    forall i | 0 <= i < TABLE_MAX && i != s.current ensures InSend(t, i) ==> InSend(s, i) && t.tasks[i].op == s.tasks[i].op {
      OthersInSend(s, ARetry, i);
    }
    RetryEnds(s);
    if s.tasks[s.current].op.Sending? {
      RetryAdds(s);
      var k := ResolvePort(s.ports, s.tasks[s.current].op.target);
      if Retry(s).1 == Done {
        Moves(p, s, t, actions, n, k);
      } else {
        Still(p, s, t, actions, n);
      }
    } else {
      Still(p, s, t, actions, n);
    }
  }

  /** A retry that does not stay suspended leaves the call; a receive never becomes a send. */
  lemma RetryEnds(s: Sys)
    requires Shape(s) && s.current >= 0 && !s.tasks[s.current].op.Idle?
    ensures var (t, r) := Retry(s);
            && |t.tasks| == TABLE_MAX && (r != Suspended ==> !InSend(t, s.current))
            && (InSend(t, s.current) ==> t.tasks[s.current].op == s.tasks[s.current].op)
            && (s.tasks[s.current].op.Receiving? ==> t.sent == s.sent)
  {
    hide Waiter, ResolvePort;
  }

  lemma Moves(p: Sources, s: Sys, t: Sys, actions: seq<Action>, n: nat, k: int)
    requires Sourced(p, s, actions, n) && Shape(t) && n < |actions| && 0 <= k < TABLE_MAX && s.current >= 0 && InSend(s, s.current)
    requires t.sent == s.sent[k := s.sent[k] + [s.tasks[s.current].op.msg]] && !InSend(t, s.current)
    requires forall i :: InSend(t, i) && i != s.current ==> InSend(s, i) && t.tasks[i].op == s.tasks[i].op
    ensures Sourced(p.(sent := p.sent[k := p.sent[k] + [p.pending[s.current]]]), t, actions, n + 1)
  {
    assert Supplied(actions, p.pending[s.current], s.tasks[s.current].op.msg, n);
    Grows(p, s, t, actions, n, k, p.pending[s.current], s.tasks[s.current].op.msg);
  }

  lemma OpenSourced(p: Sources, s: Sys, actions: seq<Action>, n: nat)
    requires Sourced(p, s, actions, n) && n < |actions| && actions[n].AOpen? && Enabled(s, actions[n])
    ensures Sourced(Track(p, s, actions[n], n), Step(s, actions[n]), actions, n + 1)
  {
    var q, t := Track(p, s, actions[n], n), Step(s, actions[n]);
    var next := n + 1;
    forall k | 0 <= k < TABLE_MAX ensures PortSourced(q, t, actions, next, k) {
      assert PortSourced(p, s, actions, n, k);
    }
  }

  lemma OtherSourced(p: Sources, s: Sys, actions: seq<Action>, n: nat)
    requires Sourced(p, s, actions, n) && n < |actions| && Enabled(s, actions[n])
    requires var a := actions[n]; !a.ASend? && !a.ARetry? && !a.AOpen?
    ensures Sourced(Track(p, s, actions[n], n), Step(s, actions[n]), actions, n + 1)
  {
    hide Sourced, ResolvePort, Consume;
    SourcedShape(p, s, actions, n);
    StepShape(s, actions[n]);
    var t := Step(s, actions[n]);
    forall i | 0 <= i < TABLE_MAX ensures InSend(t, i) ==> InSend(s, i) && t.tasks[i].op == s.tasks[i].op {
      if i != s.current { OthersInSend(s, actions[n], i); } else { CurrentNoSend(s, actions[n]); }
    }
    KeepsSent(s, actions[n]);
    Still(p, s, t, actions, n);
  }

  lemma CurrentNoSend(s: Sys, a: Action)
    requires Shape(s) && Enabled(s, a) && !a.ASend? && !a.ARetry? && !a.AOpen? && 0 <= s.current
    ensures var t := Step(s, a); |t.tasks| == TABLE_MAX && (InSend(t, s.current) ==> InSend(s, s.current) && t.tasks[s.current].op == s.tasks[s.current].op)
  {
    hide Waiter, ResolvePort, Without;
  }

  lemma KeepsSent(s: Sys, a: Action)
    requires Shape(s) && Enabled(s, a) && !a.ASend? && !a.ARetry? && !a.AOpen?
    ensures Step(s, a).sent == s.sent
  {
    hide Waiter, ResolvePort, Without;
  }

  /** In every state of every run each envelope a port has accepted, and each one waiting in a
      suspended send, comes from a send of that run that passed every check, with the sender
      stamped; and no two come from the same send. */
  lemma {:induction false} RunSources(states: seq<Sys>, actions: seq<Action>, n: nat)
    requires Run(states, actions) && n < |states| && forall k :: 0 <= k < TABLE_MAX ==> states[0].sent[k] == []
    ensures Sourced(SourcesAt(states, actions, n), states[n], actions, n)
  {
    hide Sourced, Step, Enabled, Shape, Track;
    if n == 0 {
      FreshSourced(states, actions);
    } else {
      RunSources(states, actions, n - 1);
      var p, s, a := SourcesAt(states, actions, n - 1), states[n - 1], actions[n - 1];
      if a.ASend? { SendSourced(p, s, actions, n - 1); }
      else if a.ARetry? { RetrySourced(p, s, actions, n - 1); }
      else if a.AOpen? { OpenSourced(p, s, actions, n - 1); }
      else { OtherSourced(p, s, actions, n - 1); }
    }
  }

  lemma FreshSourced(states: seq<Sys>, actions: seq<Action>)
    requires Run(states, actions) && forall k :: 0 <= k < TABLE_MAX ==> states[0].sent[k] == []
    ensures Sourced(SourcesAt(states, actions, 0), states[0], actions, 0)
  {
  }

  /** So every envelope that was received from a live port was supplied by a send of the run. */
  lemma Delivered(states: seq<Sys>, actions: seq<Action>, n: nat, k: int, e: nat)
    requires Run(states, actions) && FreshFlow(states[0]) && n < |states| && forall l :: 0 <= l < TABLE_MAX ==> states[0].sent[l] == []
    requires 0 <= k < TABLE_MAX && Sized(states[n]) && states[n].ports[k].live && e < |states[n].got[k]|
    ensures var p := SourcesAt(states, actions, n); e < |p.sent[k]| && Supplied(actions, p.sent[k][e], states[n].got[k][e], n)
  {
    hide Run, SourcesAt, Shape;
    RunFlow(states, actions, n);
    RunSources(states, actions, n);
    var p, s := SourcesAt(states, actions, n), states[n];
    assert FlowOk(s, k) && PortSourced(p, s, actions, n, k);
    assert s.got[k] == s.sent[k][..|s.got[k]|];
    assert Supplied(actions, p.sent[k][e], s.sent[k][e], n);
  }
}
