/** The audited capability operations and the broker's share workflow, over the bitset
    and the log. */
module CapBroker {
  import opened Bytes
  import opened CapTable
  import opened AuditLog

  const ADMIN := 4
  const ROOT := 0
  const SHARES := 8
  const NAME_MAX := 31

  // ---- replaying the log ----

  type Held = set<(int, int)>

  /** What an event says happened to the table. */
  function ReplayOne(held: Held, e: Event): Held {
    if e.result != Ok then held
    else if e.op == Grant then held + {(e.subject, e.cap)}
    else if e.op == Revoke then held - {(e.subject, e.cap)}
    else held
  }

  function Replay(log: seq<Event>): Held {
    if log == [] then {} else ReplayOne(Replay(log[..|log| - 1]), log[|log| - 1])
  }

  lemma ReplayNext(log: seq<Event>, e: Event)
    ensures Replay(log + [e]) == ReplayOne(Replay(log), e)
  {
    assert (log + [e])[..|log|] == log;
  }

  predicate Gives(e: Event, s: int, c: int) {
    e.op == Grant && e.result == Ok && e.subject == s && e.cap == c
  }

  predicate Takes(e: Event, s: int, c: int) {
    e.op == Revoke && e.result == Ok && e.subject == s && e.cap == c
  }

  ghost predicate GivenLast(log: seq<Event>, s: int, c: int, k: int) {
    0 <= k < |log| && Gives(log[k], s, c) && forall j :: k < j < |log| ==> !Takes(log[j], s, c)
  }

  /** A subject holds a capability exactly when some successful grant of it is in the log
      with no successful revoke after it. */
  lemma {:induction false} ReplayMeans(log: seq<Event>, s: int, c: int)
    ensures (s, c) in Replay(log) <==> exists k :: GivenLast(log, s, c, k)
    decreases |log|
  {
    if log != [] {
      var n := |log| - 1;
      var before, e := log[..n], log[n];
      ReplayMeans(before, s, c);
      if Gives(e, s, c) {
        assert GivenLast(log, s, c, n);
      } else if !Takes(e, s, c) {
        forall k | GivenLast(before, s, c, k) ensures GivenLast(log, s, c, k) {
        }
        forall k | GivenLast(log, s, c, k) ensures GivenLast(before, s, c, k) {
        }
      }
    }
  }

  /** Who may grant directly: a holder of the admin capability, and the root alone for that
      capability itself. */
  function MayGrant(held: Held, actor: int, cap: int): Result {
    if cap == ADMIN && actor == ROOT then Ok
    else
      var r := Holds(held, actor, ADMIN);
      if r != Ok then r else if cap == ADMIN then Missing else Ok
  }

  /** So a grant is allowed exactly to the root for the admin capability, and to a valid holder of
      the admin capability for every other. */
  lemma MayGrantIff(held: Held, actor: int, cap: int)
    ensures MayGrant(held, actor, cap) == Ok <==> if cap == 4 then actor == 0 else 0 <= actor < 8 && (actor, 4) in held
  {
  }

  function Holds(held: Held, s: int, c: int): Result {
    if Allowed(s, c) != Ok then Allowed(s, c) else if (s, c) in held then Ok else Missing
  }

  // ---- shares ----

  datatype Stage = Unused | Requested | Approved | Denied | Withdrawn

  datatype Share = Share(stage: Stage, owner: int, recipient: int, cap: int, name: string)

  datatype Outcome = Done | InvalidSubject | InvalidCapability | InvalidResource | NoSlot | NotFound | NotAuthorized | OwnerMissingCap | BadState

  const BLANK := Share(Unused, 0, 0, 0, "")

  predicate NameOk(n: Option<string>) {
    n.Some? && 0 < |n.value| <= NAME_MAX
  }

  /** A share that is in use was asked for between two different valid subjects, for a real
      capability and a proper name. */
  ghost predicate ShareOk(sh: Share) {
    sh.stage != Unused ==>
      && SubjectValid(sh.owner) && SubjectValid(sh.recipient) && sh.owner != sh.recipient
      && CapValid(sh.cap) && 0 < |sh.name| <= NAME_MAX
  }

  predicate Matches(sh: Share, recipient: int, cap: int, name: string) {
    sh.stage == Approved && sh.recipient == recipient && sh.cap == cap && sh.name == name
  }

  // ---- by what right a capability was given or taken ----

  predicate GivesAdmin(e: Event) {
    e.op == Grant && e.result == Ok && e.cap == ADMIN
  }

  /** The rule for a direct grant or revoke, by what was held before it. */
  ghost predicate Authorized(held: Held, e: Event) {
    && (e.op == Grant && e.result == Ok ==> if e.cap == ADMIN then e.actor == ROOT else (e.actor, ADMIN) in held)
    && (e.op == Revoke && e.result == Ok ==> (e.actor, ADMIN) in held)
  }

  /** The rule for a share: what is given was held by the giver when the share was asked for, and
      it is taken back only by the giver or the one who got it. */
  ghost predicate HeldBefore(log: seq<Event>, n: nat, s: int, c: int) {
    exists j :: 0 <= j <= n && j <= |log| && (s, c) in Replay(log[..j])
  }

  /** Event j gave what event e takes back, and e is the act of the one who gave or the one who got it. */
  predicate GaveBack(g: Event, e: Event) {
    Gives(g, e.subject, e.cap) && (e.actor == g.actor || e.actor == e.subject)
  }

  ghost predicate GivenByShare(log: seq<Event>, passed: set<int>, n: nat, e: Event) {
    exists j :: j in passed && 0 <= j < n && j < |log| && GaveBack(log[j], e)
  }

  ghost predicate ByShare(log: seq<Event>, passed: set<int>, n: nat, e: Event) {
    && (e.op == Grant && e.result == Ok ==> HeldBefore(log, n, e.actor, e.cap))
    && (e.op == Revoke && e.result == Ok ==> GivenByShare(log, passed, n, e))
  }

  /** Every event keeps the rule for direct calls, or, for those recorded by approving and
      taking back shares, the rule for shares. */
  ghost predicate Rooted(log: seq<Event>, passed: set<int>) {
    && (forall k :: k in passed ==> 0 <= k < |log|)
    && forall k :: 0 <= k < |log| ==> if k in passed then ByShare(log, passed, k, log[k]) else Authorized(Replay(log[..k]), log[k])
  }

  /** So nobody but the root has passed the admin capability on exactly when no share of it was
      approved by another owner. */
  lemma RootOnlyIff(log: seq<Event>, passed: set<int>)
    requires Rooted(log, passed)
    ensures (forall k :: 0 <= k < |log| && GivesAdmin(log[k]) ==> log[k].actor == ROOT)
            <==> (forall k :: k in passed && GivesAdmin(log[k]) ==> log[k].actor == ROOT)
  {
    hide ByShare, Replay;
  }

  /** And whoever gave a capability was the root giving the admin capability, or held the admin
      capability, or had held what it gave. */
  lemma GivenByRight(log: seq<Event>, passed: set<int>, k: nat)
    requires Rooted(log, passed) && k < |log| && log[k].op == Grant && log[k].result == Ok
    ensures var e := log[k];
            (e.cap == ADMIN && e.actor == ROOT) || (e.actor, ADMIN) in Replay(log[..k]) || HeldBefore(log, k, e.actor, e.cap)
  {
    hide Replay, HeldBefore;
  }

  /** Whoever took a capability away held the admin capability, or gave it or got it by a share. */
  lemma TakenByRight(log: seq<Event>, passed: set<int>, k: nat)
    requires Rooted(log, passed) && k < |log| && log[k].op == Revoke && log[k].result == Ok
    ensures (log[k].actor, ADMIN) in Replay(log[..k]) || GivenByShare(log, passed, k, log[k])
  {
    hide Replay, HeldBefore, GivenByShare;
  }

  lemma HeldLater(log: seq<Event>, n: nat, e: Event, s: int, c: int)
    requires HeldBefore(log, n, s, c)
    ensures HeldBefore(log + [e], n, s, c) && (n <= |log| ==> HeldBefore(log + [e], |log|, s, c))
  {
    hide Replay;
    var j :| 0 <= j <= n && j <= |log| && (s, c) in Replay(log[..j]);
    assert (log + [e])[..j] == log[..j];
  }

  lemma GivenLater(log: seq<Event>, passed: set<int>, n: nat, e: Event, f: Event, now: set<int>)
    requires GivenByShare(log, passed, n, f) && passed <= now
    ensures GivenByShare(log + [e], now, n, f)
  {
    var j :| j in passed && 0 <= j < n && j < |log| && GaveBack(log[j], f);
    assert GaveBack((log + [e])[j], f);
  }

  lemma RootedNext(log: seq<Event>, passed: set<int>, e: Event, shared: bool)
    requires Rooted(log, passed) && if shared then ByShare(log, passed, |log|, e) else Authorized(Replay(log), e)
    ensures Rooted(log + [e], if shared then passed + {|log|} else passed)
  {
    hide Replay, HeldBefore, GivenByShare, Authorized;
    var t := log + [e];
    var now := if shared then passed + {|log|} else passed;
    forall k | 0 <= k < |t| ensures if k in now then ByShare(t, now, k, t[k]) else Authorized(Replay(t[..k]), t[k]) {
      var f := t[k];
      if k < |log| {
        assert t[..k] == log[..k] && f == log[k];
        if k in passed && f.op == Grant && f.result == Ok { HeldLater(log, k, e, f.actor, f.cap); }
        if k in passed && f.op == Revoke && f.result == Ok { GivenLater(log, passed, k, e, f, now); }
      } else {
        assert t[..k] == log;
        if shared && f.op == Grant && f.result == Ok { HeldLater(log, k, e, f.actor, f.cap); }
        if shared && f.op == Revoke && f.result == Ok { GivenLater(log, passed, k, e, f, now); }
      }
    }
  }

  /** A share in use was asked for when its owner held the capability. */
  ghost predicate Asked(shares: seq<Share>, asked: seq<nat>, log: seq<Event>) {
    && |asked| == |shares|
    && forall i :: 0 <= i < |shares| && shares[i].stage != Unused ==> asked[i] <= |log| && (shares[i].owner, shares[i].cap) in Replay(log[..asked[i]])
  }

  /** An approved share was recorded as a grant of its owner. */
  ghost predicate Recorded(shares: seq<Share>, log: seq<Event>, passed: set<int>) {
    forall i :: 0 <= i < |shares| && shares[i].stage == Approved ==> RecordedAs(shares[i], log, passed)
  }

  ghost predicate RecordedAs(sh: Share, log: seq<Event>, passed: set<int>) {
    exists j :: j in passed && 0 <= j < |log| && Gives(log[j], sh.recipient, sh.cap) && log[j].actor == sh.owner
  }

  lemma RecordedNext(shares: seq<Share>, log: seq<Event>, passed: set<int>, e: Event, now: set<int>)
    requires Recorded(shares, log, passed) && passed <= now
    ensures Recorded(shares, log + [e], now)
  {
    forall i | 0 <= i < |shares| && shares[i].stage == Approved ensures RecordedAs(shares[i], log + [e], now) {
      var sh := shares[i];
      assert RecordedAs(sh, log, passed);
      var j :| j in passed && 0 <= j < |log| && Gives(log[j], sh.recipient, sh.cap) && log[j].actor == sh.owner;
      assert (log + [e])[j] == log[j];
    }
  }

  lemma RecordedSet(shares: seq<Share>, log: seq<Event>, passed: set<int>, i: int, sh: Share)
    requires Recorded(shares, log, passed) && 0 <= i < |shares| && (sh.stage == Approved ==> RecordedAs(sh, log, passed))
    ensures Recorded(shares[i := sh], log, passed)
  {
    hide RecordedAs;
  }

  lemma RecordedRevoke(shares: seq<Share>, log: seq<Event>, passed: set<int>, i: int, e: Event)
    requires Recorded(shares, log, passed) && 0 <= i < |shares| && shares[i].stage == Approved
    requires e.subject == shares[i].recipient && e.cap == shares[i].cap && (e.actor == shares[i].owner || e.actor == e.subject)
    ensures GivenByShare(log, passed, |log|, e)
  {
    var sh := shares[i];
    assert RecordedAs(sh, log, passed);
    var j :| j in passed && 0 <= j < |log| && Gives(log[j], sh.recipient, sh.cap) && log[j].actor == sh.owner;
    assert GaveBack(log[j], e);
  }

  lemma AskedNext(shares: seq<Share>, asked: seq<nat>, log: seq<Event>, e: Event)
    requires Asked(shares, asked, log)
    ensures Asked(shares, asked, log + [e])
  {
    hide Replay;
    forall i | 0 <= i < |shares| && shares[i].stage != Unused ensures asked[i] <= |log + [e]| && (log + [e])[..asked[i]] == log[..asked[i]] {
    }
  }

  lemma AskedNew(shares: seq<Share>, asked: seq<nat>, log: seq<Event>, i: int, sh: Share)
    requires Asked(shares, asked, log) && 0 <= i < |shares| && (sh.owner, sh.cap) in Replay(log)
    ensures |asked| == |shares| && Asked(shares[i := sh], asked[i := |log|], log)
  {
    hide Replay;
    assert log[..|log|] == log;
  }

  lemma AskedStage(shares: seq<Share>, asked: seq<nat>, log: seq<Event>, i: int, stage: Stage)
    requires Asked(shares, asked, log) && 0 <= i < |shares| && shares[i].stage != Unused
    ensures Asked(shares[i := shares[i].(stage := stage)], asked, log)
  {
    hide Replay;
  }

  lemma AskedHeld(shares: seq<Share>, asked: seq<nat>, log: seq<Event>, i: int)
    requires Asked(shares, asked, log) && 0 <= i < |shares| && shares[i].stage != Unused
    ensures HeldBefore(log, |log|, shares[i].owner, shares[i].cap)
  {
    hide Replay;
  }

  class System {
    const table: Table
    const audit: Log
    var shares: seq<Share>
    ghost var passed: set<int>
    ghost var asked: seq<nat>

    ghost function Repr(): set<object> {
      {this, table.bits, audit, audit.ring, audit.points}
    }

    /** Replaying the whole log gives the table. */
    ghost predicate Valid()
      reads this, table.bits, audit, audit.ring, audit.points
    {
      && table.Valid() && audit.Valid() && |shares| == SHARES
      && table.Held() == Replay(audit.log) && Rooted(audit.log, passed) && Asked(shares, asked, audit.log) && Recorded(shares, audit.log, passed)
      && forall i :: 0 <= i < SHARES ==> ShareOk(shares[i])
    }

    constructor ()
      ensures Valid() && audit.log == [] && passed == {} && fresh(table.bits) && fresh(audit) && fresh(audit.ring) && fresh(audit.points)
      ensures forall i :: 0 <= i < SHARES ==> shares[i].stage == Unused
    {
      hide Log.Valid, Table.Held;
      table := new Table();
      audit := new Log();
      shares := seq(SHARES, _ => BLANK);
      passed := {};
      asked := seq(SHARES, _ => 0);
    }

    /** Records an event that the table already reflects and that keeps one of the two rules. */
    method Note(op: Op, actor: int, subject: int, cap: int, r: Result, ghost shared: bool)
      requires table.Valid() && audit.Valid() && Rooted(audit.log, passed) && Asked(shares, asked, audit.log) && Recorded(shares, audit.log, passed)
      requires table.Held() == ReplayOne(Replay(audit.log), Event(|audit.log|, op, actor, subject, cap, r))
      requires var e := Event(|audit.log|, op, actor, subject, cap, r);
               if shared then ByShare(audit.log, passed, |audit.log|, e) else Authorized(Replay(audit.log), e)
      modifies audit, audit.ring, audit.points
      ensures audit.Valid() && table.Held() == Replay(audit.log) && Asked(shares, asked, audit.log)
      ensures audit.log == old(audit.log) + [Event(|old(audit.log)|, op, actor, subject, cap, r)]
      ensures var now := if shared then passed + {|old(audit.log)|} else passed; Rooted(audit.log, now) && Recorded(shares, audit.log, now)
    {
      hide Replay, ReplayOne, Log.Valid, Table.Held, Rooted, Asked, Recorded, ByShare, Authorized;
      ghost var e := Event(|audit.log|, op, actor, subject, cap, r);
      RootedNext(audit.log, passed, e, shared);
      AskedNext(shares, asked, audit.log, e);
      RecordedNext(shares, audit.log, passed, e, if shared then passed + {|audit.log|} else passed);
      ReplayNext(audit.log, e);
      audit.Record(op, actor, subject, cap, r);
    }

    /** The event that the last call recorded. */
    ghost predicate Logged(before: seq<Event>, op: Op, actor: int, subject: int, cap: int, r: Result)
      reads audit
    {
      audit.log == before + [Event(|before|, op, actor, subject, cap, r)]
    }

    method GrantAs(actor: int, target: int, cap: int) returns (r: Result)
      requires Valid()
      modifies Repr() - {this}
      ensures Valid() && Logged(old(audit.log), Grant, actor, target, cap, r)
      ensures r == var m := MayGrant(old(table.Held()), actor, cap); if m != Ok then m else Allowed(target, cap)
      ensures table.Held() == if r == Ok then old(table.Held()) + {(target, cap)} else old(table.Held())
    {
      hide Replay, Log.Valid, Table.Held, Rooted, Asked, Recorded;
      r := Ok;
      if !(cap == ADMIN && actor == ROOT) {
        r := table.Check(actor, ADMIN);
      }
      if r != Ok {
        Note(Grant, actor, target, cap, r, false);
        return;
      }
      if cap == ADMIN && actor != ROOT {
        r := Missing;
        Note(Grant, actor, target, cap, r, false);
        return;
      }
      r := table.Grant(target, cap);
      Note(Grant, actor, target, cap, r, false);
    }

    method RevokeAs(actor: int, target: int, cap: int) returns (r: Result)
      requires Valid()
      modifies Repr() - {this}
      ensures Valid() && Logged(old(audit.log), Revoke, actor, target, cap, r)
      ensures r == var m := Holds(old(table.Held()), actor, ADMIN); if m != Ok then m else Allowed(target, cap)
      ensures table.Held() == if r == Ok then old(table.Held()) - {(target, cap)} else old(table.Held())
    {
      hide Replay, Log.Valid, Table.Held, Rooted, Asked, Recorded;
      r := table.Check(actor, ADMIN);
      if r != Ok {
        Note(Revoke, actor, target, cap, r, false);
        return;
      }
      r := table.Revoke(target, cap);
      Note(Revoke, actor, target, cap, r, false);
    }

    method CheckCap(subject: int, cap: int) returns (r: Result)
      requires Valid()
      modifies audit, audit.ring, audit.points
      ensures Valid() && Logged(old(audit.log), Check, subject, subject, cap, r)
      ensures r == Holds(old(table.Held()), subject, cap) && table.Held() == old(table.Held())
    {
      hide Replay, Log.Valid, Table.Held, Rooted, Asked, Recorded;
      r := table.Check(subject, cap);
      Note(Check, subject, subject, cap, r, false);
    }

    // ---- the share workflow ----

    /** A request needs two different valid subjects, an owner that holds the capability,
        a proper name and a free slot, checked in that order. */
    method RequestShare(owner: int, recipient: int, cap: int, name: Option<string>) returns (r: Outcome, id: int)
      requires Valid()
      modifies this
      ensures Valid() && audit.log == old(audit.log) && table.Held() == old(table.Held()) && passed == old(passed)
      ensures r == if owner == recipient || !SubjectValid(owner) || !SubjectValid(recipient) then InvalidSubject
                   else if !CapValid(cap) then InvalidCapability
                   else if (owner, cap) !in table.Held() then OwnerMissingCap
                   else if !NameOk(name) then InvalidResource
                   else if forall i :: 0 <= i < SHARES ==> old(shares)[i].stage != Unused then NoSlot else Done
      ensures r != Done ==> shares == old(shares) && id == 0
      ensures r == Done ==> 1 <= id <= SHARES && old(shares)[id - 1].stage == Unused
                            && shares == old(shares)[id - 1 := Share(Requested, owner, recipient, cap, name.value)]
    {
      hide Replay, Log.Valid, Table.Held, Rooted, Asked, Recorded;
      id := 0;
      if owner == recipient { return InvalidSubject, 0; }
      if !SubjectValid(owner) || !SubjectValid(recipient) { return InvalidSubject, 0; }
      var c := table.Check(owner, cap);
      if c == CapInvalid { return InvalidCapability, 0; }
      if c != Ok { return OwnerMissingCap, 0; }
      if !NameOk(name) { return InvalidResource, 0; }
      var i := 0;
      while i < SHARES
        invariant 0 <= i <= SHARES && forall j :: 0 <= j < i ==> shares[j].stage != Unused
      {
        if shares[i].stage == Unused {
          AskedNew(shares, asked, audit.log, i, Share(Requested, owner, recipient, cap, name.value));
          RecordedSet(shares, audit.log, passed, i, Share(Requested, owner, recipient, cap, name.value));
          shares := shares[i := Share(Requested, owner, recipient, cap, name.value)];
          asked := asked[i := |audit.log|];
          return Done, i + 1;
        }
        i := i + 1;
      }
      r := NoSlot;
    }

    /** Why a decision on a share is refused, if it is. */
    static function Refusal(shares: seq<Share>, id: int, wanted: Stage, authorized: bool): Outcome
      requires |shares| == SHARES
    {
      if !(1 <= id <= SHARES) || shares[id - 1].stage == Unused then NotFound
      else if shares[id - 1].stage != wanted then BadState
      else if !authorized then NotAuthorized
      else Done
    }

    method Approve(approver: int, id: int) returns (r: Outcome)
      requires Valid()
      modifies Repr()
      ensures Valid()
      ensures r == Refusal(old(shares), id, Requested, 1 <= id <= SHARES && approver == old(shares)[id - 1].owner)
      ensures r == Done <==> 1 <= id <= 8 && old(shares)[id - 1].stage == Requested && approver == old(shares)[id - 1].owner
      ensures r != Done ==> shares == old(shares) && audit.log == old(audit.log) && table.Held() == old(table.Held())
      ensures r == Done ==> var sh := old(shares)[id - 1];
                && shares == old(shares)[id - 1 := sh.(stage := Approved)]
                && Logged(old(audit.log), Grant, approver, sh.recipient, sh.cap, Ok)
                && table.Held() == old(table.Held()) + {(sh.recipient, sh.cap)}
      ensures passed == if r == Done then old(passed) + {|old(audit.log)|} else old(passed)
    {
      hide Replay, Log.Valid, Table.Held, Rooted, Asked, Recorded;
      if !(1 <= id <= SHARES) { return NotFound; }
      var sh := shares[id - 1];
      if sh.stage == Unused { return NotFound; }
      if sh.stage != Requested { return BadState; }
      if approver != sh.owner { return NotAuthorized; }
      var g := table.Grant(sh.recipient, sh.cap);
      AskedHeld(shares, asked, audit.log, id - 1);
      Note(Grant, approver, sh.recipient, sh.cap, g, true);
      if g != Ok { return InvalidCapability; }
      passed := passed + {|old(audit.log)|};
      AskedStage(shares, asked, audit.log, id - 1, Approved);
      assert Gives(audit.log[|old(audit.log)|], sh.recipient, sh.cap);
      RecordedSet(shares, audit.log, passed, id - 1, sh.(stage := Approved));
      shares := shares[id - 1 := sh.(stage := Approved)];
      r := Done;
    }

    method Deny(approver: int, id: int) returns (r: Outcome)
      requires Valid()
      modifies Repr()
      ensures Valid() && table.Held() == old(table.Held()) && passed == old(passed)
      ensures r == Refusal(old(shares), id, Requested, 1 <= id <= SHARES && approver == old(shares)[id - 1].owner)
      ensures r == Done <==> 1 <= id <= 8 && old(shares)[id - 1].stage == Requested && approver == old(shares)[id - 1].owner
      ensures r != Done ==> shares == old(shares) && audit.log == old(audit.log)
      ensures r == Done ==> var sh := old(shares)[id - 1];
                && shares == old(shares)[id - 1 := sh.(stage := Denied)]
                && Logged(old(audit.log), Grant, approver, sh.recipient, sh.cap, Missing)
    {
      hide Replay, Log.Valid, Table.Held, Rooted, Asked, Recorded;
      if !(1 <= id <= SHARES) { return NotFound; }
      var sh := shares[id - 1];
      if sh.stage == Unused { return NotFound; }
      if sh.stage != Requested { return BadState; }
      if approver != sh.owner { return NotAuthorized; }
      AskedStage(shares, asked, audit.log, id - 1, Denied);
      RecordedSet(shares, audit.log, passed, id - 1, sh.(stage := Denied));
      shares := shares[id - 1 := sh.(stage := Denied)];
      Note(Grant, approver, sh.recipient, sh.cap, Missing, false);
      r := Done;
    }

    method RevokeShare(actor: int, id: int) returns (r: Outcome)
      requires Valid()
      modifies Repr()
      ensures Valid() && passed == if r == Done then old(passed) + {|old(audit.log)|} else old(passed)
      ensures r == Refusal(old(shares), id, Approved,
                1 <= id <= SHARES && (actor == old(shares)[id - 1].owner || actor == old(shares)[id - 1].recipient))
      ensures r == Done <==> 1 <= id <= 8 && old(shares)[id - 1].stage == Approved && (actor == old(shares)[id - 1].owner || actor == old(shares)[id - 1].recipient)
      ensures r != Done ==> shares == old(shares) && audit.log == old(audit.log) && table.Held() == old(table.Held())
      ensures r == Done ==> var sh := old(shares)[id - 1];
                && shares == old(shares)[id - 1 := sh.(stage := Withdrawn)]
                && Logged(old(audit.log), Revoke, actor, sh.recipient, sh.cap, Ok)
                && table.Held() == old(table.Held()) - {(sh.recipient, sh.cap)}
    {
      hide Replay, Log.Valid, Table.Held, Rooted, Asked, Recorded;
      if !(1 <= id <= SHARES) { return NotFound; }
      var sh := shares[id - 1];
      if sh.stage == Unused { return NotFound; }
      if sh.stage != Approved { return BadState; }
      if actor != sh.owner && actor != sh.recipient { return NotAuthorized; }
      var g := table.Revoke(sh.recipient, sh.cap);
      AskedStage(shares, asked, audit.log, id - 1, Withdrawn);
      RecordedRevoke(shares, audit.log, passed, id - 1, Event(|audit.log|, Revoke, actor, sh.recipient, sh.cap, g));
      RecordedSet(shares, audit.log, passed, id - 1, sh.(stage := Withdrawn));
      shares := shares[id - 1 := sh.(stage := Withdrawn)];
      Note(Revoke, actor, sh.recipient, sh.cap, g, true);
      passed := passed + {|old(audit.log)|};
      r := Done;
    }

    /** A recipient passes exactly when an approved share names it, the capability and the
        resource, and the table still holds the capability. */
    method RecipientCheck(recipient: int, cap: int, name: Option<string>) returns (r: Result)
      requires Valid()
      ensures r == if !SubjectValid(recipient) then SubjectInvalid
                   else if name.Some? && name.value != "" && (recipient, cap) in table.Held()
                           && (exists i :: 0 <= i < SHARES && Matches(shares[i], recipient, cap, name.value)) then Ok
                   else Missing
    {
      hide Replay, Log.Valid, Table.Held, Rooted, Asked, Recorded;
      if !SubjectValid(recipient) { return SubjectInvalid; }
      if name.None? || name.value == "" { return Missing; }
      var i := 0;
      while i < SHARES
        invariant 0 <= i <= SHARES && forall j :: 0 <= j < i ==> !Matches(shares[j], recipient, cap, name.value)
      {
        if Matches(shares[i], recipient, cap, name.value) {
          assert ShareOk(shares[i]);
          var c := table.Check(recipient, cap);
          return if c != Ok then Missing else Ok;
        }
        i := i + 1;
      }
      r := Missing;
    }
  }

  /** A subject other than the root that holds the admin capability passes it on by a share. */
  method AdminPassedOn() returns (s: System)
    ensures s.Valid() && (2, ADMIN) in s.table.Held() && |s.audit.log| == 2
    ensures GivesAdmin(s.audit.log[1]) && s.audit.log[1].actor == 1 && s.audit.log[1].subject == 2 && 1 in s.passed
  {
    hide Replay, Log.Valid, Table.Held, Rooted, Asked, Recorded;
    s := new System();
    assert s.shares[0].stage == Unused;
    var g := s.GrantAs(ROOT, 1, ADMIN);
    var r, id := s.RequestShare(1, 2, ADMIN, Some("all"));
    assert s.shares[id - 1] == Share(Requested, 1, 2, ADMIN, "all");
    r := s.Approve(1, id);
  }
}
