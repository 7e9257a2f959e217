/** The capability handle table: 64 rows, each with a generation that every grant and
    every revoke advances, named by packed handles. */
module CapHandles {
  import opened CapTable

  const ROWS := 64
  const LAST_CAP := 14
  const WORD := 0x1_0000_0000

  datatype Row = Row(live: bool, revoked: bool, cap: int, owner: int, granter: int, parent: int, gen: int)

  /** The capabilities that handles are issued for. */
  predicate Grantable(c: int) {
    CAP_MIN <= c <= LAST_CAP
  }

  // ---- packed handles: 16 bits of slot, 14 of generation, 2 of tag ----

  const GEN_SPAN := 16384
  const TAG_KERNEL := 1

  function Pack(slot: int, gen: int, tag: int): int {
    slot % 0x1_0000 + 0x1_0000 * (gen % GEN_SPAN) + 0x4000_0000 * (tag % 4)
  }

  function SlotOf(h: int): int {
    h % 0x1_0000
  }

  function GenOf(h: int): int {
    h / 0x1_0000 % GEN_SPAN
  }

  function TagOf(h: int): int {
    h / 0x4000_0000 % 4
  }

  /** The parts of a packed handle come back, and no kernel handle is the null one. */
  lemma Unpack(slot: int, gen: int, tag: int)
    requires 0 <= slot < 0x1_0000 && 0 <= gen && 0 <= tag < 4
    ensures var h := Pack(slot, gen, tag);
            0 <= h < WORD && SlotOf(h) == slot && GenOf(h) == gen % GEN_SPAN && TagOf(h) == tag
    ensures tag == TAG_KERNEL ==> Pack(slot, gen, tag) != 0
  {
    var h := Pack(slot, gen, tag);
    assert h / 0x1_0000 == gen % GEN_SPAN + GEN_SPAN * tag;
    assert h / 0x4000_0000 == tag;
  }

  function HandleOf(rows: seq<Row>, i: int): int
    requires 0 <= i < |rows|
  {
    Pack(i, rows[i].gen, TAG_KERNEL)
  }

  // ---- what the table means ----

  /** A row is live exactly when its generation is odd. */
  ghost predicate RowOk(r: Row) {
    && 0 <= r.gen < WORD && (r.live <==> r.gen % 2 == 1) && !(r.live && r.revoked)
    && (r.live ==> SubjectValid(r.owner) && Grantable(r.cap))
  }

  ghost predicate Same(a: Row, b: Row) {
    a.live && b.live && a.owner == b.owner && a.cap == b.cap
  }

  /** ... and no (owner, capability) pair has two live rows. */
  ghost predicate Inv(rows: seq<Row>) {
    && |rows| == ROWS && (forall i :: 0 <= i < ROWS ==> RowOk(rows[i]))
    && forall i, j :: 0 <= i < j < ROWS ==> !Same(rows[i], rows[j])
  }

  predicate Holds(r: Row, owner: int, cap: int) {
    r.live && r.owner == owner && r.cap == cap
  }

  ghost predicate Granted(rows: seq<Row>, owner: int, cap: int) {
    exists i :: 0 <= i < |rows| && Holds(rows[i], owner, cap)
  }

  /** What the gate says of a handle. */
  function Gate(rows: seq<Row>, h: int, cap: int): Result
    requires |rows| == ROWS
  {
    if TagOf(h) != TAG_KERNEL || !Grantable(cap) || SlotOf(h) >= ROWS then CapInvalid
    else
      var r := rows[SlotOf(h)];
      if !r.live || r.gen % GEN_SPAN != GenOf(h) then Missing
      else if r.cap != cap then CapInvalid
      else Ok
  }

  /** The gate accepts exactly the handles of live rows with that capability: slot, the
      low 14 bits of the generation, and the tag 1 in the two bits above. */
  lemma GateIff(rows: seq<Row>, h: int, cap: int)
    requires Inv(rows) && 0 <= h < 0x1_0000_0000
    ensures Gate(rows, h, cap) == Ok <==>
            exists i :: 0 <= i < 64 && rows[i].live && rows[i].cap == cap && h == i + 0x1_0000 * (rows[i].gen % 16384) + 0x4000_0000
  {
    if Gate(rows, h, cap) == Ok {
      var i := SlotOf(h);
      Parts(h);
      assert 0 <= i < 64 && rows[i].live && rows[i].cap == cap && h == i + 0x1_0000 * (rows[i].gen % 16384) + 0x4000_0000;
    }
    forall i | 0 <= i < 64 && rows[i].live && rows[i].cap == cap && h == i + 0x1_0000 * (rows[i].gen % 16384) + 0x4000_0000
      ensures Gate(rows, h, cap) == Ok
    {
      assert RowOk(rows[i]);
      Unpack(i, rows[i].gen, 1);
      assert h == Pack(i, rows[i].gen, 1);
    }
  }

  lemma Parts(h: int)
    requires 0 <= h < 0x1_0000_0000
    ensures h == SlotOf(h) + 0x1_0000 * GenOf(h) + 0x4000_0000 * TagOf(h)
  {
    var q := h / 0x1_0000;
    assert h == 0x1_0000 * q + h % 0x1_0000 && q == 16384 * (q / 16384) + q % 16384;
    assert q / 16384 == h / 0x4000_0000;
  }

  // ---- the two kinds of change ----

  function Bump(g: int): int {
    (g + 1) % WORD
  }

  function Revoked(r: Row): Row {
    r.(live := false, revoked := true, gen := Bump(r.gen))
  }

  datatype Event =
    | Grant(slot: int, owner: int, granter: int, cap: int, parent: int)
    | Revoke(slots: set<int>)

  function Granting(r: Row, owner: int, granter: int, cap: int, parent: int): Row {
    Row(true, false, cap, owner, granter, parent, Bump(r.gen))
  }

  ghost predicate Enabled(rows: seq<Row>, e: Event) {
    match e
    case Grant(i, owner, _, cap, _) =>
      0 <= i < |rows| && !rows[i].live && SubjectValid(owner) && Grantable(cap) && !Granted(rows, owner, cap)
    case Revoke(_) => true
  }

  function RevokeIn(rows: seq<Row>, slots: set<int>): (r: seq<Row>)
    ensures |r| == |rows|
    ensures forall i :: 0 <= i < |r| ==> r[i] == if i in slots && rows[i].live then Revoked(rows[i]) else rows[i]
  {
    seq(|rows|, i requires 0 <= i < |rows| => if i in slots && rows[i].live then Revoked(rows[i]) else rows[i])
  }

  function Apply(rows: seq<Row>, e: Event): seq<Row> {
    match e
    case Grant(i, owner, granter, cap, parent) =>
      if 0 <= i < |rows| then rows[i := Granting(rows[i], owner, granter, cap, parent)] else rows
    case Revoke(slots) => RevokeIn(rows, slots)
  }

  lemma BumpFlips(g: int)
    requires 0 <= g < WORD
    ensures 0 <= Bump(g) < WORD && Bump(g) % 2 != g % 2
  {
  }

  lemma GrantInv(rows: seq<Row>, i: int, owner: int, granter: int, cap: int, parent: int)
    requires Inv(rows) && Enabled(rows, Grant(i, owner, granter, cap, parent))
    ensures Inv(rows[i := Granting(rows[i], owner, granter, cap, parent)])
  {
    hide Bump;
    var t := rows[i := Granting(rows[i], owner, granter, cap, parent)];
    assert RowOk(rows[i]);
    BumpFlips(rows[i].gen);
    forall j | 0 <= j < ROWS ensures RowOk(t[j]) {
      assert RowOk(rows[j]);
    }
    forall j, k | 0 <= j < k < ROWS ensures !Same(t[j], t[k]) {
      assert !Same(rows[j], rows[k]) && !Holds(rows[j], owner, cap) && !Holds(rows[k], owner, cap);
    }
  }

  lemma RevokeInv(rows: seq<Row>, slots: set<int>)
    requires Inv(rows)
    ensures Inv(RevokeIn(rows, slots))
  {
    hide Bump;
    var t := RevokeIn(rows, slots);
    forall j | 0 <= j < ROWS ensures RowOk(t[j]) {
      assert RowOk(rows[j]);
      BumpFlips(rows[j].gen);
    }
    forall j, k | 0 <= j < k < ROWS ensures !Same(t[j], t[k]) {
      assert !Same(rows[j], rows[k]);
    }
  }

  lemma ApplyInv(rows: seq<Row>, e: Event)
    requires Inv(rows) && Enabled(rows, e)
    ensures Inv(Apply(rows, e))
  {
    hide Inv;
    match e
    case Grant(i, owner, granter, cap, parent) => GrantInv(rows, i, owner, granter, cap, parent);
    case Revoke(slots) => RevokeInv(rows, slots);
  }

  // ---- runs ----

  ghost predicate Run(states: seq<seq<Row>>, events: seq<Event>) {
    && |states| == |events| + 1 && Inv(states[0])
    && forall n :: 0 <= n < |events| ==> Enabled(states[n], events[n]) && states[n + 1] == Apply(states[n], events[n])
  }

  lemma {:induction false} RunInv(states: seq<seq<Row>>, events: seq<Event>, n: nat)
    requires Run(states, events) && n < |states|
    ensures Inv(states[n])
  {
    hide Inv, Enabled, Apply;
    if n > 0 {
      RunInv(states, events, n - 1);
      ApplyInv(states[n - 1], events[n - 1]);
    }
  }

  /** How often the slot is granted again among the first n events. */
  function Grants(events: seq<Event>, i: int, n: nat): nat
    requires n <= |events|
  {
    if n == 0 then 0
    else Grants(events, i, n - 1) + if events[n - 1].Grant? && events[n - 1].slot == i then 1 else 0
  }

  /** From a live row on, the generation counts two for each re-grant, and one more
      while the row is revoked. */
  lemma {:induction false} Generations(states: seq<seq<Row>>, events: seq<Event>, i: int, n: nat)
    requires Run(states, events) && n < |states| && 0 <= i < ROWS && states[0][i].live
    ensures |states[n]| == ROWS
    ensures states[n][i].gen == (states[0][i].gen + 2 * Grants(events, i, n) + if states[n][i].live then 0 else 1) % WORD
  {
    hide Inv, Enabled, Apply;
    RunInv(states, events, n);
    InvRow(states[n], i);
    InvRow(states[0], i);
    if n > 0 {
      Generations(states, events, i, n - 1);
      RunInv(states, events, n - 1);
      GenStep(states[n - 1], events[n - 1], i);
      Carry(states[0][i].gen + 2 * Grants(events, i, n - 1) + if states[n - 1][i].live then 0 else 1);
    }
  }

  lemma InvRow(rows: seq<Row>, i: int)
    requires Inv(rows) && 0 <= i < ROWS
    ensures |rows| == ROWS && RowOk(rows[i])
  {
  }

  lemma Carry(g: int)
    ensures Bump(g % WORD) == (g + 1) % WORD
  {
  }

  /** One event: a grant of this slot makes a dead row live, a revoke a live row dead,
      each advancing the generation; anything else leaves it alone. */
  lemma GenStep(rows: seq<Row>, e: Event, i: int)
    requires Inv(rows) && Enabled(rows, e) && 0 <= i < ROWS
    ensures var r, t := rows[i], Apply(rows, e)[i];
            if e.Grant? && e.slot == i then !r.live && t == Row(true, false, e.cap, e.owner, e.granter, e.parent, (r.gen + 1) % 0x1_0000_0000)
            else t == r || (e.Revoke? && i in e.slots && r.live && t == Row(false, true, r.cap, r.owner, r.granter, r.parent, (r.gen + 1) % 0x1_0000_0000))
  {
  }

  /** The gate accepts a handle later exactly when its row is live again after a
      multiple of 8192 re-grants, for the row's capability. */
  lemma HandleReuse(states: seq<seq<Row>>, events: seq<Event>, h: int, cap: int, cap': int, n: nat)
    requires Run(states, events) && n < |states| && Gate(states[0], h, cap) == Ok && Grantable(cap')
    ensures |states[n]| == ROWS
    ensures var r := states[n][SlotOf(h)];
            Gate(states[n], h, cap') == Ok <==> r.live && r.cap == cap' && Grants(events, SlotOf(h), n) % 8192 == 0
  {
    hide Inv, Enabled, Apply;
    var i := SlotOf(h);
    Generations(states, events, i, n);
    Wrap(states[0][i].gen, Grants(events, i, n));
  }

  lemma Wrap(g: int, k: nat)
    ensures (g + 2 * k) % WORD % GEN_SPAN == g % GEN_SPAN <==> k % 8192 == 0
  {
    var x := g + 2 * k;
    assert x % WORD % GEN_SPAN == x % GEN_SPAN by { ModMod(x); }
    Same14(g, k);
  }

  lemma ModMod(x: int)
    ensures x % WORD % GEN_SPAN == x % GEN_SPAN
  {
    var q := x / WORD;
    assert x == q * WORD + x % WORD && q * WORD == GEN_SPAN * (q * 262144);
    Mod(x, x % WORD, q * 262144);
  }

  lemma Mod(x: int, y: int, k: int)
    requires x - y == GEN_SPAN * k
    ensures x % GEN_SPAN == y % GEN_SPAN
  {
  }

  lemma Same14(g: int, k: nat)
    ensures (g + 2 * k) % GEN_SPAN == g % GEN_SPAN <==> k % 8192 == 0
  {
    var q, r := k / 8192, k % 8192;
    assert k == 8192 * q + r;
    Mod(g + 2 * k, g + 2 * r, q);
  }

  /** So a handle that has been revoked is refused through the next 8191 re-grants of its slot. */
  lemma RevokedStaysRefused(states: seq<seq<Row>>, events: seq<Event>, h: int, cap: int, cap': int, m: nat, n: nat)
    requires Run(states, events) && m <= n < |states| && Gate(states[0], h, cap) == Ok && Grantable(cap')
    requires |states[m]| == ROWS && !states[m][SlotOf(h)].live && Grants(events, SlotOf(h), n) < 8192
    ensures |states[n]| == ROWS && Gate(states[n], h, cap') != Ok
  {
    hide Inv, Enabled, Apply;
    HandleReuse(states, events, h, cap, cap', n);
    if Grants(events, SlotOf(h), n) == 0 {
      StaysDead(states, events, SlotOf(h), m, n);
    }
  }

  lemma {:induction false} StaysDead(states: seq<seq<Row>>, events: seq<Event>, i: int, m: nat, n: nat)
    requires Run(states, events) && m <= n < |states| && 0 <= i < ROWS
    requires |states[m]| == ROWS && !states[m][i].live && Grants(events, i, n) == 0
    ensures |states[n]| == ROWS && !states[n][i].live
    decreases n
  {
    if m < n {
      StaysDead(states, events, i, m, n - 1);
      RunInv(states, events, n - 1);
      GenStep(states[n - 1], events[n - 1], i);
    }
  }

  // ---- the subtree of a handle ----

  /** The slot of a row's parent, or -1 when it has none or it is out of range. */
  function ParentSlot(rows: seq<Row>, i: int): (p: int)
    requires 0 <= i < |rows|
    ensures p == -1 || 0 <= p < ROWS
  {
    if rows[i].parent == 0 || SlotOf(rows[i].parent) >= ROWS then -1 else SlotOf(rows[i].parent)
  }

  /** The slot n parent links above i, or -1. Links are followed through revoked rows
      and whatever generation the parent handle names. */
  function Ancestor(rows: seq<Row>, i: int, n: nat): (a: int)
    requires |rows| == ROWS && -1 <= i < ROWS
    ensures -1 <= a < ROWS
    decreases n
  {
    if n == 0 || i == -1 then i else Ancestor(rows, ParentSlot(rows, i), n - 1)
  }

  ghost predicate Below(rows: seq<Row>, i: int, root: int)
    requires |rows| == ROWS && 0 <= i < ROWS
  {
    exists n: nat :: Ancestor(rows, i, n) == root
  }

  ghost function Subtree(rows: seq<Row>, root: int): set<int>
    requires |rows| == ROWS
  {
    set i: int | 0 <= i < ROWS && Below(rows, i, root)
  }

  /** Marks are sound: every marked row is below the root. */
  ghost predicate Sound(rows: seq<Row>, root: int, v: seq<bool>)
    requires |rows| == ROWS
  {
    |v| == ROWS && forall i :: 0 <= i < ROWS && v[i] ==> Below(rows, i, root)
  }

  /** Marks are closed: a row whose parent is marked is marked. */
  ghost predicate Closed(rows: seq<Row>, v: seq<bool>, n: int)
    requires |rows| == |v| == ROWS
  {
    forall i :: 0 <= i < n && i < ROWS ==> ParentSlot(rows, i) == -1 || !v[ParentSlot(rows, i)] || v[i]
  }

  lemma BelowParent(rows: seq<Row>, i: int, root: int)
    requires |rows| == ROWS && 0 <= i < ROWS && ParentSlot(rows, i) >= 0 && Below(rows, ParentSlot(rows, i), root)
    ensures Below(rows, i, root)
  {
    var n: nat :| Ancestor(rows, ParentSlot(rows, i), n) == root;
    assert Ancestor(rows, i, n + 1) == root;
  }

  lemma {:induction false} ClosedCovers(rows: seq<Row>, v: seq<bool>, root: int, i: int, n: nat)
    requires |rows| == |v| == ROWS && Closed(rows, v, ROWS) && 0 <= root < ROWS && v[root]
    requires 0 <= i < ROWS && Ancestor(rows, i, n) == root
    ensures v[i]
    decreases n
  {
    if n > 0 && ParentSlot(rows, i) >= 0 {
      ClosedCovers(rows, v, root, ParentSlot(rows, i), n - 1);
    }
  }

  /** Sound and closed marks that hold the root are exactly its subtree. */
  lemma MarksAreSubtree(rows: seq<Row>, v: seq<bool>, root: int)
    requires |rows| == |v| == ROWS && 0 <= root < ROWS && v[root] && Sound(rows, root, v) && Closed(rows, v, ROWS)
    ensures forall i :: 0 <= i < ROWS ==> (v[i] <==> i in Subtree(rows, root))
  {
    forall i | 0 <= i < ROWS && Below(rows, i, root) ensures v[i] {
      var n: nat :| Ancestor(rows, i, n) == root;
      ClosedCovers(rows, v, root, i, n);
    }
  }

  /** A chain of slots, each row naming the next as its parent: the handle is not null and its
      low 16 bits are the next slot. Whether the rows are live does not matter. */
  ghost predicate ParentChain(rows: seq<Row>, path: seq<int>)
    requires |rows| == 64
    decreases |path|
  {
    && path != [] && 0 <= path[0] < 64
    && (|path| > 1 ==> rows[path[0]].parent != 0 && rows[path[0]].parent % 0x1_0000 == path[1] && ParentChain(rows, path[1..]))
  }

  lemma {:induction false} ChainBelow(rows: seq<Row>, path: seq<int>)
    requires |rows| == 64 && ParentChain(rows, path)
    ensures Ancestor(rows, path[0], |path| - 1) == path[|path| - 1]
    decreases |path|
  {
    if |path| > 1 {
      ChainBelow(rows, path[1..]);
      assert 0 <= path[1..][0] < 64;
    }
  }

  lemma {:induction false} BelowChain(rows: seq<Row>, i: int, root: int, n: nat) returns (path: seq<int>)
    requires |rows| == 64 && 0 <= i < 64 && 0 <= root < 64 && Ancestor(rows, i, n) == root
    ensures ParentChain(rows, path) && path[0] == i && path[|path| - 1] == root
    decreases n
  {
    if i == root {
      path := [i];
    } else {
      var rest := BelowChain(rows, ParentSlot(rows, i), root, n - 1);
      path := [i] + rest;
      assert path[1..] == rest;
    }
  }

  ghost predicate ChainTo(rows: seq<Row>, path: seq<int>, i: int, root: int)
    requires |rows| == 64
  {
    ParentChain(rows, path) && path[0] == i && path[|path| - 1] == root
  }

  /** A row is in the subtree of a slot exactly when a chain of parents leads there, through
      live and revoked rows alike. */
  lemma SubtreeIff(rows: seq<Row>, i: int, root: int)
    requires |rows| == 64 && 0 <= root < 64
    ensures i in Subtree(rows, root) <==> exists path: seq<int> :: ChainTo(rows, path, i, root)
  {
    hide ParentChain, Ancestor;
    if i in Subtree(rows, root) {
      var n: nat :| Ancestor(rows, i, n) == root;
      var path := BelowChain(rows, i, root, n);
      assert ChainTo(rows, path, i, root);
    }
    if path: seq<int> :| ChainTo(rows, path, i, root) {
      ChainEnds(rows, path);
      ChainBelow(rows, path);
      var n: nat := |path| - 1;
      assert Ancestor(rows, i, n) == root;
      assert Below(rows, i, root);
    }
  }

  lemma ChainEnds(rows: seq<Row>, path: seq<int>)
    requires |rows| == 64 && ParentChain(rows, path)
    ensures path != [] && 0 <= path[0] < 64
  {
  }

  /** A live row under a revoked child of a live row is in that row's subtree. */
  lemma ThroughRevoked(rows: seq<Row>)
    requires |rows| == 64 && rows[0].live && rows[1].revoked && !rows[1].live && rows[2].live
    requires rows[0].parent == 0 && rows[1].parent == Pack(0, rows[0].gen, 1) && rows[2].parent == Pack(1, 1, 1) && rows[0].gen >= 0
    ensures 2 in Subtree(rows, 0) && !RevokeIn(rows, Subtree(rows, 0))[2].live
  {
    hide Subtree, Pack, Revoked;
    Unpack(0, rows[0].gen, 1);
    Unpack(1, 1, 1);
    assert [2, 1, 0][1..] == [1, 0] && [1, 0][1..] == [0];
    assert ParentChain(rows, [0]) && ParentChain(rows, [1, 0]);
    assert ChainTo(rows, [2, 1, 0], 2, 0);
    SubtreeIff(rows, 2, 0);
    assert !Revoked(rows[2]).live by { RevokedDead(rows[2]); }
  }

  lemma RevokedDead(r: Row)
    ensures !Revoked(r).live && Revoked(r).revoked
  {
  }

  function Count(v: seq<bool>): nat {
    if v == [] then 0 else (if v[0] then 1 else 0) + Count(v[1..])
  }

  lemma {:induction false} CountSet(v: seq<bool>, i: nat)
    requires i < |v| && !v[i]
    ensures Count(v[i := true]) == Count(v) + 1
    decreases |v|
  {
    var w := v[i := true];
    if i == 0 {
      assert w[1..] == v[1..];
    } else {
      assert w[1..] == v[1..][i - 1 := true];
      CountSet(v[1..], i - 1);
    }
  }

  lemma {:induction false} CountBound(v: seq<bool>)
    ensures Count(v) <= |v|
    decreases |v|
  {
    if v != [] { CountBound(v[1..]); }
  }

  // ---- the table ----

  class Table {
    var rows: seq<Row>

    constructor ()
      ensures Inv(rows) && forall i :: 0 <= i < ROWS ==> !rows[i].live
    {
      rows := seq(ROWS, _ => Row(false, false, 0, 0, 0, 0, 0));
    }

    /** The live row for (owner, cap), or -1. */
    method FindLive(owner: int, cap: int) returns (i: int)
      requires |rows| == ROWS
      ensures -1 <= i < ROWS && (i >= 0 ==> Holds(rows[i], owner, cap))
      ensures i == -1 <==> !Granted(rows, owner, cap)
    {
      i := 0;
      while i < ROWS
        invariant 0 <= i <= ROWS && forall j :: 0 <= j < i ==> !Holds(rows[j], owner, cap)
      {
        if rows[i].live && rows[i].owner == owner && rows[i].cap == cap { return; }
        i := i + 1;
      }
      i := -1;
    }

    /** A row never used, else any row that is not live, else -1. */
    method FindFree() returns (i: int)
      requires |rows| == ROWS
      ensures -1 <= i < ROWS && (i >= 0 ==> !rows[i].live)
      ensures i == -1 <==> forall j :: 0 <= j < ROWS ==> rows[j].live
      ensures i >= 0 && rows[i].revoked ==> forall j :: 0 <= j < ROWS ==> rows[j].live || rows[j].revoked
    {
      i := 0;
      while i < ROWS
        invariant 0 <= i <= ROWS && forall j :: 0 <= j < i ==> rows[j].live || rows[j].revoked
      {
        if !rows[i].live && !rows[i].revoked { return; }
        i := i + 1;
      }
      i := 0;
      while i < ROWS
        invariant 0 <= i <= ROWS && forall j :: 0 <= j < i ==> rows[j].live
      {
        if !rows[i].live { return; }
        i := i + 1;
      }
      i := -1;
    }

    /** Grants once: a live row for the pair is left as it is. The event applied, if any,
        is returned. */
    method Grant(owner: int, granter: int, cap: int) returns (r: Result, ghost e: Event)
      requires Inv(rows)
      modifies this
      ensures Inv(rows)
      ensures r == (if !SubjectValid(owner) || !SubjectValid(granter) then SubjectInvalid
                    else if !Grantable(cap) then CapInvalid
                    else if old(Granted(rows, owner, cap)) then Ok
                    else if old(forall j :: 0 <= j < ROWS ==> rows[j].live) then CapInvalid else Ok)
      ensures r != Ok || old(Granted(rows, owner, cap)) ==> rows == old(rows)
      ensures r == Ok && !old(Granted(rows, owner, cap)) ==>
                e.Grant? && e.owner == owner && e.granter == granter && e.cap == cap && e.parent == 0 && Enabled(old(rows), e) && rows == Apply(old(rows), e)
      ensures r == Ok ==> Granted(rows, owner, cap)
    {
      hide Inv;
      RowCount(rows);
      e := Revoke({});
      if !SubjectValid(owner) || !SubjectValid(granter) { return SubjectInvalid, e; }
      if !Grantable(cap) { return CapInvalid, e; }
      var k := FindLive(owner, cap);
      if k >= 0 { return Ok, e; }
      var i := FindFree();
      if i < 0 { return CapInvalid, e; }
      e := Event.Grant(i, owner, granter, cap, 0);
      ApplyInv(rows, e);
      rows := rows[i := Row(true, false, cap, owner, granter, 0, (rows[i].gen + 1) % WORD)];
      assert Holds(rows[i], owner, cap);
      r := Ok;
    }

    /** Grants under a parent and returns the row's handle; the null handle is the failure. */
    method GrantChild(owner: int, cap: int, parent: int) returns (h: int, ghost e: Event)
      requires Inv(rows)
      modifies this
      ensures Inv(rows)
      ensures h == 0 <==> !SubjectValid(owner) || !Grantable(cap)
                          || (!old(Granted(rows, owner, cap)) && old(forall j :: 0 <= j < ROWS ==> rows[j].live))
      ensures h == 0 || old(Granted(rows, owner, cap)) ==> rows == old(rows)
      ensures h != 0 && !old(Granted(rows, owner, cap)) ==>
                e.Grant? && e.owner == owner && e.granter == owner && e.cap == cap && e.parent == parent && Enabled(old(rows), e) && rows == Apply(old(rows), e)
      ensures h != 0 ==> Gate(rows, h, cap) == Ok && rows[SlotOf(h)].owner == owner
    {
      hide Inv;
      RowCount(rows);
      e := Revoke({});
      if !SubjectValid(owner) || !Grantable(cap) { return 0, e; }
      var k := FindLive(owner, cap);
      if k >= 0 {
        LiveGate(rows, k);
        return HandleOf(rows, k), e;
      }
      var i := FindFree();
      if i < 0 { return 0, e; }
      e := Event.Grant(i, owner, owner, cap, parent);
      ApplyInv(rows, e);
      rows := rows[i := Row(true, false, cap, owner, owner, parent, (rows[i].gen + 1) % WORD)];
      LiveGate(rows, i);
      h := HandleOf(rows, i);
    }

    /** Revokes what the handle names; a stale handle changes nothing. */
    method RevokeHandle(h: int) returns (r: Result)
      requires Inv(rows) && 0 <= h < WORD
      modifies this
      ensures Inv(rows)
      ensures r == (if TagOf(h) != TAG_KERNEL || SlotOf(h) >= ROWS then CapInvalid
                    else if Current(old(rows), h) then Ok else Missing)
      ensures rows == Apply(old(rows), Revoke(if r == Ok then {SlotOf(h)} else {}))
    {
      hide Inv;
      RowCount(rows);
      assert RevokeIn(rows, {}) == rows;
      if TagOf(h) != TAG_KERNEL || SlotOf(h) >= ROWS { return CapInvalid; }
      var slot := SlotOf(h);
      if !rows[slot].live { return Missing; }
      if rows[slot].gen % GEN_SPAN != GenOf(h) { return Missing; }
      RevokeInv(rows, {slot});
      assert RevokeIn(rows, {slot}) == rows[slot := Revoked(rows[slot])];
      rows := rows[slot := rows[slot].(live := false, revoked := true, gen := Bump(rows[slot].gen))];
      r := Ok;
    }

    /** Revokes the pair's live row. */
    method RevokePair(owner: int, cap: int) returns (r: Result, ghost slot: int)
      requires Inv(rows)
      modifies this
      ensures Inv(rows)
      ensures r == (if !SubjectValid(owner) then SubjectInvalid else if !Grantable(cap) then CapInvalid
                    else if old(Granted(rows, owner, cap)) then Ok else Missing)
      ensures r != Ok ==> rows == old(rows)
      ensures r == Ok ==> 0 <= slot < ROWS && Holds(old(rows)[slot], owner, cap) && rows == Apply(old(rows), Revoke({slot}))
      ensures r == Ok ==> !Granted(rows, owner, cap)
    {
      hide Inv;
      RowCount(rows);
      slot := -1;
      if !SubjectValid(owner) { return SubjectInvalid, slot; }
      if !Grantable(cap) { return CapInvalid, slot; }
      var i := FindLive(owner, cap);
      if i < 0 { return Missing, slot; }
      slot := i;
      RevokeInv(rows, {i});
      OnlyOne(rows, i, owner, cap);
      assert RevokeIn(rows, {i}) == rows[i := Revoked(rows[i])];
      rows := rows[i := rows[i].(live := false, revoked := true, gen := Bump(rows[i].gen))];
      r := Ok;
    }

    /** Revokes every live row of an owner. */
    method RevokeSubject(owner: int) returns (n: int)
      requires Inv(rows)
      modifies this
      ensures Inv(rows) && rows == Apply(old(rows), Revoke(OwnedBy(old(rows), owner))) && n == |OwnedBy(old(rows), owner)|
    {
      hide Inv, Bump, OwnedBy;
      RowCount(rows);
      ghost var s, t := rows, RevokeIn(rows, OwnedBy(rows, owner));
      RevokeInv(rows, OwnedBy(rows, owner));
      n := 0;
      if !SubjectValid(owner) {
        NoneOwned(rows, owner);
        return;
      }
      OwnedNext(s, 0, owner);
      var i := 0;
      while i < ROWS
        invariant 0 <= i <= ROWS && |rows| == ROWS
        invariant forall j :: 0 <= j < i ==> rows[j] == t[j]
        invariant forall j :: i <= j < ROWS ==> rows[j] == s[j]
        invariant n == |OwnedBy(s[..i], owner)|
      {
        OwnedNext(s, i, owner);
        if rows[i].live && rows[i].owner == owner {
          rows := rows[i := rows[i].(live := false, revoked := true, gen := Bump(rows[i].gen))];
          n := n + 1;
        }
        i := i + 1;
      }
      assert rows == t && s[..ROWS] == s;
    }

    /** One pass over the table: marks every row whose parent is already marked. */
    method Pass(v: array<bool>, ghost root: int) returns (added: bool)
      requires |rows| == ROWS && v.Length == ROWS && Sound(rows, root, v[..])
      modifies v
      ensures Sound(rows, root, v[..]) && forall i :: 0 <= i < ROWS && old(v[i]) ==> v[i]
      ensures if added then Count(v[..]) > old(Count(v[..])) else v[..] == old(v[..]) && Closed(rows, v[..], ROWS)
    {
      hide Below, Count;
      added := false;
      var i := 0;
      while i < ROWS
        invariant 0 <= i <= ROWS && Sound(rows, root, v[..])
        invariant forall j :: 0 <= j < ROWS && old(v[j]) ==> v[j]
        invariant if added then Count(v[..]) > old(Count(v[..])) else v[..] == old(v[..]) && Closed(rows, v[..], i)
      {
        if !v[i] {
          var p := ParentSlot(rows, i);
          if p >= 0 && v[p] {
            ghost var s := v[..];
            BelowParent(rows, i, root);
            CountSet(s, i);
            v[i] := true;
            assert v[..] == s[i := true];
            added := true;
          }
        }
        i := i + 1;
      }
    }

    /** Revokes the handle's row and every live row below it, and touches nothing else. */
    method RevokeSubtree(h: int) returns (r: Result)
      requires Inv(rows) && 0 <= h < WORD
      modifies this
      ensures Inv(rows)
      ensures r == (if h == 0 || TagOf(h) != TAG_KERNEL || SlotOf(h) >= ROWS then CapInvalid
                    else if Current(old(rows), h) then Ok else Missing)
      ensures rows == Apply(old(rows), Revoke(if r == Ok then Subtree(old(rows), SlotOf(h)) else {}))
    {
      hide Inv, Subtree, Count;
      RowCount(rows);
      assert RevokeIn(rows, {}) == rows;
      if h == 0 || TagOf(h) != TAG_KERNEL || SlotOf(h) >= ROWS { return CapInvalid; }
      var root := SlotOf(h);
      if !rows[root].live { return Missing; }
      if rows[root].gen % GEN_SPAN != GenOf(h) { return Missing; }
      var v := Mark(root);
      MarksAreSubtree(rows, v[..], root);
      RevokeInv(rows, Subtree(rows, root));
      RevokeMarked(v, Subtree(rows, root));
      r := Ok;
    }

    method RevokeMarked(v: array<bool>, ghost slots: set<int>)
      requires |rows| == ROWS && v.Length == ROWS && forall i :: 0 <= i < ROWS ==> (v[i] <==> i in slots)
      modifies this
      ensures rows == RevokeIn(old(rows), slots)
    {
      hide Bump;
      ghost var s, t := rows, RevokeIn(rows, slots);
      var i := 0;
      while i < ROWS
        invariant 0 <= i <= ROWS && |rows| == ROWS
        invariant forall j :: 0 <= j < i ==> rows[j] == t[j]
        invariant forall j :: i <= j < ROWS ==> rows[j] == s[j]
      {
        if v[i] && rows[i].live {
          rows := rows[i := rows[i].(live := false, revoked := true, gen := Bump(rows[i].gen))];
        }
        i := i + 1;
      }
      assert rows == t;
    }

    /** The fixed point: 64 passes always reach it, because each but the last marks a row. */
    method Mark(root: int) returns (v: array<bool>)
      requires |rows| == ROWS && 0 <= root < ROWS
      ensures fresh(v) && v.Length == ROWS && v[root] && Sound(rows, root, v[..]) && Closed(rows, v[..], ROWS)
    {
      hide Below, Count, Closed;
      v := new bool[ROWS](_ => false);
      ghost var s := v[..];
      v[root] := true;
      RootBelow(rows, root);
      CountSet(s, root);
      assert v[..] == s[root := true];
      var pass := 0;
      var added := true;
      while pass < ROWS && added
        modifies v
        invariant 0 <= pass <= ROWS && v[root] && Sound(rows, root, v[..])
        invariant added ==> Count(v[..]) > pass
        invariant !added ==> Closed(rows, v[..], ROWS)
      {
        added := Pass(v, root);
        pass := pass + 1;
      }
      CountBound(v[..]);
    }
  }

  ghost predicate Current(rows: seq<Row>, h: int)
    requires |rows| == ROWS && 0 <= SlotOf(h) < ROWS
  {
    rows[SlotOf(h)].live && rows[SlotOf(h)].gen % GEN_SPAN == GenOf(h)
  }

  ghost function OwnedBy(rows: seq<Row>, owner: int): set<int> {
    set i: int | 0 <= i < |rows| && rows[i].live && rows[i].owner == owner
  }

  lemma NoneOwned(rows: seq<Row>, owner: int)
    requires Inv(rows) && !SubjectValid(owner)
    ensures RevokeIn(rows, OwnedBy(rows, owner)) == rows && OwnedBy(rows, owner) == {}
  {
    forall i | 0 <= i < ROWS ensures i !in OwnedBy(rows, owner) {
      assert RowOk(rows[i]);
    }
  }

  lemma OwnedNext(rows: seq<Row>, i: int, owner: int)
    requires 0 <= i < |rows|
    ensures |OwnedBy(rows[..0], owner)| == 0
    ensures i in OwnedBy(rows, owner) <==> rows[i].live && rows[i].owner == owner
    ensures |OwnedBy(rows[..i + 1], owner)| == |OwnedBy(rows[..i], owner)| + if rows[i].live && rows[i].owner == owner then 1 else 0
  {
    var a, b := OwnedBy(rows[..i], owner), OwnedBy(rows[..i + 1], owner);
    assert rows[..0] == [] && OwnedBy(rows[..0], owner) == {};
    assert b == if rows[i].live && rows[i].owner == owner then a + {i} else a;
  }

  lemma RowCount(rows: seq<Row>)
    requires Inv(rows)
    ensures |rows| == ROWS
  {
  }

  lemma LiveGate(rows: seq<Row>, i: int)
    requires Inv(rows) && 0 <= i < ROWS && rows[i].live
    ensures |rows| == ROWS && Gate(rows, HandleOf(rows, i), rows[i].cap) == Ok && SlotOf(HandleOf(rows, i)) == i && HandleOf(rows, i) != 0
  {
    assert RowOk(rows[i]);
    Unpack(i, rows[i].gen, TAG_KERNEL);
  }

  lemma OnlyOne(rows: seq<Row>, i: int, owner: int, cap: int)
    requires Inv(rows) && 0 <= i < ROWS && Holds(rows[i], owner, cap)
    ensures |rows| == ROWS && !Granted(rows[i := Revoked(rows[i])], owner, cap)
  {
    var t := rows[i := Revoked(rows[i])];
    forall j | 0 <= j < ROWS ensures !Holds(t[j], owner, cap) {
      if j < i { assert !Same(rows[j], rows[i]); }
      if i < j { assert !Same(rows[i], rows[j]); }
    }
  }

  lemma RootBelow(rows: seq<Row>, root: int)
    requires |rows| == ROWS && 0 <= root < ROWS
    ensures Below(rows, root, root)
  {
    assert Ancestor(rows, root, 0) == root;
  }
}
