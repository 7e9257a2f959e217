/** The audit log: a ring of the last events, a running seal, and sealed checkpoints. */
module AuditLog {
  import opened Bytes
  import opened CapTable

  const RING := 32
  const INTERVAL := 8
  const POINTS := 8
  const WORD := 0x1_0000_0000_0000_0000

  datatype Op = Check | Grant | Revoke | CascadeRevoke | CascadeDone

  datatype Event = Event(number: int, op: Op, actor: int, subject: int, cap: int, result: Result)

  // ---- the seal ----

  datatype Seal = Seal(v: bv64)

  function OpCode(op: Op): int {
    match op case Check => 0 case Grant => 1 case Revoke => 2 case CascadeRevoke => 3 case CascadeDone => 4
  }

  function ResultCode(r: Result): int {
    match r case Ok => 0 case Missing => 1 case SubjectInvalid => 2 case CapInvalid => 3
  }

  function ToWord(n: int): bv64 {
    (n % WORD) as bv64
  }

  function Xor(a: bv64, x: bv64): bv64 {
    a ^ x
  }

  function Scramble(a: bv64): bv64 {
    a * 1099511628211
  }

  function Mix(acc: Seal, x: bv64): Seal {
    Seal(Scramble(Xor(acc.v, x)))
  }

  const SEED := Seal(1469598103934665603)

  function Fold(s: Seal, ws: seq<bv64>): Seal {
    if ws == [] then s else Mix(Fold(s, ws[..|ws| - 1]), ws[|ws| - 1])
  }

  /** The words of an event that its digest is made of, in order. */
  function Words(e: Event): seq<bv64> {
    [ToWord(e.number), ToWord(OpCode(e.op)), ToWord(e.actor), ToWord(e.subject), ToWord(e.cap), ToWord(ResultCode(e.result))]
  }

  function Digest(e: Event): Seal {
    Fold(SEED, Words(e))
  }

  /** How many events the ring has lost after n of them. */
  function Lost(n: int): int {
    if n <= RING then 0 else n - RING
  }

  function Absorb(s: Seal, e: Event, lost: int): Seal {
    Mix(Mix(s, Digest(e).v), ToWord(lost))
  }

  /** The fold over a log that the seal is meant to be. */
  function SealOf(log: seq<Event>): Seal {
    if log == [] then SEED
    else Absorb(SealOf(log[..|log| - 1]), log[|log| - 1], Lost(|log|))
  }

  // ---- a seal worked out ----

  lemma ToWordIs(n: nat, w: bv64)
    requires n == w as int && n < WORD
    ensures ToWord(n) == w
  {
    Within(n);
    Back(w);
  }

  lemma Within(n: nat)
    requires n < WORD
    ensures n % WORD == n
  {
  }

  lemma Back(w: bv64)
    ensures (w as int) as bv64 == w
  {
  }

  lemma MixIs(a: Seal, x: bv64, r: bv64)
    requires Scramble(Xor(a.v, x)) == r
    ensures Mix(a, x) == Seal(r)
  {
    hide Scramble, Xor;
  }

  lemma {:induction false} FoldNext(s: Seal, ws: seq<bv64>, x: bv64)
    ensures Fold(s, ws + [x]) == Mix(Fold(s, ws), x)
  {
    hide Mix;
    assert (ws + [x])[..|ws|] == ws;
  }

  /** The digest mixes the six words in this order: number, operation, actor, subject, capability
      and result, from the offset basis on. */
  lemma DigestMixes(e: Event)
    ensures Digest(e) == Mix(Mix(Mix(Mix(Mix(Mix(Seal(1469598103934665603), ToWord(e.number)), ToWord(OpCode(e.op))), ToWord(e.actor)),
                               ToWord(e.subject)), ToWord(e.cap)), ToWord(ResultCode(e.result)))
  {
    hide Mix, ToWord, Fold;
    var a := [ToWord(e.number)];
    var b := a + [ToWord(OpCode(e.op))];
    var c := b + [ToWord(e.actor)];
    var d := c + [ToWord(e.subject)];
    var f := d + [ToWord(e.cap)];
    FoldNone(SEED);
    FoldNext(SEED, [], a[0]);
    assert [] + [a[0]] == a;
    FoldNext(SEED, a, ToWord(OpCode(e.op)));
    FoldNext(SEED, b, ToWord(e.actor));
    FoldNext(SEED, c, ToWord(e.subject));
    FoldNext(SEED, d, ToWord(e.cap));
    FoldNext(SEED, f, ToWord(ResultCode(e.result)));
    assert f + [ToWord(ResultCode(e.result))] == Words(e);
  }

  lemma FoldNone(s: Seal)
    ensures Fold(s, []) == s
  {
  }

  /** The seal of a log with one event: number 9, a revoke by 5 from 6 of capability 7, refused
      with the code 3. */
  lemma KnownSeal()
    ensures SealOf([Event(9, Revoke, 5, 6, 7, CapInvalid)]) == Seal(17199341513752435938)
  {
    hide Mix, ToWord;
    var e := Event(9, Revoke, 5, 6, 7, CapInvalid);
    ToWordIs(9, 9);
    ToWordIs(2, 2);
    ToWordIs(5, 5);
    ToWordIs(6, 6);
    ToWordIs(7, 7);
    ToWordIs(3, 3);
    ToWordIs(0, 0);
    MixIs(SEED, 9, 4953171053234684798);
    MixIs(Seal(4953171053234684798), 2, 11133139075217550260);
    MixIs(Seal(11133139075217550260), 5, 16564190292306329027);
    MixIs(Seal(16564190292306329027), 6, 9210376749345519039);
    MixIs(Seal(9210376749345519039), 7, 8305314863717533608);
    MixIs(Seal(8305314863717533608), 3, 9339947011242739601);
    DigestMixes(e);
    MixIs(SEED, 9339947011242739601, 6847959898822716054);
    MixIs(Seal(6847959898822716054), 0, 17199341513752435938);
    assert [e][..0] == [];
  }

  // ---- what the seal detects ----

  /** Multiplication by the inverse of the odd multiplier modulo 2^64. */
  function Unscramble(a: bv64): bv64 {
    a * 14886173955864302971
  }

  lemma UnscrambleProduct(a: bv64)
    ensures Unscramble(a * 1099511628211) == a
  {
  }

  lemma ScrambleIs(a: bv64)
    ensures Scramble(a) == a * 1099511628211
  {
  }

  lemma ScrambleUndone(a: bv64)
    ensures Unscramble(Scramble(a)) == a
  {
    hide Scramble, Unscramble;
    ScrambleIs(a);
    UnscrambleProduct(a);
  }

  lemma XorUndone(a: bv64, x: bv64)
    ensures Xor(a, Xor(a, x)) == x && Xor(Xor(x, a), a) == x
  {
  }

  /** Mixing different words in, or the same word into different seals, gives different seals. */
  lemma MixApart(s: Seal, t: Seal, x: bv64, y: bv64)
    ensures s == t && x != y ==> Mix(s, x) != Mix(t, y)
    ensures s != t && x == y ==> Mix(s, x) != Mix(t, y)
  {
    hide Xor, Scramble, Unscramble;
    ScrambleUndone(Xor(s.v, x));
    ScrambleUndone(Xor(t.v, y));
    XorUndone(s.v, x);
    XorUndone(s.v, y);
    XorUndone(x, s.v);
    XorUndone(x, t.v);
  }

  lemma {:induction false} FoldApart(s: Seal, ws: seq<bv64>, vs: seq<bv64>, i: nat)
    requires i < |ws| == |vs| && ws[i] != vs[i] && forall j :: 0 <= j < |ws| && j != i ==> ws[j] == vs[j]
    ensures Fold(s, ws) != Fold(s, vs)
    decreases |ws|
  {
    hide Mix;
    var n := |ws| - 1;
    if i == n {
      assert ws[..n] == vs[..n];
      MixApart(Fold(s, ws[..n]), Fold(s, vs[..n]), ws[n], vs[n]);
    } else {
      FoldApart(s, ws[..n], vs[..n], i);
      MixApart(Fold(s, ws[..n]), Fold(s, vs[..n]), ws[n], vs[n]);
    }
  }

  /** Events that differ in exactly one of their six words. */
  ghost predicate OneField(e: Event, f: Event) {
    exists i :: 0 <= i < 6 && Words(e)[i] != Words(f)[i] && Words(e)[i := Words(f)[i]] == Words(f)
  }

  lemma DigestApart(e: Event, f: Event)
    requires OneField(e, f)
    ensures Digest(e) != Digest(f)
  {
    hide Fold, Words;
    SixWords(e);
    SixWords(f);
    var i :| 0 <= i < 6 && Words(e)[i] != Words(f)[i] && Words(e)[i := Words(f)[i]] == Words(f);
    FoldApart(SEED, Words(e), Words(f), i);
  }

  lemma SixWords(e: Event)
    ensures |Words(e)| == 6
  {
  }

  /** Changing one word of one event anywhere in a log changes its seal. */
  lemma {:induction false} SealDetects(log: seq<Event>, other: seq<Event>, k: nat)
    requires k < |log| == |other| && OneField(log[k], other[k]) && forall j :: 0 <= j < |log| && j != k ==> log[j] == other[j]
    ensures SealOf(log) != SealOf(other)
    decreases |log|
  {
    hide Mix, Digest, OneField, ToWord;
    var n := |log| - 1;
    var a, b, d, e := SealOf(log[..n]), SealOf(other[..n]), Digest(log[n]), Digest(other[n]);
    if k == n {
      assert log[..n] == other[..n];
      DigestApart(log[n], other[n]);
      SealValue(d, e);
    } else {
      SealDetects(log[..n], other[..n], k);
    }
    MixApart(a, b, d.v, e.v);
    MixApart(Mix(a, d.v), Mix(b, e.v), ToWord(Lost(n + 1)), ToWord(Lost(n + 1)));
  }

  lemma SealValue(d: Seal, e: Seal)
    requires d != e
    ensures d.v != e.v
  {
  }

  // ---- checkpoints ----

  datatype Checkpoint = Checkpoint(id: int, first: int, last: int, seal: Seal, lost: int)

  /** The checkpoint that ends block k of the log. */
  function PointAt(log: seq<Event>, k: int): Checkpoint
    requires 0 <= k && INTERVAL * (k + 1) <= |log|
  {
    var n := INTERVAL * (k + 1);
    Checkpoint(k, n - INTERVAL, n - 1, SealOf(log[..n]), Lost(n))
  }

  /** Checkpoint c covers the eight events from 8 c on and counts what the ring of 32 has lost by then. */
  lemma PointIs(log: seq<Event>, c: nat)
    requires 8 * c + 8 <= |log|
    ensures PointAt(log, c) == Checkpoint(c, 8 * c, 8 * c + 7, SealOf(log[..8 * c + 8]), if c < 4 then 0 else 8 * c - 24)
  {
    hide SealOf;
  }

  /** So a change to one word of one event shows in the seal of every checkpoint taken after it. */
  lemma PointDetects(log: seq<Event>, other: seq<Event>, k: nat, c: nat)
    requires k < INTERVAL * (c + 1) <= |log| == |other| && OneField(log[k], other[k])
    requires forall j :: 0 <= j < |log| && j != k ==> log[j] == other[j]
    ensures PointAt(log, c).seal != PointAt(other, c).seal
  {
    hide SealOf, OneField;
    var n := INTERVAL * (c + 1);
    SealDetects(log[..n], other[..n], k);
  }

  // ---- rings ----

  /** A ring holds the last items of a list, item k in slot k modulo the size. */
  ghost predicate RingOf<T>(ring: seq<T>, next: int, count: int, items: seq<T>) {
    && |ring| > 0 && next == |items| % |ring| && count == (if |items| < |ring| then |items| else |ring|)
    && forall k :: |items| - count <= k < |items| ==> ring[k % |ring|] == items[k]
  }

  lemma RingPush<T>(ring: seq<T>, next: int, count: int, items: seq<T>, x: T)
    requires RingOf(ring, next, count, items)
    ensures 0 <= next < |ring|
    ensures RingOf(ring[next := x], (next + 1) % |ring|, if count < |ring| then count + 1 else count, items + [x])
  {
    var n, r, items' := |items|, ring[next := x], items + [x];
    assert (next + 1) % |ring| == (n + 1) % |ring| by { NextSlot(n, |ring|); }
    var count' := if count < |ring| then count + 1 else count;
    forall k | |items'| - count' <= k < |items'| ensures r[k % |ring|] == items'[k] {
      if k < n {
        assert ring[k % |ring|] == items[k];
        SlotsApart(k, n, |ring|);
      }
    }
  }

  lemma NextSlot(n: int, m: int)
    requires m > 0 && n >= 0
    ensures (n % m + 1) % m == (n + 1) % m
  {
    var q := n / m;
    assert n + 1 == q * m + (n % m + 1);
    ShiftMod(n % m + 1, q, m);
  }

  lemma ShiftMod(a: int, q: int, m: int)
    requires m > 0
    ensures (q * m + a) % m == a % m
  {
    var c := a / m;
    assert q * m + a == m * (q + c) + a % m;
    Remainder(q * m + a, m, q + c, a % m);
  }

  lemma SlotsApart(k: int, n: int, m: int)
    requires m > 0 && n - m < k < n
    ensures k % m != n % m
  {
    var d := n / m - k / m;
    assert m * d == (n - k) - (n % m - k % m);
    assert d <= 0 ==> m * d <= 0;
    assert d >= 1 ==> m * d >= m;
  }

  /** Reading by age: index 0 is the oldest item kept. */
  lemma RingRead<T>(ring: seq<T>, next: int, count: int, items: seq<T>, i: int)
    requires RingOf(ring, next, count, items) && 0 <= i < count
    ensures var start := if count == |ring| then next else 0;
            0 <= (start + i) % |ring| < |ring| && ring[(start + i) % |ring|] == items[|items| - count + i]
  {
    var m, n := |ring|, |items|;
    var k := n - count + i;
    assert ring[k % m] == items[k];
    if count == m {
      var q := n / m;
      assert n - m + i == (q - 1) * m + (next + i);
      ShiftMod(next + i, q - 1, m);
    }
  }

  class Log {
    const ring: array<Event>
    var next: int
    var count: int
    var lost: int
    var number: int
    const points: array<Checkpoint>
    var pointNext: int
    var pointCount: int
    var pointId: int
    var seal: Seal
    ghost var log: seq<Event>
    ghost var all: seq<Checkpoint>

    /** The ring holds the last events, the seal is the fold of the whole log, and the
        checkpoints are those of every eighth event. */
    ghost predicate Valid()
      reads this, ring, points
    {
      && ring.Length == RING && points.Length == POINTS
      && RingOf(ring[..], next, count, log) && RingOf(points[..], pointNext, pointCount, all)
      && lost == Lost(|log|) && number == |log| && seal == SealOf(log)
      && pointId == |all| && PointsOf(all, log)
    }

    constructor ()
      ensures Valid() && log == [] && fresh(ring) && fresh(points)
    {
      ring := new Event[RING](_ => Event(0, Check, 0, 0, 0, Ok));
      points := new Checkpoint[POINTS](_ => Checkpoint(0, 0, 0, SEED, 0));
      next, count, lost, number := 0, 0, 0, 0;
      pointNext, pointCount, pointId, seal := 0, 0, 0, SEED;
      log, all := [], [];
    }

    method Record(op: Op, actor: int, subject: int, cap: int, result: Result)
      requires Valid()
      modifies this, ring, points
      ensures Valid() && log == old(log) + [Event(|old(log)|, op, actor, subject, cap, result)]
    {
      hide SealOf, RingOf, Absorb, PointsOf;
      var e := Event(number, op, actor, subject, cap, result);
      ghost var was := log;
      Push(e);
      SealNext(was, e);
      seal := Absorb(seal, e, lost);
      log := was + [e];
      MaybePoint(was, e);
    }

    method Push(e: Event)
      requires ring.Length == RING && RingOf(ring[..], next, count, log) && lost == Lost(|log|) && number == |log|
      modifies `next, `count, `lost, `number, ring
      ensures RingOf(ring[..], next, count, log + [e]) && lost == Lost(|log| + 1) && number == |log| + 1
    {
      ghost var s := ring[..];
      RingPush(s, next, count, log, e);
      ring[next] := e;
      assert ring[..] == s[next := e];
      number := number + 1;
      next := (next + 1) % RING;
      if count < RING { count := count + 1; } else { lost := lost + 1; }
    }

    /** Adds a checkpoint after every eighth event. */
    method MaybePoint(ghost was: seq<Event>, e: Event)
      requires points.Length == POINTS && RingOf(points[..], pointNext, pointCount, all) && pointId == |all| && PointsOf(all, was)
      requires log == was + [e] && number == |log| && seal == SealOf(log) && lost == Lost(|log|)
      modifies `pointNext, `pointCount, `pointId, `all, points
      ensures RingOf(points[..], pointNext, pointCount, all) && pointId == |all| && PointsOf(all, log)
    {
      hide SealOf;
      PointsGrow(all, was, e);
      if number % INTERVAL != 0 { return; }
      var c := Checkpoint(pointId, number - INTERVAL, number - 1, seal, lost);
      ghost var s := points[..];
      RingPush(s, pointNext, pointCount, all, c);
      points[pointNext] := c;
      assert points[..] == s[pointNext := c];
      pointId := pointId + 1;
      pointNext := (pointNext + 1) % POINTS;
      if pointCount < POINTS { pointCount := pointCount + 1; }
      assert log[..|log|] == log;
      assert PointAt(log, |all|) == c;
      all := all + [c];
    }

    /** The i-th oldest event kept: the ring is exactly the end of the log, in order. */
    method Get(i: int) returns (r: Result, e: Event)
      requires Valid() && 0 <= i
      ensures r == if i < Kept(|log|, RING) then Ok else CapInvalid
      ensures r == Ok ==> e == log[|log| - Kept(|log|, RING) + i]
    {
      hide SealOf, PointsOf;
      e := Event(0, Check, 0, 0, 0, Ok);
      if i >= count { return CapInvalid, e; }
      RingRead(ring[..], next, count, log, i);
      var start := if count == RING then next else 0;
      e := ring[(start + i) % RING];
      r := Ok;
    }

    /** The i-th oldest checkpoint kept: its seal is the fold of the log up to where it ends. */
    method GetPoint(i: int) returns (r: Result, c: Checkpoint)
      requires Valid() && 0 <= i
      ensures r == if i < Kept(|log| / INTERVAL, POINTS) then Ok else CapInvalid
      ensures r == Ok ==> var k := |log| / INTERVAL - Kept(|log| / INTERVAL, POINTS) + i;
                INTERVAL * (k + 1) <= |log| && c == PointAt(log, k)
    {
      hide SealOf;
      c := Checkpoint(0, 0, 0, SEED, 0);
      if i >= pointCount { return CapInvalid, c; }
      RingRead(points[..], pointNext, pointCount, all, i);
      var start := if pointCount == POINTS then pointNext else 0;
      c := points[(start + i) % POINTS];
      assert all[|all| - pointCount + i] == PointAt(log, |all| - pointCount + i);
      r := Ok;
    }
  }

  function Kept(n: int, size: int): int {
    if n < size then n else size
  }

  /** The checkpoints of a log, one for each whole interval. */
  ghost predicate PointsOf(all: seq<Checkpoint>, log: seq<Event>) {
    && |all| == |log| / INTERVAL
    && forall k :: 0 <= k < |all| ==> all[k] == PointAt(log, k)
  }

  lemma PointsGrow(all: seq<Checkpoint>, log: seq<Event>, e: Event)
    requires PointsOf(all, log)
    ensures var n := |log| + 1;
            if n % INTERVAL == 0 then INTERVAL * (|all| + 1) == n && forall c :: c == PointAt(log + [e], |all|) ==> PointsOf(all + [c], log + [e])
            else PointsOf(all, log + [e])
  {
    hide SealOf;
    forall k | 0 <= k < |all| ensures all[k] == PointAt(log + [e], k) {
      assert (log + [e])[..INTERVAL * (k + 1)] == log[..INTERVAL * (k + 1)];
    }
  }

  lemma SealNext(log: seq<Event>, e: Event)
    ensures SealOf(log + [e]) == Absorb(SealOf(log), e, Lost(|log| + 1))
  {
    hide Absorb;
    assert (log + [e])[..|log|] == log;
  }
}
