/** Table handles: a slot index in the low half and the slot's generation in the
    high half. Ports and processes are both named this way. */
module Handles {

  const TABLE_MAX := 16
  const GENERATIONS := 65535

  function Encode(index: int, gen: int): int {
    gen * 0x1_0000 + index
  }

  function IndexOf(h: int): int {
    h % 0x1_0000
  }

  function GenOf(h: int): int {
    h / 0x1_0000 % 0x1_0000
  }

  /** The 16-bit counter after one use; zero is skipped. */
  function NextGen(g: int): int {
    var n := (g + 1) % 0x1_0000;
    if n == 0 then 1 else n
  }

  datatype Slot = Slot(live: bool, gen: int)

  /** The slot a handle names, or -1 when it is malformed or stale. */
  function Resolve(slots: seq<Slot>, h: int): int {
    if 0 < h < 0x1_0000_0000 && IndexOf(h) < TABLE_MAX && IndexOf(h) < |slots|
       && slots[IndexOf(h)].live && slots[IndexOf(h)].gen == GenOf(h)
    then IndexOf(h) else -1
  }

  ghost predicate GenOk(g: int) {
    1 <= g <= GENERATIONS
  }

  ghost predicate Ok(slots: seq<Slot>) {
    |slots| == TABLE_MAX && forall i :: 0 <= i < |slots| ==> GenOk(slots[i].gen)
  }

  /** A handle made for a live slot resolves to it, is not the null handle, and
      no other handle in range resolves to the same slot. */
  lemma ResolveEncode(slots: seq<Slot>, i: int, h: int)
    requires Ok(slots) && 0 <= i < TABLE_MAX && slots[i].live
    ensures Encode(i, slots[i].gen) != 0 && Resolve(slots, Encode(i, slots[i].gen)) == i
    ensures Resolve(slots, h) == i <==> h == Encode(i, slots[i].gen)
    ensures Encode(i, slots[i].gen) == 0x1_0000 * slots[i].gen + i
  {
    var g := slots[i].gen;
    var e := Encode(i, g);
    assert e % 0x1_0000 == i && e / 0x1_0000 == g;
    assert 0 <= h < 0x1_0000_0000 ==> h == Encode(IndexOf(h), GenOf(h));
  }

  // ---- reuse of a slot ----

  /** What can happen to one slot. Freeing advances the generation; a reset of the
      table advances it or not, and leaves the slot free. */
  datatype Event = Alloc | Free | Reset(bump: bool)

  function Apply(s: Slot, e: Event): Slot {
    match e
    case Alloc => s.(live := true)
    case Free => Slot(false, NextGen(s.gen))
    case Reset(bump) => Slot(false, if bump then NextGen(s.gen) else s.gen)
  }

  function ApplyAll(s: Slot, es: seq<Event>): Slot
    decreases |es|
  {
    if es == [] then s else ApplyAll(Apply(s, es[0]), es[1..])
  }

  function Bumps(es: seq<Event>): nat {
    if es == [] then 0 else (if es[0].Free? || (es[0].Reset? && es[0].bump) then 1 else 0) + Bumps(es[1..])
  }

  /** The generation after any number of advances, in closed form. */
  lemma {:induction false} GenAfter(s: Slot, es: seq<Event>)
    requires GenOk(s.gen)
    ensures ApplyAll(s, es).gen == 1 + (s.gen - 1 + Bumps(es)) % GENERATIONS
    decreases |es|
  {
    if es == [] {
      assert (s.gen - 1) % GENERATIONS == s.gen - 1;
    } else {
      var t := Apply(s, es[0]);
      GenAfter(t, es[1..]);
      if t.gen != s.gen {
        Shift(s.gen - 1, t.gen - 1, Bumps(es[1..]));
      }
    }
  }

  lemma Shift(g: int, g': int, n: nat)
    requires 0 <= g < GENERATIONS && g' == (g + 1) % GENERATIONS
    ensures (g' + n) % GENERATIONS == (g + 1 + n) % GENERATIONS
  {
  }

  /** After a handle's slot is freed, the handle is refused until the generation has
      advanced exactly 65535 times (or a multiple), whatever is allocated meanwhile. */
  lemma StaleUntilWrap(slots: seq<Slot>, later: seq<Slot>, h: int, es: seq<Event>)
    requires Ok(slots) && Ok(later) && Resolve(slots, h) >= 0
    requires later[IndexOf(h)] == ApplyAll(slots[IndexOf(h)], es)
    ensures Resolve(later, h) >= 0 <==> later[IndexOf(h)].live && Bumps(es) % GENERATIONS == 0
  {
    var i := IndexOf(h);
    GenAfter(slots[i], es);
    Wrap(slots[i].gen - 1, Bumps(es));
  }

  lemma Wrap(g: int, n: nat)
    requires 0 <= g < GENERATIONS
    ensures (g + n) % GENERATIONS == g <==> n % GENERATIONS == 0
  {
    var q, r := n / GENERATIONS, n % GENERATIONS;
    assert n == q * GENERATIONS + r;
    assert (g + n) % GENERATIONS == (g + r) % GENERATIONS;
  }
}
