/** Paths as the service reads them: components between separators, each turned
    into an upper-case, space-padded 8.3 name. */
module FsPath {
  import opened Bytes
  import opened FsTree

  /** A byte of a C string before its terminator. */
  type Char8 = b: int | 1 <= b < 256 witness 32
  type Text = seq<Char8>

  const DOT := 46
  const SPACE := 32
  const COMPONENT_MAX := 15

  predicate IsSep(c: int) {
    c == 47 || c == 92
  }

  function Upper(c: Char8): (u: Byte)
    ensures u != 0
  {
    if 97 <= c <= 122 then c - 32 else c
  }

  // ---- 8.3 names ----

  /** Position of the first dot, or the length if there is none. */
  function DotAt(c: Text): (p: nat)
    ensures p <= |c| && (p < |c| ==> c[p] == DOT)
    ensures forall k :: 0 <= k < p ==> c[k] != DOT
  {
    if c == [] then 0 else if c[0] == DOT then 0 else 1 + DotAt(c[1..])
  }

  /** One to eight characters, optionally a dot and up to three more, with no
      separator and no second dot. */
  predicate IsShortName(c: Text) {
    && 1 <= DotAt(c) <= 8
    && |c| - DotAt(c) <= 4
    && (forall k :: 0 <= k < |c| ==> !IsSep(c[k]))
    && (forall k :: DotAt(c) < k < |c| ==> c[k] != DOT)
  }

  /** Byte `k` of the padded name. */
  function NameByte(c: Text, k: nat): (b: Byte) {
    var p := DotAt(c);
    if k < 8 then if k < p then Upper(c[k]) else SPACE
    else if p + k - 7 < |c| then Upper(c[p + k - 7]) else SPACE
  }

  /** The padded name, for a component that is a short name. */
  function ShortName(c: Text): (r: Option<Name>)
    ensures r.Some? <==> IsShortName(c)
    ensures r.Some? ==> |r.value| == 11 && r.value[0] != 0
    ensures r.Some? ==> forall k :: 0 <= k < 11 ==> r.value[k] == NameByte(c, k)
  {
    if IsShortName(c) then Some(seq(11, k requires 0 <= k < 11 => NameByte(c, k))) else None
  }

  lemma DotIs(c: Text, p: nat)
    requires p <= |c| && (p < |c| ==> c[p] == DOT) && forall k :: 0 <= k < p ==> c[k] != DOT
    ensures DotAt(c) == p
  {
  }

  // ---- which components share a name ----

  /** Equal, or the two cases of one letter: a to z are 97 to 122, A to Z 65 to 90. */
  predicate SameLetter(a: int, b: int) {
    a == b || (97 <= a <= 122 && b == a - 32) || (97 <= b <= 122 && a == b - 32)
  }

  predicate SameUpToCase(c: Text, d: Text) {
    |c| == |d| && forall k :: 0 <= k < |c| ==> SameLetter(c[k], d[k])
  }

  /** A component that the padding of its name leaves readable: no space, and no dot at the end. */
  predicate Readable(c: Text) {
    c != [] && c[|c| - 1] != 46 && forall k :: 0 <= k < |c| ==> c[k] != 32
  }

  /** A base of one to eight characters, or such a base, a dot and at most three
      characters, none of them a dot or a separator. */
  ghost predicate BaseAndExtension(c: Text, base: Text, ext: Text) {
    && 1 <= |base| <= 8 && |ext| <= 3 && Letters(base) && Letters(ext)
    && (c == base + [46] + ext || (ext == [] && c == base))
  }

  /** No dot, slash or backslash. */
  predicate Letters(c: Text) {
    forall k :: 0 <= k < |c| ==> c[k] != 46 && c[k] != 47 && c[k] != 92
  }

  lemma IsNamed(c: Text, base: Text, ext: Text)
    requires BaseAndExtension(c, base, ext)
    ensures ShortName(c).Some?
  {
    DotIs(c, |base|);
    assert forall k :: 0 <= k < |c| ==> c[k] == if k < |base| then base[k] else if k == |base| then 46 else ext[k - |base| - 1];
  }

  /** Exactly those components are short names. */
  lemma ShortNameIff(c: Text)
    ensures ShortName(c).Some? <==> exists base: Text, ext: Text :: BaseAndExtension(c, base, ext)
  {
    if ShortName(c).Some? {
      var p := DotAt(c);
      if p < |c| {
        assert c == c[..p] + [46] + c[p + 1..] && BaseAndExtension(c, c[..p], c[p + 1..]);
      } else {
        assert BaseAndExtension(c, c, []);
      }
    } else {
      forall base: Text, ext: Text ensures !BaseAndExtension(c, base, ext) {
        if BaseAndExtension(c, base, ext) { IsNamed(c, base, ext); }
      }
    }
  }

  /** The padding of a readable component's name starts where its base and its extension end. */
  lemma Pads(c: Text, k: nat)
    requires ShortName(c).Some? && Readable(c) && k < 11
    ensures k < 8 ==> (ShortName(c).value[k] == 32 <==> DotAt(c) <= k)
    ensures k >= 8 ==> (ShortName(c).value[k] == 32 <==> |c| <= DotAt(c) + k - 7)
  {
    var p := DotAt(c);
    assert ShortName(c).value[k] == NameByte(c, k);
    if k < p && k < 8 { assert c[k] != 32; }
    if k >= 8 && p + k - 7 < |c| { assert c[p + k - 7] != 32; }
  }

  lemma SamePads(c: Text, d: Text, k: nat)
    requires ShortName(c).Some? && ShortName(c) == ShortName(d) && Readable(c) && Readable(d) && k < 11
    ensures k < 8 ==> (DotAt(c) <= k <==> DotAt(d) <= k)
    ensures k >= 8 ==> (|c| <= DotAt(c) + k - 7 <==> |d| <= DotAt(d) + k - 7)
  {
    hide ShortName, DotAt, Readable;
    Pads(c, k);
    Pads(d, k);
  }

  lemma ShortNameFits(c: Text)
    requires ShortName(c).Some? && Readable(c)
    ensures 1 <= DotAt(c) <= 8 && DotAt(c) <= |c| <= DotAt(c) + 4 && |c| != DotAt(c) + 1
  {
  }

  /** One name for two readable components: the bases are as long, and so are the extensions. */
  lemma SameDot(c: Text, d: Text)
    requires ShortName(c).Some? && ShortName(c) == ShortName(d) && Readable(c) && Readable(d)
    ensures DotAt(c) == DotAt(d) && |c| == |d|
  {
    hide ShortName, DotAt, IsShortName;
    SamePads(c, d, if DotAt(c) < 8 then DotAt(c) else 0);
    SamePads(c, d, if DotAt(d) < 8 then DotAt(d) else 0);
    SamePads(c, d, 8);
    SamePads(c, d, 9);
    SamePads(c, d, 10);
    ShortNameFits(c);
    ShortNameFits(d);
  }

  /** Two readable components get one name exactly when they are equal up to case. */
  lemma SameNameIff(c: Text, d: Text)
    requires ShortName(c).Some? && ShortName(d).Some? && Readable(c) && Readable(d)
    ensures ShortName(c) == ShortName(d) <==> SameUpToCase(c, d)
  {
    if ShortName(c) == ShortName(d) {
      SameDot(c, d);
      forall k | 0 <= k < |c| ensures SameLetter(c[k], d[k]) {
        var p := DotAt(c);
        if k < p { assert NameByte(c, k) == NameByte(d, k); }
        if k > p { assert NameByte(c, k + 7 - p) == NameByte(d, k + 7 - p); }
      }
    }
    if SameUpToCase(c, d) {
      DotIs(d, DotAt(c));
      assert forall k :: 0 <= k < 11 ==> NameByte(c, k) == NameByte(d, k);
      assert ShortName(c).value == ShortName(d).value;
    }
  }

  /** A dot at the end, or a space at the end of the base, is lost in the name. */
  lemma UnreadableNames()
    ensures ShortName([65, 46]) == ShortName([65]) == ShortName([65, 32]) && ShortName([65]).Some?
  {
    var a: Text, b: Text, c: Text := [65, 46], [65], [65, 32];
    DotIs(a, 1);
    DotIs(b, 1);
    DotIs(c, 2);
    assert forall k :: 0 <= k < 11 ==> NameByte(a, k) == NameByte(b, k) == NameByte(c, k);
    assert ShortName(a).value == ShortName(b).value == ShortName(c).value;
  }

  /** A one-byte component can be the deletion mark, and it is a valid name. */
  lemma MarkedName()
    ensures Components([0xE5], 0) == [[0xE5]]
    ensures ShortName([0xE5]).Some? && ShortName([0xE5]).value[0] == 0xE5
  {
    var p: Text := [0xE5];
    assert SkipSeps(p, 0) == 0 && ComponentEnd(p, 0) == 1 && p[0..1] == p && Components(p, 1) == [];
    DotIs(p, 1);
    assert NameByte(p, 0) == 0xE5;
  }

  method ParseName(c: Text) returns (r: Option<Name>)
    ensures r == ShortName(c)
  {
    hide DotAt;
    if |c| == 0 {
      return None;
    }
    var name := new Byte[11](_ => SPACE);
    var src, dstName, dstExt := 0, 0, 0;
    var seenDot := false;
    while src < |c|
      invariant 0 <= src <= |c|
      invariant forall k :: 0 <= k < src ==> !IsSep(c[k])
      invariant !seenDot ==> dstName == src && dstExt == 0 && forall k :: 0 <= k < src ==> c[k] != DOT
      invariant seenDot ==> dstName < src && c[dstName] == DOT && dstExt == src - dstName - 1
      invariant forall k :: 0 <= k < src && k != dstName ==> c[k] != DOT
      invariant 0 <= dstName <= 8 && 0 <= dstExt <= 3
      invariant forall k :: 0 <= k < 8 ==> name[k] == if k < dstName then Upper(c[k]) else SPACE
      invariant forall k :: 8 <= k < 11 ==> name[k] == if k < 8 + dstExt then Upper(c[dstName + k - 7]) else SPACE
    {
      var ch := c[src];
      src := src + 1;
      if IsSep(ch) {
        return None;
      }
      if ch == DOT {
        if seenDot {
          DotIs(c, dstName);
          return None;
        }
        seenDot := true;
      } else if !seenDot {
        if dstName >= 8 {
          assert forall k :: 0 <= k <= 8 ==> c[k] != DOT;
          assert DotAt(c) > 8;
          return None;
        }
        name[dstName] := Upper(ch);
        dstName := dstName + 1;
      } else {
        if dstExt >= 3 {
          DotIs(c, dstName);
          return None;
        }
        name[8 + dstExt] := Upper(ch);
        dstExt := dstExt + 1;
      }
    }
    DotIs(c, dstName);
    if dstName > 0 {
      var s := name[..];
      assert IsShortName(c);
      assert s == ShortName(c).value;
      r := Some(s);
    } else {
      r := None;
    }
  }

  // ---- components ----

  /** First position from `i` on that is not a separator. */
  function SkipSeps(p: Text, i: nat): (j: nat)
    requires i <= |p|
    ensures i <= j <= |p| && (j < |p| ==> !IsSep(p[j]))
    ensures forall k :: i <= k < j ==> IsSep(p[k])
    decreases |p| - i
  {
    if i < |p| && IsSep(p[i]) then SkipSeps(p, i + 1) else i
  }

  /** First position from `i` on that is a separator, or the end. */
  function ComponentEnd(p: Text, i: nat): (j: nat)
    requires i <= |p|
    ensures i <= j <= |p| && (j < |p| ==> IsSep(p[j]))
    ensures forall k :: i <= k < j ==> !IsSep(p[k])
    decreases |p| - i
  {
    if i < |p| && !IsSep(p[i]) then ComponentEnd(p, i + 1) else i
  }

  /** The components of a path from `i` on. One longer than the buffer ends the path. */
  function Components(p: Text, i: nat): (cs: seq<Text>)
    requires i <= |p|
    decreases |p| - i
  {
    var s := SkipSeps(p, i);
    var e := ComponentEnd(p, s);
    if s == |p| || e - s > COMPONENT_MAX then [] else [p[s..e]] + Components(p, e)
  }

  method NextComponent(p: Text, i: nat) returns (c: Option<Text>, next: nat)
    requires i <= |p|
    ensures i <= next <= |p|
    ensures c.None? ==> Components(p, i) == []
    ensures c.Some? ==> i < next && Components(p, i) == [c.value] + Components(p, next)
  {
    var s := i;
    while s < |p| && IsSep(p[s])
      invariant i <= s <= |p| && SkipSeps(p, i) == SkipSeps(p, s)
    {
      s := s + 1;
    }
    if s == |p| {
      return None, s;
    }
    var out: seq<Char8> := [];
    var e := s;
    while e < |p| && !IsSep(p[e])
      invariant s <= e <= |p| && ComponentEnd(p, s) == ComponentEnd(p, e)
      invariant out == p[s..e] && |out| <= COMPONENT_MAX
    {
      if |out| + 1 >= COMPONENT_MAX + 1 {
        return None, i;
      }
      out := out + [p[e]];
      e := e + 1;
    }
    return Some(out), e;
  }

  // ---- what a path spells ----

  /** Separators and components in turn: one gap before each component and one at the end. */
  function Spelled(gaps: seq<Text>, cs: seq<Text>): Text
    requires |gaps| == |cs| + 1
    decreases |cs|
  {
    if cs == [] then gaps[0] else gaps[0] + cs[0] + Spelled(gaps[1..], cs[1..])
  }

  /** Gaps are slashes and backslashes, and only the first and the last may be empty. */
  ghost predicate Gaps(gaps: seq<Text>) {
    && (forall k :: 0 < k < |gaps| - 1 ==> gaps[k] != [])
    && forall k, i :: 0 <= k < |gaps| && 0 <= i < |gaps[k]| ==> gaps[k][i] == 47 || gaps[k][i] == 92
  }

  ghost predicate Parts(cs: seq<Text>) {
    && (forall k :: 0 <= k < |cs| ==> cs[k] != [])
    && forall k, i :: 0 <= k < |cs| && 0 <= i < |cs[k]| ==> cs[k][i] != 47 && cs[k][i] != 92
  }

  /** From `i`, separators up to `s` and a component from there to `e`. */
  ghost predicate Reads(p: Text, i: nat, s: nat, e: nat) {
    && i <= s <= e <= |p| && (s == |p| || (s < e && (e < |p| ==> IsSep(p[e]))))
    && (forall k :: i <= k < s ==> IsSep(p[k])) && forall k :: s <= k < e ==> !IsSep(p[k])
  }

  lemma ReadIs(p: Text, i: nat, s: nat, e: nat)
    requires Reads(p, i, s, e)
    ensures SkipSeps(p, i) == s && (s < |p| ==> ComponentEnd(p, s) == e)
  {
    assert s < |p| ==> !IsSep(p[s]);
    assert SkipSeps(p, i) >= s && SkipSeps(p, i) <= s;
    if s < |p| { assert ComponentEnd(p, s) >= e && ComponentEnd(p, s) <= e; }
  }

  lemma NextIs(p: Text, i: nat, s: nat, e: nat)
    requires Reads(p, i, s, e)
    ensures Components(p, i) == if s == |p| || e - s > 15 then [] else [p[s..e]] + Components(p, e)
  {
    hide SkipSeps, ComponentEnd;
    ReadIs(p, i, s, e);
  }

  lemma ReadSome(p: Text, i: nat)
    requires i <= |p|
    ensures var s := SkipSeps(p, i); Reads(p, i, s, ComponentEnd(p, s))
  {
    hide SkipSeps, ComponentEnd;
  }

  lemma ReadShifted(pre: Text, q: Text, i: nat, s: nat, e: nat)
    requires Reads(q, i, s, e)
    ensures Reads(pre + q, |pre| + i, |pre| + s, |pre| + e) && (pre + q)[|pre| + s..|pre| + e] == q[s..e]
  {
    var p := pre + q;
    assert forall k :: |pre| <= k < |p| ==> p[k] == q[k - |pre|];
    assert p[|pre| + s..|pre| + e] == q[s..e];
  }

  lemma {:induction false} Shifted(pre: Text, q: Text, i: nat)
    requires i <= |q|
    ensures Components(pre + q, |pre| + i) == Components(q, i)
    decreases |q| - i
  {
    hide SkipSeps, ComponentEnd, Components, Reads;
    var s := SkipSeps(q, i);
    var e := ComponentEnd(q, s);
    ReadSome(q, i);
    ReadShifted(pre, q, i, s, e);
    NextIs(q, i, s, e);
    NextIs(pre + q, |pre| + i, |pre| + s, |pre| + e);
    if s < |q| && i < e { Shifted(pre, q, e); }
  }

  /** A gap and a component at the start of a text, before a separator or the end. */
  lemma Leading(g: Text, c: Text, rest: Text)
    requires c != [] && (rest == [] || IsSep(rest[0]))
    requires (forall k :: 0 <= k < |g| ==> IsSep(g[k])) && forall k :: 0 <= k < |c| ==> !IsSep(c[k])
    ensures Components(g + c + rest, 0) == if |c| > 15 then [] else [c] + Components(rest, 0)
  {
    hide Components;
    var q := g + c + rest;
    assert Reads(q, 0, |g|, |g + c|) && q[|g|..|g + c|] == c by {
      assert forall k :: |g| <= k < |g + c| ==> q[k] == c[k - |g|];
    }
    NextIs(q, 0, |g|, |g + c|);
    Shifted(g + c, rest, 0);
  }

  /** A path is read as the components it spells, up to the first longer than 15 characters. */
  lemma {:induction false} Splits(gaps: seq<Text>, cs: seq<Text>, n: nat)
    requires |gaps| == |cs| + 1 && Gaps(gaps) && Parts(cs)
    requires n <= |cs| && (forall k :: 0 <= k < n ==> |cs[k]| <= 15) && (n < |cs| ==> |cs[n]| > 15)
    ensures Components(Spelled(gaps, cs), 0) == cs[..n]
    decreases |cs|
  {
    hide Components;
    if cs == [] {
      NextIs(gaps[0], 0, |gaps[0]|, |gaps[0]|);
    } else {
      RestStarts(gaps, cs);
      Leading(gaps[0], cs[0], Spelled(gaps[1..], cs[1..]));
      if n > 0 {
        Splits(gaps[1..], cs[1..], n - 1);
        assert [cs[0]] + cs[1..][..n - 1] == cs[..n];
      }
    }
  }

  /** What follows a component starts with a separator or is empty. */
  lemma RestStarts(gaps: seq<Text>, cs: seq<Text>)
    requires |gaps| == |cs| + 1 && Gaps(gaps) && cs != []
    ensures var rest := Spelled(gaps[1..], cs[1..]); rest == [] || IsSep(rest[0])
  {
    var rest, g := Spelled(gaps[1..], cs[1..]), gaps[1];
    assert cs[1..] == [] ==> rest == g;
    if g != [] { assert rest[0] == g[0]; }
  }
}
