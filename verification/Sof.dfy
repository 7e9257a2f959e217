/** The SOF container: header, metadata entries, payload and an optional signature section. */
module Sof {
  import opened Bytes

  const HEADER := 36
  const VALUE_MAX := 64
  const ENTRIES_MAX := 12
  const WORD := 0x1_0000_0000

  datatype Code = Ok | InvalidMagic | InvalidVersion | InvalidType | InvalidSize | InvalidMeta | BufferTooSmall | NoPayload | SignatureInvalid

  const BIN := 1
  const LIB := 2
  const APP := 3

  function Magic(): seq<Byte> {
    [0x53, 0x45, 0x4F, 0x53]
  }

  // ---- what is built ----

  /** A metadata entry: key and string. */
  datatype Entry = Entry(key: Byte, value: seq<Byte>)

  /** Build parameters; absent strings are None. */
  datatype Params = Params(fileType: int, name: Option<seq<Byte>>, description: Option<seq<Byte>>, author: Option<seq<Byte>>,
                           version: Option<seq<Byte>>, date: Option<seq<Byte>>, icon: Option<seq<Byte>>,
                           syscall: Option<seq<Byte>>, payload: seq<Byte>)

  function Entered(key: Byte, v: Option<seq<Byte>>): seq<Entry> {
    if v.Some? then [Entry(key, v.value)] else []
  }

  /** The entries in the order they are written. */
  function Entries(p: Params): (es: seq<Entry>)
    ensures |es| <= 7
  {
    Entered(1, p.name) + Entered(2, p.description) + Entered(3, p.author) + Entered(4, p.version)
    + Entered(5, p.date) + Entered(6, p.icon) + Entered(0x20, p.syscall)
  }

  function Clip(n: int, m: int): int {
    if n < m then n else m
  }

  /** One entry on disk: at most 255 bytes of the string. */
  function Tlv(e: Entry): (s: seq<Byte>)
    ensures |s| == 2 + Clip(|e.value|, 255)
  {
    [e.key, Clip(|e.value|, 255)] + e.value[..Clip(|e.value|, 255)]
  }

  function Tlvs(es: seq<Entry>): seq<Byte> {
    if es == [] then [] else Tlv(es[0]) + Tlvs(es[1..])
  }

  /** The size set aside for the entries: the whole strings. */
  function MetaSize(es: seq<Entry>): (n: nat)
    ensures n >= |Tlvs(es)|
  {
    if es == [] then 0 else 2 + |es[0].value| + MetaSize(es[1..])
  }

  function Head(fileType: int, total: nat, count: nat, metaSize: nat, payloadAt: nat, payloadSize: nat, sigAt: nat, sigSize: nat): (s: seq<Byte>)
    requires 0 <= fileType < 256
    ensures |s| == HEADER
  {
    Magic() + [1, fileType] + Le16(0) + Le32(total) + Le32(HEADER) + Le16(count) + Le16(metaSize)
    + Le32(payloadAt) + Le32(payloadSize) + Le32(sigAt) + Le32(sigSize)
  }

  function PayloadAt(p: Params): nat {
    HEADER + MetaSize(Entries(p))
  }

  function Total(p: Params): nat {
    PayloadAt(p) + |p.payload|
  }

  /** Entries, the gap that over-long strings leave, and the payload. */
  function Body(p: Params): (s: seq<Byte>)
    ensures HEADER + |s| == Total(p)
  {
    var es := Entries(p);
    Tlvs(es) + Blank(MetaSize(es) - |Tlvs(es)|) + p.payload
  }

  function Image(p: Params): (s: seq<Byte>)
    requires 0 <= p.fileType < 256
    ensures |s| == Total(p)
  {
    Head(p.fileType, Total(p), |Entries(p)|, MetaSize(Entries(p)), PayloadAt(p), |p.payload|, 0, 0) + Body(p)
  }

  const SECTION := 196

  /** The same file with the signature section after it. */
  function SignedImage(p: Params, section: seq<Byte>): (s: seq<Byte>)
    requires 0 <= p.fileType < 256 && |section| == SECTION
    ensures |s| == Total(p) + SECTION
  {
    Head(p.fileType, Total(p) + SECTION, |Entries(p)|, MetaSize(Entries(p)), PayloadAt(p), |p.payload|, Total(p), SECTION) + Body(p) + section
  }

  // ---- what is read ----

  /** A parsed entry: the length on disk and at most 63 bytes of the value. */
  datatype Meta = Meta(key: Byte, len: int, value: seq<Byte>)

  datatype Fields = Fields(fileType: int, total: nat, metaAt: nat, count: nat, metaSize: nat, payloadAt: nat, payloadSize: nat, sigAt: nat, sigSize: nat)

  function FieldsOf(d: seq<Byte>): Fields
    requires |d| >= HEADER
  {
    Fields(d[5], U32(d, 8), U32(d, 12), U16(d, 16), U16(d, 18), U32(d, 20), U32(d, 24), U32(d, 28), U32(d, 32))
  }

  function HeaderCode(d: seq<Byte>): Code {
    if |d| < HEADER then InvalidSize
    else if d[..4] != Magic() then InvalidMagic
    else if d[4] != 1 then InvalidVersion
    else if d[5] != BIN && d[5] != LIB && d[5] != APP then InvalidType
    else if U32(d, 8) > |d| then InvalidSize
    else Ok
  }

  /** The first n entries from a position on, or nothing when one runs past the data. */
  function ReadMetas(d: seq<Byte>, at: nat, n: nat): Option<seq<Meta>>
    decreases n
  {
    if n == 0 then Some([])
    else if at + 2 > |d| || at + 2 + d[at + 1] > |d| then None
    else
      var len := d[at + 1];
      var rest := ReadMetas(d, at + 2 + len, n - 1);
      if rest.None? then None
      else Some([Meta(d[at], len, d[at + 2..at + 2 + Clip(len, VALUE_MAX - 1)])] + rest.value)
  }

  datatype Parsed = Parsed(f: Fields, metas: seq<Meta>, signed: bool)

  /** What parsing answers: the checks in their order, with 32-bit sums. */
  function ParseCode(d: seq<Byte>): Code {
    if HeaderCode(d) != Ok then HeaderCode(d)
    else
      var f := FieldsOf(d);
      if (f.payloadAt + f.payloadSize) % WORD > |d| then InvalidSize
      else if f.payloadSize == 0 then NoPayload
      else if (f.metaAt + f.metaSize) % WORD > |d| then InvalidSize
      else if ReadMetas(d, f.metaAt, Clip(f.count, ENTRIES_MAX)).None? then InvalidMeta
      else Ok
  }

  function ParsedOf(d: seq<Byte>): Parsed
    requires ParseCode(d) == Ok
  {
    var f := FieldsOf(d);
    Parsed(f, ReadMetas(d, f.metaAt, Clip(f.count, ENTRIES_MAX)).value, f.sigAt != 0 && f.sigSize != 0)
  }

  /** What a stored entry reads back as. */
  function Stored(e: Entry): Meta {
    Meta(e.key, Clip(|e.value|, 255), e.value[..Clip(|e.value|, VALUE_MAX - 1)])
  }

  function StoredAll(es: seq<Entry>): (r: seq<Meta>)
    ensures |r| == |es|
  {
    if es == [] then [] else [Stored(es[0])] + StoredAll(es[1..])
  }

  lemma EntryReads(d: seq<Byte>, at: nat, e: Entry)
    requires at + |Tlv(e)| <= |d| && d[at..at + |Tlv(e)|] == Tlv(e)
    ensures d[at] == e.key && d[at + 1] == Clip(|e.value|, 255)
    ensures d[at + 2..at + 2 + Clip(|e.value|, VALUE_MAX - 1)] == Stored(e).value
  {
    var n, k := |Tlv(e)|, Clip(|e.value|, VALUE_MAX - 1);
    var s := d[at..at + n];
    assert d[at] == s[0] && d[at + 1] == s[1];
    forall i | 0 <= i < k ensures d[at + 2 + i] == e.value[i] {
      assert s[2 + i] == Tlv(e)[2 + i];
    }
  }

  /** Entries are read back wherever they lie. */
  lemma {:induction false} MetasRoundTrip(d: seq<Byte>, at: nat, es: seq<Entry>)
    requires at + |Tlvs(es)| <= |d| && d[at..at + |Tlvs(es)|] == Tlvs(es)
    ensures ReadMetas(d, at, |es|) == Some(StoredAll(es))
    decreases |es|
  {
    hide Tlv;
    if es != [] {
      var e, t, n := es[0], Tlvs(es), |Tlv(es[0])|;
      assert t[..n] == Tlv(e) && t[n..] == Tlvs(es[1..]);
      assert d[at..at + n] == t[..n] && d[at + n..at + |t|] == t[n..];
      EntryReads(d, at, e);
      MetasRoundTrip(d, at + n, es[1..]);
    }
  }

  /** The header fields read back. */
  lemma HeadReads(d: seq<Byte>, fileType: int, total: nat, count: nat, metaSize: nat, payloadAt: nat, payloadSize: nat, sigAt: nat, sigSize: nat)
    requires 0 <= fileType < 256 && |d| >= HEADER
    requires d[..HEADER] == Head(fileType, total, count, metaSize, payloadAt, payloadSize, sigAt, sigSize)
    ensures d[..4] == Magic() && d[4] == 1
    ensures FieldsOf(d) == Fields(fileType, total % WORD, HEADER, count % 0x1_0000, metaSize % 0x1_0000, payloadAt % WORD, payloadSize % WORD,
                                  sigAt % WORD, sigSize % WORD)
  {
    hide U16, U32, Le16, Le32;
    var h := d[..HEADER];
    assert d[..4] == h[..4];
    assert d[4] == h[4] && d[5] == h[5];
    HeadParts(fileType, total, count, metaSize, payloadAt, payloadSize, sigAt, sigSize);
    assert d[8..12] == h[8..12] && d[12..16] == h[12..16] && d[16..18] == h[16..18] && d[18..20] == h[18..20];
    assert d[20..24] == h[20..24] && d[24..28] == h[24..28] && d[28..32] == h[28..32] && d[32..36] == h[32..36];
    At32(d, 8, total);
    At32(d, 12, HEADER);
    At16(d, 16, count);
    At16(d, 18, metaSize);
    At32(d, 20, payloadAt);
    At32(d, 24, payloadSize);
    At32(d, 28, sigAt);
    At32(d, 32, sigSize);
  }

  lemma HeadParts(fileType: int, total: nat, count: nat, metaSize: nat, payloadAt: nat, payloadSize: nat, sigAt: nat, sigSize: nat)
    requires 0 <= fileType < 256
    ensures var h := Head(fileType, total, count, metaSize, payloadAt, payloadSize, sigAt, sigSize);
            && h[8..12] == Le32(total) && h[12..16] == Le32(HEADER) && h[16..18] == Le16(count) && h[18..20] == Le16(metaSize)
            && h[20..24] == Le32(payloadAt) && h[24..28] == Le32(payloadSize) && h[28..32] == Le32(sigAt) && h[32..36] == Le32(sigSize)
  {
    hide Le16, Le32, U16, U32;
  }

  lemma At32(d: seq<Byte>, at: nat, v: nat)
    requires at + 4 <= |d| && d[at..at + 4] == Le32(v)
    ensures U32(d, at) == v % WORD
  {
    var s := d[at..at + 4];
    assert U32(s, 0) == U32(d, at);
  }

  lemma At16(d: seq<Byte>, at: nat, v: nat)
    requires at + 2 <= |d| && d[at..at + 2] == Le16(v)
    ensures U16(d, at) == v % 0x1_0000
  {
    var s := d[at..at + 2];
    assert s[0] == d[at] && s[1] == d[at + 1];
  }

  // ---- the round trip ----

  /** A file whose payload and place of the payload fit the header's 32-bit fields. */
  predicate Buildable(p: Params) {
    p.payload != [] && (p.fileType == BIN || p.fileType == LIB) && PayloadAt(p) < WORD && |p.payload| < WORD
  }

  /** A built or signed file, of either kind, starting with its header. */
  lemma LayoutReads(p: Params, d: seq<Byte>, sigAt: nat, sigSize: nat)
    requires Buildable(p) && Total(p) <= |d| && sigAt < WORD && sigSize < WORD
    requires d[..HEADER] == Head(p.fileType, |d|, |Entries(p)|, MetaSize(Entries(p)), PayloadAt(p), |p.payload|, sigAt, sigSize)
    requires d[HEADER..Total(p)] == Body(p)
    ensures ParseCode(d) == Ok
    ensures var r := ParsedOf(d);
            && r.f.fileType == p.fileType && r.metas == StoredAll(Entries(p))
            && r.f.payloadAt + r.f.payloadSize <= |d| && d[r.f.payloadAt..r.f.payloadAt + r.f.payloadSize] == p.payload
            && r.f.sigAt == sigAt && r.f.sigSize == sigSize
  {
    hide Head, FieldsOf, ReadMetas, Entries, Magic, MetaSize, Tlvs;
    var es := Entries(p);
    LayoutFields(p, d, sigAt, sigSize);
    Less(PayloadAt(p) + |p.payload|, WORD);
    Less(HEADER + FieldsOf(d).metaSize, WORD);
    BodyParts(p, d);
    MetasRoundTrip(d, HEADER, es);
  }

  lemma LayoutFields(p: Params, d: seq<Byte>, sigAt: nat, sigSize: nat)
    requires Buildable(p) && Total(p) <= |d| && sigAt < WORD && sigSize < WORD
    requires d[..HEADER] == Head(p.fileType, |d|, |Entries(p)|, MetaSize(Entries(p)), PayloadAt(p), |p.payload|, sigAt, sigSize)
    ensures var f := FieldsOf(d);
            && f.(metaSize := 0) == Fields(p.fileType, |d| % WORD, HEADER, |Entries(p)|, 0, PayloadAt(p), |p.payload|, sigAt, sigSize)
            && f.metaSize <= MetaSize(Entries(p)) && HeaderCode(d) == Ok
  {
    hide Head, Entries, Magic, MetaSize, U16, U32;
    var es := Entries(p);
    HeadReads(d, p.fileType, |d|, |es|, MetaSize(es), PayloadAt(p), |p.payload|, sigAt, sigSize);
    Less(MetaSize(es), 0x1_0000);
    Less(|es|, 0x1_0000);
    Less(|d|, WORD);
    Less(PayloadAt(p), WORD);
    Less(|p.payload|, WORD);
    Less(sigAt, WORD);
    Less(sigSize, WORD);
  }

  lemma Less(n: nat, m: nat)
    requires m > 0
    ensures n % m <= n && (n < m ==> n % m == n)
  {
  }

  lemma BodyParts(p: Params, d: seq<Byte>)
    requires Total(p) <= |d| && d[HEADER..Total(p)] == Body(p)
    ensures var t := Tlvs(Entries(p)); HEADER + |t| <= |d| && d[HEADER..HEADER + |t|] == t
    ensures d[PayloadAt(p)..Total(p)] == p.payload
  {
    hide Entries, Tlvs;
    var es, b := Entries(p), Body(p);
    var t := Tlvs(es);
    assert d[HEADER..HEADER + |t|] == b[..|t|];
    assert d[PayloadAt(p)..Total(p)] == b[MetaSize(es)..];
  }

  /** Parsing what was built gives the type, the entries and the payload back. */
  lemma BuildParse(p: Params)
    requires Buildable(p)
    ensures ParseCode(Image(p)) == Ok
    ensures var d := Image(p); var r := ParsedOf(d);
            && r.f.fileType == p.fileType && r.metas == StoredAll(Entries(p)) && !r.signed
            && r.f.payloadAt + r.f.payloadSize <= |d| && d[r.f.payloadAt..r.f.payloadAt + r.f.payloadSize] == p.payload
  {
    hide Head, Body, ParseCode, Entries, MetaSize;
    var d := Image(p);
    LayoutReads(p, d, 0, 0);
  }

  /** The payload comes back exactly when its length fits the header's field. */
  lemma PayloadWhole(p: Params)
    requires p.payload != [] && (p.fileType == BIN || p.fileType == LIB) && PayloadAt(p) < WORD
    ensures |p.payload| < WORD <==>
              var d := Image(p); ParseCode(d) == Ok && var f := ParsedOf(d).f;
              f.payloadAt + f.payloadSize <= |d| && d[f.payloadAt..f.payloadAt + f.payloadSize] == p.payload
  {
    hide Head, Body, Entries, MetaSize, ReadMetas, FieldsOf;
    var d := Image(p);
    if |p.payload| < WORD {
      BuildParse(p);
    } else {
      HeadReads(d, p.fileType, Total(p), |Entries(p)|, MetaSize(Entries(p)), PayloadAt(p), |p.payload|, 0, 0);
    }
  }

  /** What parsing has made sure of. The payload lies in the file if the 32-bit sum of its
      place and size does not wrap around, and in a file below 4 gigabytes only then. */
  lemma PayloadInside(d: seq<Byte>)
    requires ParseCode(d) == Ok
    ensures var f := FieldsOf(d); var end := f.payloadAt + f.payloadSize;
            (end < WORD ==> end <= |d|) && (|d| < WORD ==> (end <= |d| <==> end < WORD))
  {
    hide ReadMetas, Magic;
    var f := FieldsOf(d);
    Less(f.payloadAt + f.payloadSize, WORD);
  }

  /** A file of 36 bytes that parses, with a payload that would start at 2^32 - 1. */
  lemma PayloadOutside(fileType: int)
    requires fileType == BIN || fileType == LIB
    ensures var d := Head(fileType, HEADER, 0, 0, WORD - 1, 1, 0, 0);
            ParseCode(d) == Ok && FieldsOf(d).payloadAt == WORD - 1 > |d|
  {
    hide Head, FieldsOf, Magic;
    var d := Head(fileType, HEADER, 0, 0, WORD - 1, 1, 0, 0);
    assert d[..HEADER] == d;
    HeadReads(d, fileType, HEADER, 0, 0, WORD - 1, 1, 0, 0);
    Unfold(d);
  }

  lemma Unfold(d: seq<Byte>)
    requires |d| >= HEADER
    ensures U32(d, 8) == FieldsOf(d).total && d[5] == FieldsOf(d).fileType && ReadMetas(d, FieldsOf(d).metaAt, 0) == Some([])
  {
  }

  lemma SignParse(p: Params, section: seq<Byte>)
    requires Buildable(p) && Total(p) < WORD && |section| == SECTION
    ensures ParseCode(SignedImage(p, section)) == Ok
    ensures var d := SignedImage(p, section); var r := ParsedOf(d);
            && r.f.fileType == p.fileType && r.metas == StoredAll(Entries(p)) && r.signed
            && r.f.payloadAt + r.f.payloadSize <= |d| && d[r.f.payloadAt..r.f.payloadAt + r.f.payloadSize] == p.payload
            && r.f.sigAt + SECTION == |d| && r.f.sigSize == SECTION && d[r.f.sigAt..] == section
  {
    hide Head, Body, ParseCode, Entries, MetaSize;
    var d := SignedImage(p, section);
    assert d[HEADER..Total(p)] == Body(p);
    LayoutReads(p, d, Total(p), SECTION);
  }

  /** An entry comes back whole exactly when its string is at most 63 bytes; of a longer one the
      first 63 bytes come back, with its length up to 255. */
  lemma StoredWhole(e: Entry)
    ensures Stored(e) == Meta(e.key, |e.value|, e.value) <==> |e.value| <= 63
    ensures |e.value| > 63 ==> Stored(e) == Meta(e.key, if |e.value| < 255 then |e.value| else 255, e.value[..63])
  {
    if |e.value| <= VALUE_MAX - 1 { assert e.value[..|e.value|] == e.value; }
    assert |e.value| > VALUE_MAX - 1 ==> |Stored(e).value| < |e.value|;
  }

  // ---- the format, byte by byte ----

  /** Parsing accepts exactly these bytes: magic SEOS, version 1, type 1 to 3, a total size within the
      data, a payload and an entry area that end within it by their 32-bit sums, a payload that
      is not empty, and at most twelve entries that can be read. */
  lemma ParseIff(d: seq<Byte>)
    ensures ParseCode(d) == Ok <==>
            && |d| >= 36 && d[..6] in {[0x53, 0x45, 0x4F, 0x53, 1, 1], [0x53, 0x45, 0x4F, 0x53, 1, 2], [0x53, 0x45, 0x4F, 0x53, 1, 3]}
            && U32(d, 8) <= |d| && U32(d, 24) != 0
            && (U32(d, 20) + U32(d, 24)) % 0x1_0000_0000 <= |d| && (U32(d, 12) + U16(d, 18)) % 0x1_0000_0000 <= |d|
            && ReadMetas(d, U32(d, 12), if U16(d, 16) < 12 then U16(d, 16) else 12).Some?
  {
    hide ReadMetas, U16, U32;
    if |d| >= 36 {
      assert d[..6] == d[..4] + [d[4], d[5]];
      assert forall t: Byte :: d[..6] == [0x53, 0x45, 0x4F, 0x53, 1, t] <==> d[..4] == [0x53, 0x45, 0x4F, 0x53] && d[4] == 1 && d[5] == t by {
        forall t: Byte ensures d[..6] == [0x53, 0x45, 0x4F, 0x53, 1, t] <==> d[..4] == [0x53, 0x45, 0x4F, 0x53] && d[4] == 1 && d[5] == t {
          assert [0x53, 0x45, 0x4F, 0x53, 1, t][..4] == [0x53, 0x45, 0x4F, 0x53];
          assert d[..6][4] == d[4] && d[..6][5] == d[5] && d[..6][..4] == d[..4];
        }
      }
    }
  }

  /** The header of a built or signed file. */
  ghost predicate HeaderIs(d: seq<Byte>, p: Params, sigAt: nat, sigSize: nat) {
    && |d| >= 36 && d[..8] == [0x53, 0x45, 0x4F, 0x53, 1, p.fileType, 0, 0] && U32(d, 8) == |d| % 0x1_0000_0000 && U32(d, 12) == 36
    && U16(d, 16) == |Entries(p)| && U16(d, 18) == MetaSize(Entries(p)) % 0x1_0000
    && U32(d, 20) == (36 + MetaSize(Entries(p))) % 0x1_0000_0000 && U32(d, 24) == |p.payload| % 0x1_0000_0000
    && U32(d, 28) == sigAt % 0x1_0000_0000 && U32(d, 32) == sigSize
  }

  lemma HeaderWritten(p: Params, d: seq<Byte>, sigAt: nat, sigSize: nat)
    requires 0 <= p.fileType < 256 && |d| >= 36 && sigSize < WORD
    requires d[..36] == Head(p.fileType, |d|, |Entries(p)|, MetaSize(Entries(p)), PayloadAt(p), |p.payload|, sigAt, sigSize)
    ensures HeaderIs(d, p, sigAt, sigSize)
  {
    hide Entries, MetaSize, U16, U32, Le16, Le32;
    var n := |Entries(p)|;
    HeadReads(d, p.fileType, |d|, n, MetaSize(Entries(p)), PayloadAt(p), |p.payload|, sigAt, sigSize);
    Less(n, 0x1_0000);
    Less(sigSize, WORD);
    var h := Head(p.fileType, |d|, n, MetaSize(Entries(p)), PayloadAt(p), |p.payload|, sigAt, sigSize);
    assert Le16(0) == [0, 0] by { Zero16(); }
    assert h[..8] == [0x53, 0x45, 0x4F, 0x53, 1, p.fileType, 0, 0];
    assert d[..8] == d[..36][..8];
  }

  lemma Zero16()
    ensures Le16(0) == [0, 0]
  {
  }

  /** The header of an unsigned file names no signature, that of a signed one the 196 bytes behind the payload. */
  lemma HeadersAre(p: Params, section: seq<Byte>)
    requires 0 <= p.fileType < 256 && |section| == SECTION
    ensures HeaderIs(Image(p), p, 0, 0) && HeaderIs(SignedImage(p, section), p, |Image(p)|, 196)
  {
    hide Head, Body, Entries, MetaSize, HeaderIs;
    var d, e := Image(p), SignedImage(p, section);
    assert d[..36] == Head(p.fileType, |d|, |Entries(p)|, MetaSize(Entries(p)), PayloadAt(p), |p.payload|, 0, 0);
    HeaderWritten(p, d, 0, 0);
    assert e[..36] == Head(p.fileType, |e|, |Entries(p)|, MetaSize(Entries(p)), PayloadAt(p), |p.payload|, Total(p), SECTION);
    HeaderWritten(p, e, Total(p), SECTION);
  }

  /** The string stored under each key. */
  function StringOf(p: Params, key: Byte): Option<seq<Byte>> {
    if key == 1 then p.name else if key == 2 then p.description else if key == 3 then p.author else if key == 4 then p.version
    else if key == 5 then p.date else if key == 6 then p.icon else if key == 32 then p.syscall else None
  }

  /** One entry for each string that is there, under its own key, in the order of the keys. */
  ghost predicate Keyed(es: seq<Entry>, p: Params, below: int) {
    && (forall key: Byte, v: seq<Byte> :: Entry(key, v) in es <==> key < below && StringOf(p, key) == Some(v))
    && forall i, j :: 0 <= i < j < |es| ==> es[i].key < es[j].key
  }

  lemma KeyedNext(es: seq<Entry>, p: Params, below: int, key: Byte, v: Option<seq<Byte>>)
    requires Keyed(es, p, below) && below <= key && v == StringOf(p, key)
    requires forall k: Byte :: below <= k < key ==> StringOf(p, k).None?
    ensures Keyed(es + Entered(key, v), p, key + 1)
  {
    hide StringOf;
    var t := es + Entered(key, v);
    forall i | 0 <= i < |es| ensures es[i].key < key {
      assert Entry(es[i].key, es[i].value) in es;
    }
    assert forall k: Byte, w: seq<Byte> :: Entry(k, w) in t <==> Entry(k, w) in es || (k == key && v == Some(w));
  }

  lemma EntriesAre(p: Params)
    ensures Keyed(Entries(p), p, 256)
  {
    hide Keyed, Entered;
    assert Keyed([], p, 1) by { KeyedNone(p); }
    var a := [] + Entered(1, p.name);
    KeyedNext([], p, 1, 1, p.name);
    var b := a + Entered(2, p.description);
    KeyedNext(a, p, 2, 2, p.description);
    var c := b + Entered(3, p.author);
    KeyedNext(b, p, 3, 3, p.author);
    var d := c + Entered(4, p.version);
    KeyedNext(c, p, 4, 4, p.version);
    var e := d + Entered(5, p.date);
    KeyedNext(d, p, 5, 5, p.date);
    var f := e + Entered(6, p.icon);
    KeyedNext(e, p, 6, 6, p.icon);
    var g := f + Entered(32, p.syscall);
    KeyedNext(f, p, 7, 32, p.syscall);
    assert g == Entries(p) by { assert a == Entered(1, p.name); }
    KeyedAll(g, p);
  }

  lemma KeyedNone(p: Params)
    ensures Keyed([], p, 1)
  {
  }

  lemma KeyedAll(es: seq<Entry>, p: Params)
    requires Keyed(es, p, 33)
    ensures Keyed(es, p, 256)
  {
  }
}
