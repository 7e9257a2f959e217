/** Building, signing, parsing and verifying SOF files in buffers, and the certificates
    that vouch for the signing key. */
module SofFile {
  import opened Bytes
  import opened Sof
  import Sha512

  // ---- writing ----

  /** Writes the entries one after the other over zeroed space. */
  method WriteEntries(buf: array<Byte>, es: seq<Entry>, ghost head: seq<Byte>, ghost end: nat) returns (cursor: nat)
    requires |head| == HEADER && HEADER + MetaSize(es) <= end <= buf.Length
    requires buf[..end] == head + Blank(end - HEADER)
    modifies buf
    ensures cursor == HEADER + |Tlvs(es)| && buf[..end] == head + Tlvs(es) + Blank(end - cursor)
  {
    hide Tlv, MetaSize, Splice;
    cursor := HEADER;
    var i := 0;
    TlvsNone(es);
    assert head + [] == head;
    while i < |es|
      invariant 0 <= i <= |es| && cursor == HEADER + |Tlvs(es[..i])| && cursor + MetaSize(es[i..]) <= end
      invariant buf[..end] == head + Tlvs(es[..i]) + Blank(end - cursor)
    {
      MetaNext(es, i);
      TlvsNext(es, i);
      ghost var was, t := buf[..], Tlvs(es[..i]);
      PutBytes(buf, cursor, Tlv(es[i]));
      Overlay(was, buf[..], end, head + t, Tlv(es[i]));
      assert head + t + Tlv(es[i]) == head + (t + Tlv(es[i]));
      cursor := cursor + |Tlv(es[i])|;
      i := i + 1;
    }
    assert es[..i] == es;
  }

  /** Writing s at the end of what is written so far, over zeros. */
  lemma Overlay(was: seq<Byte>, now: seq<Byte>, end: nat, done: seq<Byte>, s: seq<Byte>)
    requires end <= |was| && |done| + |s| <= end && was[..end] == done + Blank(end - |done|) && now == Splice(was, |done|, s)
    ensures now[..end] == done + s + Blank(end - |done| - |s|)
  {
    var w := was[..end];
    forall k | 0 <= k < end ensures now[k] == (done + s + Blank(end - |done| - |s|))[k] {
      assert was[k] == w[k];
    }
  }

  lemma TlvsNone(es: seq<Entry>)
    ensures Tlvs(es[..0]) == [] && es[0..] == es
  {
  }

  lemma MetaNext(es: seq<Entry>, i: int)
    requires 0 <= i < |es|
    ensures MetaSize(es[i..]) == 2 + |es[i].value| + MetaSize(es[i + 1..]) && |Tlv(es[i])| <= 2 + |es[i].value|
  {
    assert es[i..][1..] == es[i + 1..];
  }

  lemma {:induction false} TlvsNext(es: seq<Entry>, i: int)
    requires 0 <= i < |es|
    ensures Tlvs(es[..i + 1]) == Tlvs(es[..i]) + Tlv(es[i])
    decreases i
  {
    hide Tlv;
    if i == 0 {
      assert es[..1][1..] == [] && es[..0] == [];
      assert Tlv(es[0]) + [] == Tlv(es[0]);
    } else {
      var r := es[1..];
      assert es[..i + 1][1..] == r[..i] && es[..i][1..] == r[..i - 1] && r[i - 1] == es[i];
      TlvsNext(r, i - 1);
    }
  }

  /** Header, entries and payload over zeroed space. */
  method Lay(p: Params, buf: array<Byte>, es: seq<Entry>, n: nat)
    requires 0 <= p.fileType < 256 && es == Entries(p) && n == MetaSize(es) && Total(p) <= buf.Length
    modifies buf
    ensures buf[..Total(p)] == Image(p)
  {
    hide Entries, Tlvs, MetaSize, Head, Splice, Blank;
    var total := HEADER + n + |p.payload|;
    ghost var was := buf[..];
    PutBytes(buf, 0, Blank(total));
    Start(was, buf[..], total);
    var head := Head(p.fileType, total, |es|, n, HEADER + n, |p.payload|, 0, 0);
    was := buf[..];
    PutBytes(buf, 0, head);
    Overlay(was, buf[..], total, [], head);
    assert [] + head == head;
    var cursor := WriteEntries(buf, es, head, total);
    was := buf[..];
    PutBytes(buf, HEADER + n, p.payload);
    Finish(was, buf[..], total, head, Tlvs(es), n, p.payload);
  }

  /** Builds an unsigned file. */
  method Build(p: Params, buf: array<Byte>) returns (r: Code, total: nat)
    modifies buf
    ensures r == if p.payload == [] then NoPayload
                 else if p.fileType != BIN && p.fileType != LIB then InvalidType
                 else if Total(p) > buf.Length then BufferTooSmall else Ok
    ensures r == Ok ==> total == Total(p) <= buf.Length && buf[..total] == Image(p)
    ensures r != Ok ==> buf[..] == old(buf[..])
  {
    hide Entries, MetaSize, Image;
    if p.payload == [] { return NoPayload, 0; }
    if p.fileType != BIN && p.fileType != LIB { return InvalidType, 0; }
    var es := Entries(p);
    var n := MetaSize(es);
    total := HEADER + n + |p.payload|;
    if total > buf.Length { return BufferTooSmall, 0; }
    Lay(p, buf, es, n);
    r := Ok;
  }

  lemma Start(was: seq<Byte>, now: seq<Byte>, total: nat)
    requires total <= |was| && now == Splice(was, 0, Blank(total))
    ensures now[..total] == [] + Blank(total - 0)
  {
  }

  lemma Finish(was: seq<Byte>, now: seq<Byte>, total: nat, head: seq<Byte>, t: seq<Byte>, n: nat, payload: seq<Byte>)
    requires total <= |was| && |head| == HEADER && |t| <= n && total == HEADER + n + |payload|
    requires was[..total] == head + t + Blank(total - HEADER - |t|) && now == Splice(was, HEADER + n, payload)
    ensures now[..total] == head + (t + Blank(n - |t|) + payload)
  {
    var w, goal := was[..total], head + (t + Blank(n - |t|) + payload);
    forall k | 0 <= k < total ensures now[k] == goal[k] {
      assert was[k] == w[k];
    }
  }

  // ---- certificates ----

  /** A signature scheme: sign(public, private, message) and verify(signature, message, public). */
  datatype Scheme = Scheme(sign: (seq<Byte>, seq<Byte>, seq<Byte>) -> seq<Byte>, verify: (seq<Byte>, seq<Byte>, seq<Byte>) -> bool)

  /** The scheme accepts what it signs under this key pair. */
  ghost predicate Genuine(sc: Scheme, pub: seq<Byte>, priv: seq<Byte>) {
    forall m :: |sc.sign(pub, priv, m)| == 64 && sc.verify(sc.sign(pub, priv, m), m, pub)
  }

  const CERT := 132

  function CertMagic(): seq<Byte> {
    [0x53, 0x43, 0x52, 0x54]
  }

  datatype Cert = Cert(magic: seq<Byte>, issuer: seq<Byte>, subject: seq<Byte>, signature: seq<Byte>)

  predicate CertSized(c: Cert) {
    |c.magic| == 4 && |c.issuer| == 32 && |c.subject| == 32 && |c.signature| == 64
  }

  function KeyHash(pub: seq<Byte>): seq<Byte> {
    Sha512.Hash(pub)[..Clip(|Sha512.Hash(pub)|, 32)]
  }

  /** What a certificate's signature covers. */
  function Signed(c: Cert): seq<Byte> {
    c.magic + c.issuer + c.subject
  }

  function BuildCert(sc: Scheme, pub: seq<Byte>, priv: seq<Byte>, subject: seq<Byte>): Cert {
    var c := Cert(CertMagic(), KeyHash(pub), subject, []);
    c.(signature := sc.sign(pub, priv, Signed(c)))
  }

  function Serialize(c: Cert): seq<Byte> {
    c.magic + c.issuer + c.subject + c.signature
  }

  function ParseCert(d: seq<Byte>): Option<Cert> {
    if |d| < CERT || d[..4] != CertMagic() then None
    else Some(Cert(d[..4], d[4..36], d[36..68], d[68..132]))
  }

  lemma CertRoundTrip(c: Cert, rest: seq<Byte>)
    requires CertSized(c) && c.magic == CertMagic()
    ensures ParseCert(Serialize(c) + rest) == Some(c)
  {
    var d := Serialize(c) + rest;
    assert d[..4] == c.magic && d[4..36] == c.issuer && d[36..68] == c.subject && d[68..132] == c.signature;
  }

  predicate CertAccepted(sc: Scheme, c: Cert, pub: seq<Byte>) {
    sc.verify(c.signature, Signed(c), pub)
  }

  lemma HashSize(m: seq<Byte>)
    ensures |Sha512.Hash(m)| == 64
  {
    hide Sha512.Absorb, Sha512.Pad, Sha512.InitialHash;
    Sha512.EightWords();
  }

  lemma BuiltCert(sc: Scheme, pub: seq<Byte>, priv: seq<Byte>, subject: seq<Byte>)
    requires Genuine(sc, pub, priv) && |subject| == 32
    ensures var c := BuildCert(sc, pub, priv, subject);
            CertSized(c) && c.magic == CertMagic() && c.issuer == KeyHash(pub) && CertAccepted(sc, c, pub)
  {
    hide Sha512.Hash;
    HashSize(pub);
    var c := BuildCert(sc, pub, priv, subject);
    assert Signed(c) == Signed(c.(signature := []));
  }

  // ---- signing and verifying ----

  /** The signature section: the certificate and the signature of the payload's hash. */
  function Section(sc: Scheme, cert: seq<Byte>, pub: seq<Byte>, seed: seq<Byte>, payload: seq<Byte>): seq<Byte>
    requires |cert| >= CERT
  {
    cert[..CERT] + sc.sign(pub, seed + pub, Sha512.Hash(payload))
  }

  /** What verification answers for a parsed file under a root key. */
  predicate Accepted(sc: Scheme, d: seq<Byte>, f: Fields, root: seq<Byte>)
    requires f.payloadAt + f.payloadSize <= |d|
  {
    || f.sigAt == 0 || f.sigSize == 0
    || (f.sigSize >= SECTION && f.sigAt + f.sigSize <= |d|
        && var sect := d[f.sigAt..]; var c := ParseCert(sect[..CERT]);
           c.Some? && c.value.issuer == KeyHash(root) && CertAccepted(sc, c.value, root)
           && sc.verify(sect[CERT..SECTION], Sha512.Hash(d[f.payloadAt..f.payloadAt + f.payloadSize]), c.value.subject))
  }

  lemma GenuineFor(sc: Scheme, pub: seq<Byte>, priv: seq<Byte>, m: seq<Byte>)
    requires Genuine(sc, pub, priv)
    ensures |sc.sign(pub, priv, m)| == 64 && sc.verify(sc.sign(pub, priv, m), m, pub)
  {
  }

  // ---- reading ----

  /** Walks the entries and copies their values. */
  method ReadEntries(d: seq<Byte>, start: nat, n: nat) returns (r: Option<seq<Meta>>)
    ensures r == ReadMetas(d, start, n)
  {
    hide ReadMetas;
    var at: nat, i := start, 0;
    var out: seq<Meta> := [];
    JoinedNone(ReadMetas(d, start, n));
    while i < n
      invariant 0 <= i <= n
      invariant ReadMetas(d, start, n) == Joined(out, ReadMetas(d, at, n - i))
    {
      ReadNext(d, at, n - i, out);
      if at + 2 > |d| { return None; }
      var key, len := d[at], d[at + 1];
      at := at + 2;
      if at + len > |d| { return None; }
      var m := if len >= VALUE_MAX then VALUE_MAX - 1 else len;
      out := out + [Meta(key, len, d[at..at + m])];
      at := at + len;
      i := i + 1;
    }
    ReadZero(d, at);
    assert out + [] == out;
    r := Some(out);
  }

  lemma JoinedNone(b: Option<seq<Meta>>)
    ensures Joined([], b) == b
  {
    if b.Some? { assert [] + b.value == b.value; }
  }

  lemma ReadZero(d: seq<Byte>, at: nat)
    ensures ReadMetas(d, at, 0) == Some([])
  {
  }

  function Joined(a: seq<Meta>, b: Option<seq<Meta>>): Option<seq<Meta>> {
    if b.None? then None else Some(a + b.value)
  }

  lemma ReadNext(d: seq<Byte>, at: nat, n: nat, out: seq<Meta>)
    requires n > 0
    ensures if at + 2 > |d| || at + 2 + d[at + 1] > |d| then ReadMetas(d, at, n).None?
            else var len := d[at + 1];
                 Joined(out, ReadMetas(d, at, n))
                 == Joined(out + [Meta(d[at], len, d[at + 2..at + 2 + Clip(len, VALUE_MAX - 1)])], ReadMetas(d, at + 2 + len, n - 1))
  {
    if at + 2 <= |d| && at + 2 + d[at + 1] <= |d| {
      var len := d[at + 1];
      var m, rest := Meta(d[at], len, d[at + 2..at + 2 + Clip(len, VALUE_MAX - 1)]), ReadMetas(d, at + 2 + len, n - 1);
      if rest.Some? { assert out + ([m] + rest.value) == (out + [m]) + rest.value; }
    }
  }

  method Parse(d: seq<Byte>) returns (r: Code, out: Option<Parsed>)
    ensures r == ParseCode(d) && out == if r == Ok then Some(ParsedOf(d)) else None
  {
    hide ReadMetas, U16, U32;
    r, out := HeaderCode(d), None;
    if r != Ok { return; }
    var f := FieldsOf(d);
    if (f.payloadAt + f.payloadSize) % WORD > |d| { return InvalidSize, None; }
    if f.payloadSize == 0 { return NoPayload, None; }
    if (f.metaAt + f.metaSize) % WORD > |d| { return InvalidSize, None; }
    var n := if f.count < ENTRIES_MAX then f.count else ENTRIES_MAX;
    var ms := ReadEntries(d, f.metaAt, n);
    if ms.None? { return InvalidMeta, None; }
    out := Some(Parsed(f, ms.value, f.sigAt != 0 && f.sigSize != 0));
  }

  /** The first entry with the key. */
  method GetMeta(metas: seq<Meta>, key: Byte) returns (r: Option<Meta>)
    ensures r.None? <==> forall i :: 0 <= i < |metas| ==> metas[i].key != key
    ensures r.Some? ==> exists i :: 0 <= i < |metas| && metas[i] == r.value && r.value.key == key && forall j :: 0 <= j < i ==> metas[j].key != key
  {
    var i := 0;
    while i < |metas|
      invariant 0 <= i <= |metas| && forall j :: 0 <= j < i ==> metas[j].key != key
    {
      if metas[i].key == key { return Some(metas[i]); }
      i := i + 1;
    }
    r := None;
  }

  // ---- signing in place ----

  /** Rewriting three header fields of a built file makes it the header of a signed one. */
  lemma HeadPatch(p: Params, total: nat, sigAt: nat, sigSize: nat)
    requires 0 <= p.fileType < 256
    ensures var e, n := |Entries(p)|, MetaSize(Entries(p));
            Splice(Splice(Splice(Head(p.fileType, Total(p), e, n, PayloadAt(p), |p.payload|, 0, 0), 8, Le32(total)), 28, Le32(sigAt)), 32, Le32(sigSize))
            == Head(p.fileType, total, e, n, PayloadAt(p), |p.payload|, sigAt, sigSize)
  {
    hide Le32, Le16, Entries, MetaSize, PayloadAt, Total;
  }

  /** A patch inside the first part of a file. */
  lemma SplicePrefix(a: seq<Byte>, b: seq<Byte>, at: nat, s: seq<Byte>)
    requires at + |s| <= |a|
    ensures Splice(a + b, at, s) == Splice(a, at, s) + b
  {
  }

  /** A patch right after the first part of a file. */
  lemma SpliceAfter(a: seq<Byte>, b: seq<Byte>, s: seq<Byte>)
    requires |s| <= |b|
    ensures Splice(a + b, |a|, s) == a + s + b[|s|..]
  {
  }

  method BuildSigned(sc: Scheme, p: Params, seed: seq<Byte>, pub: seq<Byte>, cert: seq<Byte>, buf: array<Byte>) returns (r: Code, total: nat)
    requires |sc.sign(pub, seed + pub, Sha512.Hash(p.payload))| == 64
    modifies buf
    ensures r == if |cert| < CERT then InvalidSize
                 else if p.payload == [] then NoPayload
                 else if p.fileType != BIN && p.fileType != LIB then InvalidType
                 else if Total(p) + SECTION > buf.Length then BufferTooSmall else Ok
    ensures r == Ok ==> |Section(sc, cert, pub, seed, p.payload)| == SECTION
                        && total == Total(p) + SECTION <= buf.Length && buf[..total] == SignedImage(p, Section(sc, cert, pub, seed, p.payload))
  {
    hide Image, SignedImage, Section, Sha512.Hash, Entries, MetaSize;
    if |cert| < CERT { return InvalidSize, 0; }
    var c, n := Build(p, buf);
    if c != Ok { return c, 0; }
    total := n + SECTION;
    if total > buf.Length { return BufferTooSmall, 0; }
    PayloadIn(p, buf[..n]);
    var payload := buf[PayloadAt(p)..n];
    assert payload == buf[..n][PayloadAt(p)..n];
    SectionSize(sc, cert, pub, seed, payload);
    Append(p, buf, Section(sc, cert, pub, seed, payload));
    r := Ok;
  }

  /** The payload lies where the header says. */
  lemma PayloadIn(p: Params, d: seq<Byte>)
    requires 0 <= p.fileType < 256 && d == Image(p)
    ensures d[PayloadAt(p)..Total(p)] == p.payload
  {
    hide Head;
    assert d[HEADER..Total(p)] == Body(p);
    BodyParts(p, d);
  }

  lemma SectionSize(sc: Scheme, cert: seq<Byte>, pub: seq<Byte>, seed: seq<Byte>, payload: seq<Byte>)
    requires |cert| >= CERT && |sc.sign(pub, seed + pub, Sha512.Hash(payload))| == 64
    ensures |Section(sc, cert, pub, seed, payload)| == SECTION
  {
    hide Sha512.Hash;
  }

  /** Overwrites one header field. */
  method Patch(buf: array<Byte>, at: nat, v: nat, ghost h: seq<Byte>, ghost tail: seq<Byte>)
    requires buf[..] == h + tail && at + 4 <= |h|
    modifies buf
    ensures buf[..] == Splice(h, at, Le32(v)) + tail
  {
    hide Splice, Le32;
    PutBytes(buf, at, Le32(v));
    SplicePrefix(h, tail, at, Le32(v));
  }

  /** Puts the section right after the file. */
  method Attach(buf: array<Byte>, n: nat, section: seq<Byte>, ghost h: seq<Byte>, ghost b: seq<Byte>)
    requires n + |section| <= buf.Length && buf[..n] == h + b
    modifies buf
    ensures buf[..] == h + (b + section + old(buf[n + |section|..]))
  {
    hide Splice;
    ghost var rest := buf[n..];
    assert buf[..] == (h + b) + rest;
    PutBytes(buf, n, section);
    SpliceAfter(h + b, rest, section);
    assert (h + b) + section + rest[|section|..] == h + (b + section + rest[|section|..]);
  }

  /** Appends the section and patches the header. */
  method Append(p: Params, buf: array<Byte>, section: seq<Byte>)
    requires 0 <= p.fileType < 256 && |section| == SECTION && Total(p) + SECTION <= buf.Length && buf[..Total(p)] == Image(p)
    modifies buf
    ensures buf[..Total(p) + SECTION] == SignedImage(p, section)
  {
    hide Head, Body, Splice, Le32, Entries, MetaSize, Total, PayloadAt;
    var n := Total(p);
    ghost var rest := buf[n + SECTION..];
    ghost var h := Head(p.fileType, Total(p), |Entries(p)|, MetaSize(Entries(p)), PayloadAt(p), |p.payload|, 0, 0);
    ghost var tail := Body(p) + section + rest;
    Attach(buf, n, section, h, Body(p));
    Patch(buf, 8, n + SECTION, h, tail);
    h := Splice(h, 8, Le32(n + SECTION));
    Patch(buf, 28, n, h, tail);
    h := Splice(h, 28, Le32(n));
    Patch(buf, 32, SECTION, h, tail);
    h := Splice(h, 32, Le32(SECTION));
    HeadPatch(p, n + SECTION, n, SECTION);
    assert (h + tail)[..n + SECTION] == h + Body(p) + section;
  }

  method Equal(a: seq<Byte>, b: seq<Byte>) returns (same: bool)
    requires |a| == |b|
    ensures same <==> a == b
  {
    same := true;
    var i := 0;
    while i < |a|
      invariant 0 <= i <= |a| && (same <==> a[..i] == b[..i])
    {
      if a[i] != b[i] { same := false; }
      assert a[..i + 1] == a[..i] + [a[i]] && b[..i + 1] == b[..i] + [b[i]];
      i := i + 1;
    }
    assert a[..i] == a && b[..i] == b;
  }

  /** Compares the magic of a certificate byte by byte; nothing when that leaves the data. */
  function MagicAt(d: seq<Byte>, at: nat, i: nat): Option<bool>
    decreases 4 - i
  {
    if i >= 4 then Some(true)
    else if at + i >= |d| then None
    else if d[at + i] != CertMagic()[i] then Some(false)
    else MagicAt(d, at, i + 1)
  }

  /** What verification answers for a file with these header fields, the checks in their
      order with 32-bit sums; nothing when it would read outside the data. */
  function Verdict(sc: Scheme, d: seq<Byte>, f: Fields, root: seq<Byte>): Option<Code> {
    if f.sigAt == 0 || f.sigSize == 0 then Some(Ok)
    else if f.sigSize < SECTION || (f.sigAt + f.sigSize) % WORD > |d| then Some(SignatureInvalid)
    else if MagicAt(d, f.sigAt, 0) == Some(false) then Some(SignatureInvalid)
    else if f.sigAt + CERT > |d| then None
    else
      var c := Cert(d[f.sigAt..f.sigAt + 4], d[f.sigAt + 4..f.sigAt + 36], d[f.sigAt + 36..f.sigAt + 68], d[f.sigAt + 68..f.sigAt + CERT]);
      if c.issuer != KeyHash(root) || !CertAccepted(sc, c, root) then Some(SignatureInvalid)
      else if f.payloadAt + f.payloadSize > |d| || f.sigAt + SECTION > |d| then None
      else if sc.verify(d[f.sigAt + CERT..f.sigAt + SECTION], Sha512.Hash(d[f.payloadAt..f.payloadAt + f.payloadSize]), c.subject) then Some(Ok)
      else Some(SignatureInvalid)
  }

  /** Verifies a parsed file against the root key. */
  method VerifySignature(sc: Scheme, d: seq<Byte>, f: Fields, root: seq<Byte>) returns (r: Option<Code>)
    ensures r == Verdict(sc, d, f, root)
  {
    hide Sha512.Hash;
    if f.sigAt == 0 || f.sigSize == 0 { return Some(Ok); }
    if f.sigSize < SECTION { return Some(SignatureInvalid); }
    if (f.sigAt + f.sigSize) % WORD > |d| { return Some(SignatureInvalid); }
    var i := 0;
    while i < 4
      invariant 0 <= i <= 4 && MagicAt(d, f.sigAt, 0) == MagicAt(d, f.sigAt, i)
    {
      if f.sigAt + i >= |d| { return None; }
      if d[f.sigAt + i] != CertMagic()[i] { return Some(SignatureInvalid); }
      i := i + 1;
    }
    if f.sigAt + CERT > |d| { return None; }
    var at := f.sigAt;
    var c := Cert(d[at..at + 4], d[at + 4..at + 36], d[at + 36..at + 68], d[at + 68..at + CERT]);
    HashSize(root);
    var same := Equal(c.issuer, KeyHash(root));
    if !same { return Some(SignatureInvalid); }
    if !sc.verify(c.signature, Signed(c), root) { return Some(SignatureInvalid); }
    if f.payloadAt + f.payloadSize > |d| || f.sigAt + SECTION > |d| { return None; }
    var h := Sha512.Hash(d[f.payloadAt..f.payloadAt + f.payloadSize]);
    if !sc.verify(d[at + CERT..at + SECTION], h, c.subject) { return Some(SignatureInvalid); }
    r := Some(Ok);
  }

  lemma {:induction false} MagicMeans(d: seq<Byte>, at: nat, i: nat)
    requires i <= 4 && at + 4 <= |d|
    ensures MagicAt(d, at, i) == Some(d[at + i..at + 4] == CertMagic()[i..])
    decreases 4 - i
  {
    if i < 4 {
      MagicMeans(d, at, i + 1);
      var a, b := d[at + i..at + 4], CertMagic()[i..];
      assert a == [d[at + i]] + d[at + i + 1..at + 4] && b == [CertMagic()[i]] + CertMagic()[i + 1..];
      assert a[0] == d[at + i] && b[0] == CertMagic()[i];
      assert a[1..] == d[at + i + 1..at + 4] && b[1..] == CertMagic()[i + 1..];
    } else {
      assert d[at + 4..at + 4] == [] && CertMagic()[4..] == [];
    }
  }

  /** What is to be accepted passes. */
  lemma AcceptedPasses(sc: Scheme, d: seq<Byte>, f: Fields, root: seq<Byte>)
    requires f.payloadAt + f.payloadSize <= |d| && Accepted(sc, d, f, root)
    ensures Verdict(sc, d, f, root) == Some(Ok)
  {
    hide Sha512.Hash, CertMagic, MagicAt, KeyHash;
    if f.sigAt != 0 && f.sigSize != 0 {
      Less(f.sigAt + f.sigSize, WORD);
      MagicMeans(d, f.sigAt, 0);
      SectionParts(d, f.sigAt);
    }
  }

  /** A file signed with a key that the root certified passes verification, whatever its
      contents, assuming only that verifying accepts what signing produces. */
  lemma SignedAccepted(sc: Scheme, p: Params, root: seq<Byte>, rootPriv: seq<Byte>, pub: seq<Byte>, seed: seq<Byte>)
    requires Buildable(p) && Total(p) < WORD && |pub| == 32 && Genuine(sc, root, rootPriv) && Genuine(sc, pub, seed + pub)
    ensures var cert := Serialize(BuildCert(sc, root, rootPriv, pub));
            && |cert| == CERT && |Section(sc, cert, pub, seed, p.payload)| == SECTION
            && var d := SignedImage(p, Section(sc, cert, pub, seed, p.payload));
               ParseCode(d) == Ok && Verdict(sc, d, ParsedOf(d).f, root) == Some(Ok)
  {
    hide Sha512.Hash, ParseCode, SignedImage, Buildable, Genuine, Verdict, Accepted, Section, BuildCert, Serialize, ParseCert, CertAccepted, KeyHash;
    var c, h := BuildCert(sc, root, rootPriv, pub), Sha512.Hash(p.payload);
    BuiltCert(sc, root, rootPriv, pub);
    var sect := SectionIs(sc, c, pub, seed, p.payload);
    SignParse(p, sect);
    var d := SignedImage(p, sect);
    var f := ParsedOf(d).f;
    BuiltSubject(sc, root, rootPriv, pub);
    PassesUnder(sc, d, f, root, c, sect, h);
    AcceptedPasses(sc, d, f, root);
  }

  lemma BuiltSubject(sc: Scheme, root: seq<Byte>, rootPriv: seq<Byte>, pub: seq<Byte>)
    ensures BuildCert(sc, root, rootPriv, pub).subject == pub
  {
  }

  /** The section holds the certificate and a signature that verifies. */
  lemma SectionIs(sc: Scheme, c: Cert, pub: seq<Byte>, seed: seq<Byte>, payload: seq<Byte>) returns (sect: seq<Byte>)
    requires CertSized(c) && c.magic == CertMagic() && Genuine(sc, pub, seed + pub)
    ensures |Serialize(c)| == CERT && sect == Section(sc, Serialize(c), pub, seed, payload) && |sect| == SECTION
    ensures ParseCert(sect[..CERT]) == Some(c) && sc.verify(sect[CERT..SECTION], Sha512.Hash(payload), pub)
  {
    hide Sha512.Hash, Genuine, ParseCert, CertMagic;
    var cert, h := Serialize(c), Sha512.Hash(payload);
    GenuineFor(sc, pub, seed + pub, h);
    sect := Section(sc, cert, pub, seed, payload);
    assert sect[..CERT] == cert && sect[CERT..SECTION] == sc.sign(pub, seed + pub, h);
    CertRoundTrip(c, []);
    assert cert + [] == cert;
  }

  lemma PassesUnder(sc: Scheme, d: seq<Byte>, f: Fields, root: seq<Byte>, c: Cert, sect: seq<Byte>, h: seq<Byte>)
    requires f.payloadAt + f.payloadSize <= |d| && h == Sha512.Hash(d[f.payloadAt..f.payloadAt + f.payloadSize])
    requires f.sigSize == |sect| == SECTION && f.sigAt + SECTION == |d| && d[f.sigAt..] == sect
    requires ParseCert(sect[..CERT]) == Some(c) && c.issuer == KeyHash(root) && CertAccepted(sc, c, root) && sc.verify(sect[CERT..SECTION], h, c.subject)
    ensures Accepted(sc, d, f, root)
  {
    hide Sha512.Hash, ParseCert, CertAccepted, KeyHash;
  }

  /** For a parsed file whose sums do not wrap around, verification stays inside the data and
      passes exactly what is unsigned or signed under the root for its payload. */
  lemma VerdictMeans(sc: Scheme, d: seq<Byte>, root: seq<Byte>)
    requires ParseCode(d) == Ok
    requires var f := FieldsOf(d); f.payloadAt + f.payloadSize < WORD && f.sigAt + f.sigSize < WORD
    ensures var f := FieldsOf(d); f.payloadAt + f.payloadSize <= |d| && Verdict(sc, d, f, root) == Some(if Accepted(sc, d, f, root) then Ok else SignatureInvalid)
  {
    hide Sha512.Hash, CertMagic, MagicAt, FieldsOf, KeyHash, ReadMetas, Magic;
    PayloadInside(d);
    var f := FieldsOf(d);
    if f.sigAt != 0 && f.sigSize >= SECTION && f.sigAt + f.sigSize <= |d| {
      MagicMeans(d, f.sigAt, 0);
      var sect := d[f.sigAt..];
      SectionParts(d, f.sigAt);
    }
  }

  lemma SectionParts(d: seq<Byte>, at: nat)
    requires at + SECTION <= |d|
    ensures var s := d[at..]; var t := s[..CERT];
            && t[..4] == d[at..at + 4] && t[4..36] == d[at + 4..at + 36] && t[36..68] == d[at + 36..at + 68] && t[68..132] == d[at + 68..at + CERT]
            && s[CERT..SECTION] == d[at + CERT..at + SECTION] && d[at + 0..at + 4] == d[at..at + 4] && CertMagic()[0..] == CertMagic()
  {
  }

  /** What verification checks, on the bytes of the file: a signed file passes exactly when the
      section of 196 bytes and the payload lie in it, the section starts with the magic and the
      first half of the root key's hash, the root has signed those 68 bytes with the subject
      key, and the subject key has signed the hash of the payload. */
  lemma VerdictBytes(sc: Scheme, d: seq<Byte>, f: Fields, root: seq<Byte>)
    requires f.sigAt != 0 && f.sigSize != 0
    ensures var at := f.sigAt;
            |Sha512.Hash(root)| == 64 &&
            (Verdict(sc, d, f, root) == Some(Ok) <==>
              && f.sigSize >= 196 && (at + f.sigSize) % 0x1_0000_0000 <= |d| && at + 196 <= |d| && f.payloadAt + f.payloadSize <= |d|
              && d[at..at + 4] == [0x53, 0x43, 0x52, 0x54] && d[at + 4..at + 36] == Sha512.Hash(root)[..32]
              && sc.verify(d[at + 68..at + 132], d[at..at + 68], root)
              && sc.verify(d[at + 132..at + 196], Sha512.Hash(d[f.payloadAt..f.payloadAt + f.payloadSize]), d[at + 36..at + 68]))
  {
    hide Sha512.Hash, MagicAt;
    HashSize(root);
    var at := f.sigAt;
    if at + 132 <= |d| {
      MagicMeans(d, at, 0);
      assert d[at + 0..at + 4] == d[at..at + 4] && CertMagic()[0..] == CertMagic();
      assert d[at..at + 4] + d[at + 4..at + 36] + d[at + 36..at + 68] == d[at..at + 68];
    }
  }

  /** The bytes of a certificate that is built: magic, first half of the issuer key's hash,
      subject key, and the issuer's signature of those 68 bytes. */
  lemma CertBytes(sc: Scheme, pub: seq<Byte>, priv: seq<Byte>, subject: seq<Byte>)
    requires |subject| == 32
    ensures var b := Serialize(BuildCert(sc, pub, priv, subject));
            && |b| >= 68 && |Sha512.Hash(pub)| == 64
            && b[..4] == [0x53, 0x43, 0x52, 0x54] && b[4..36] == Sha512.Hash(pub)[..32] && b[36..68] == subject
            && b[68..] == sc.sign(pub, priv, b[..68])
  {
    hide Sha512.Hash;
    HashSize(pub);
    var b := Serialize(BuildCert(sc, pub, priv, subject));
    assert b[..68] == CertMagic() + KeyHash(pub) + subject;
  }

  /** Verification reads outside the data only for a file one of whose sums wraps around. */
  lemma OutsideWraps(sc: Scheme, d: seq<Byte>, root: seq<Byte>)
    requires ParseCode(d) == Ok && Verdict(sc, d, FieldsOf(d), root).None?
    ensures var f := FieldsOf(d); f.payloadAt + f.payloadSize >= WORD || f.sigAt + f.sigSize >= WORD
  {
    hide Accepted, Verdict, FieldsOf, ReadMetas, Magic;
    var f := FieldsOf(d);
    if f.payloadAt + f.payloadSize < WORD && f.sigAt + f.sigSize < WORD {
      VerdictMeans(sc, d, root);
    }
  }

  /** A file of 37 bytes that parses, and whose verification reads outside of it under any key. */
  lemma SignatureOutside(sc: Scheme, root: seq<Byte>)
    ensures var d := Head(BIN, HEADER + 1, 0, 0, HEADER, 1, WORD - 196, 196) + [0];
            ParseCode(d) == Ok && Verdict(sc, d, FieldsOf(d), root) == None
  {
    hide Head, FieldsOf, Magic, KeyHash, CertAccepted;
    var d := Head(BIN, HEADER + 1, 0, 0, HEADER, 1, WORD - 196, 196) + [0];
    HeadReads(d, BIN, HEADER + 1, 0, 0, HEADER, 1, WORD - 196, 196);
    Unfold(d);
  }
}
