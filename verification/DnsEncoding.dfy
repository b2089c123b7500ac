/** Encoded responses: every list of address, alias and SOA records, written out with
    uncompressed names, is parsed back to the answer that the records give. */
module DnsEncoding {
  import opened Prelude
  import opened Ordered
  import opened Names
  import opened EndpointPlan
  import opened DnsNames
  import opened DnsAnswers
  import opened DnsResponse

  function Quad(n: U32): Bytes {
    Pair(n / 0x1_0000) + Pair(n % 0x1_0000)
  }

  lemma QuadRead(p: Bytes, at: nat, n: U32)
    requires HoldsAt(p, at, Quad(n))
    ensures ReadU32(p, at) == Ok(n)
  {
    HoldsHead(p, at, Pair(n / 0x1_0000), Pair(n % 0x1_0000));
    PairRead(p, at, n / 0x1_0000);
    PairRead(p, at + 2, n % 0x1_0000);
  }

  /** Three pieces in a row. */
  lemma HoldsThree(p: Bytes, at: nat, a: Bytes, b: Bytes, c: Bytes)
    requires HoldsAt(p, at, a + (b + c))
    ensures HoldsAt(p, at, a) && HoldsAt(p, at + |a|, b) && HoldsAt(p, at + |a| + |b|, c) && |a + (b + c)| == |a| + |b| + |c|
  {
    HoldsHead(p, at, a, b + c);
    HoldsHead(p, at + |a|, b, c);
  }

  // -------------------------------------------------------------------- single records

  /** A record on the wire. */
  datatype Wire = Wire(owner: Bytes, rrType: U16, rrClass: U16, ttl: U32, rdata: Bytes)

  ghost predicate Writable(w: Wire) { IsCanonical(w.owner) && |w.rdata| <= 0xffff }

  function EncodedName(name: Bytes): Bytes { EncodeLabels(Split(name)) }

  function Size<T>(s: seq<T>): U16 { if |s| <= 0xffff then |s| else 0xffff }

  function EncodeFixed(w: Wire): Bytes {
    Pair(w.rrType) + (Pair(w.rrClass) + (Quad(w.ttl) + Pair(Size(w.rdata))))
  }

  function EncodeWire(w: Wire): Bytes {
    EncodedName(w.owner) + (EncodeFixed(w) + w.rdata)
  }

  /** The parsed record is the written one. */
  ghost predicate Stands(p: Bytes, rr: Rr, w: Wire) {
    rr == Rr(w.owner, w.rrType, w.rrClass, w.ttl, rr.start, rr.start + |w.rdata|) && HoldsAt(p, rr.start, w.rdata)
  }

  lemma FixedRead(p: Bytes, at: nat, w: Wire)
    requires HoldsAt(p, at, EncodeFixed(w))
    ensures ReadU16(p, at) == Ok(w.rrType) && ReadU16(p, at + 2) == Ok(w.rrClass) && ReadU32(p, at + 4) == Ok(w.ttl) && ReadU16(p, at + 8) == Ok(Size(w.rdata))
  {
    HoldsHead(p, at, Pair(w.rrType), Pair(w.rrClass) + (Quad(w.ttl) + Pair(Size(w.rdata))));
    HoldsHead(p, at + 2, Pair(w.rrClass), Quad(w.ttl) + Pair(Size(w.rdata)));
    HoldsHead(p, at + 4, Quad(w.ttl), Pair(Size(w.rdata)));
    PairRead(p, at, w.rrType);
    PairRead(p, at + 2, w.rrClass);
    QuadRead(p, at + 4, w.ttl);
    PairRead(p, at + 8, Size(w.rdata));
  }

  lemma WireRoundTrip(p: Bytes, at: nat, w: Wire) returns (rr: Rr)
    requires Writable(w) && HoldsAt(p, at, EncodeWire(w))
    ensures ParseRr(p, at).Ok? && ParseRr(p, at).value.0 == rr && ParseRr(p, at).value.1 == at + |EncodeWire(w)| && Stands(p, rr, w)
  {
    var name := EncodedName(w.owner);
    HoldsThree(p, at, name, EncodeFixed(w), w.rdata);
    NameRoundTrip(p, at, w.owner);
    FixedRead(p, at + |name|, w);
    rr := ParseRr(p, at).value.0;
  }

  // ------------------------------------------------------------------ lists of records

  function EncodeWires(ws: seq<Wire>): Bytes {
    if ws == [] then [] else EncodeWires(ws[..|ws| - 1]) + EncodeWire(ws[|ws| - 1])
  }

  ghost predicate AllWritable(ws: seq<Wire>) { forall w :: w in ws ==> Writable(w) }

  ghost predicate AllStand(p: Bytes, rrs: seq<Rr>, ws: seq<Wire>) {
    |rrs| == |ws| && forall i :: 0 <= i < |ws| ==> Stands(p, rrs[i], ws[i])
  }

  lemma StandNext(p: Bytes, rrs: seq<Rr>, ws: seq<Wire>, rr: Rr)
    requires ws != [] && AllStand(p, rrs, ws[..|ws| - 1]) && Stands(p, rr, ws[|ws| - 1])
    ensures AllStand(p, rrs + [rr], ws)
  {
    forall i | 0 <= i < |ws| ensures Stands(p, (rrs + [rr])[i], ws[i]) {
      if i < |ws| - 1 { assert Stands(p, rrs[i], ws[..|ws| - 1][i]); }
    }
  }

  lemma {:induction false} WiresRoundTrip(p: Bytes, at: nat, ws: seq<Wire>) returns (rrs: seq<Rr>)
    requires AllWritable(ws) && HoldsAt(p, at, EncodeWires(ws))
    ensures var r := ParseRrs(p, at, |ws|); r.Ok? && r.value.0 == rrs && r.value.1 == at + |EncodeWires(ws)|
    ensures AllStand(p, rrs, ws)
  {
    if ws == [] {
      rrs := [];
    } else {
      var init, last := ws[..|ws| - 1], ws[|ws| - 1];
      var code := EncodeWires(init);
      HoldsHead(p, at, code, EncodeWire(last));
      assert AllWritable(init) && last in ws;
      var before := WiresRoundTrip(p, at, init);
      var rr := WireRoundTrip(p, at + |code|, last);
      var cursor := ParseRrs(p, at, |init|).value.1;
      OneMore(p, at, |init|, before, cursor, ParseRr(p, cursor));
      rrs := before + [rr];
      StandNext(p, before, ws, rr);
    }
  }

  // ------------------------------------------------------------------ what records say

  ghost predicate Sayable(f: Fact) {
    IsCanonical(f.owner) && (f.Alias? ==> IsCanonical(f.target))
  }

  function WireOf(f: Fact): Wire {
    match f
    case Address(owner, ip, ttl) => Wire(owner, QTYPE_A, QCLASS_IN, ttl, Quad(ip))
    case Alias(owner, target, ttl) => Wire(owner, QTYPE_CNAME, QCLASS_IN, ttl, EncodedName(target))
  }

  lemma FactWritable(f: Fact)
    requires Sayable(f)
    ensures Writable(WireOf(f))
  {
    if f.Alias? { EncodedLength(f.target); }
  }

  lemma FactRead(p: Bytes, rr: Rr, f: Fact)
    requires Sayable(f) && Stands(p, rr, WireOf(f))
    ensures FactOf(p, rr) == Ok(Some(f))
  {
    match f
    case Address(_, ip, _) => QuadRead(p, rr.start, ip);
    case Alias(_, target, _) => NameRoundTrip(p, rr.start, target);
  }

  datatype Soa = Soa(owner: Bytes, ttl: U32, mname: Bytes, rname: Bytes, serial: U32, refresh: U32, retry: U32, expire: U32, minimum: U32)

  ghost predicate SoaSayable(s: Soa) { IsCanonical(s.owner) && IsCanonical(s.mname) && IsCanonical(s.rname) }

  function SoaNumbers(s: Soa): Bytes {
    Quad(s.serial) + (Quad(s.refresh) + (Quad(s.retry) + (Quad(s.expire) + Quad(s.minimum))))
  }

  function WireOfSoa(s: Soa): Wire {
    Wire(s.owner, QTYPE_SOA, QCLASS_IN, s.ttl, EncodedName(s.mname) + (EncodedName(s.rname) + SoaNumbers(s)))
  }

  lemma SoaWritable(s: Soa)
    requires SoaSayable(s)
    ensures Writable(WireOfSoa(s))
  {
    EncodedLength(s.mname);
    EncodedLength(s.rname);
  }

  lemma MinimumRead(p: Bytes, at: nat, s: Soa)
    requires HoldsAt(p, at, SoaNumbers(s))
    ensures |SoaNumbers(s)| == 20 && ReadU32(p, at + 16) == Ok(s.minimum)
  {
    HoldsHead(p, at, Quad(s.serial), Quad(s.refresh) + (Quad(s.retry) + (Quad(s.expire) + Quad(s.minimum))));
    HoldsHead(p, at + 4, Quad(s.refresh), Quad(s.retry) + (Quad(s.expire) + Quad(s.minimum)));
    HoldsHead(p, at + 8, Quad(s.retry), Quad(s.expire) + Quad(s.minimum));
    HoldsHead(p, at + 12, Quad(s.expire), Quad(s.minimum));
    QuadRead(p, at + 16, s.minimum);
  }

  /** Of the five numbers the last one counts, and no more than the record's own TTL. */
  lemma SoaRead(p: Bytes, rr: Rr, s: Soa)
    requires SoaSayable(s) && Stands(p, rr, WireOfSoa(s))
    ensures IsSoa(rr) && SoaMinimum(p, rr) == Ok(Min(s.ttl, s.minimum))
  {
    var m, r := EncodedName(s.mname), EncodedName(s.rname);
    var at := rr.start + |m| + |r|;
    HoldsThree(p, rr.start, m, r, SoaNumbers(s));
    NameRoundTrip(p, rr.start, s.mname);
    NameRoundTrip(p, rr.start + |m|, s.rname);
    MinimumRead(p, at, s);
  }

  function WiresOf(facts: seq<Fact>): (ws: seq<Wire>)
    ensures |ws| == |facts| && forall i :: 0 <= i < |facts| ==> ws[i] == WireOf(facts[i])
  {
    seq(|facts|, i requires 0 <= i < |facts| => WireOf(facts[i]))
  }

  function WiresOfSoas(soas: seq<Soa>): (ws: seq<Wire>)
    ensures |ws| == |soas| && forall i :: 0 <= i < |soas| ==> ws[i] == WireOfSoa(soas[i])
  {
    seq(|soas|, i requires 0 <= i < |soas| => WireOfSoa(soas[i]))
  }

  lemma FactsRead(p: Bytes, rrs: seq<Rr>, facts: seq<Fact>)
    requires (forall f :: f in facts ==> Sayable(f)) && AllStand(p, rrs, WiresOf(facts))
    ensures AllReadable(p, rrs) && Facts(p, rrs) == Elements(facts)
  {
    forall i | 0 <= i < |rrs| ensures FactOf(p, rrs[i]) == Ok(Some(facts[i])) {
      assert facts[i] in facts;
      FactRead(p, rrs[i], facts[i]);
    }
    forall f ensures f in Facts(p, rrs) <==> f in facts {
      if f in facts {
        var i :| 0 <= i < |facts| && facts[i] == f;
        assert FactOf(p, rrs[i]).value == Some(f);
      }
    }
  }

  ghost function SoaLimits(soas: seq<Soa>): set<U32> {
    set s | s in soas :: (Min(s.ttl, s.minimum) as U32)
  }

  lemma SoasRead(p: Bytes, rrs: seq<Rr>, soas: seq<Soa>)
    requires (forall s :: s in soas ==> SoaSayable(s)) && AllStand(p, rrs, WiresOfSoas(soas))
    ensures AllSoaReadable(p, rrs) && SoaValues(p, rrs) == SoaLimits(soas)
  {
    forall i | 0 <= i < |rrs| ensures IsSoa(rrs[i]) && SoaMinimum(p, rrs[i]) == Ok(Min(soas[i].ttl, soas[i].minimum)) {
      assert soas[i] in soas;
      SoaRead(p, rrs[i], soas[i]);
    }
    forall v ensures v in SoaValues(p, rrs) <==> v in SoaLimits(soas) {
      if v in SoaValues(p, rrs) {
        var rr :| rr in rrs && IsSoa(rr) && SoaMinimum(p, rr).Ok? && SoaMinimum(p, rr).value == v;
        var i :| 0 <= i < |rrs| && rrs[i] == rr;
        assert soas[i] in soas;
      }
      if v in SoaLimits(soas) {
        var s :| s in soas && Min(s.ttl, s.minimum) == v;
        var i :| 0 <= i < |soas| && soas[i] == s;
        assert rrs[i] in rrs;
      }
    }
  }

  // ------------------------------------------------------------------- whole responses

  /** A response to one question: what its answers say, its SOA records, and whatever else. */
  datatype Message = Message(flags: U16, name: Bytes, facts: seq<Fact>, soas: seq<Soa>, extra: seq<Wire>)

  ghost predicate Sendable(m: Message, c: Config) {
    && IsCanonical(m.name) && (forall f :: f in m.facts ==> Sayable(f)) && (forall s :: s in m.soas ==> SoaSayable(s)) && AllWritable(m.extra)
    && |m.facts| <= 0xffff && |m.soas| <= 0xffff && |m.extra| <= 0xffff && |m.facts| + |m.soas| + |m.extra| <= c.maxResourceRecords
    && 0x8000 <= m.flags < 0x8800 && m.flags % 0x80 < 0x40 && m.flags % 0x400 < 0x200
  }

  ghost predicate Encodable(m: Message) {
    && AllWritable(WiresOf(m.facts)) && AllWritable(WiresOfSoas(m.soas)) && AllWritable(m.extra)
  }

  lemma SendableEncodable(m: Message, c: Config)
    requires Sendable(m, c)
    ensures Encodable(m)
  {
    forall w | w in WiresOf(m.facts) ensures Writable(w) {
      var i :| 0 <= i < |m.facts| && WiresOf(m.facts)[i] == w;
      assert m.facts[i] in m.facts;
      FactWritable(m.facts[i]);
    }
    forall w | w in WiresOfSoas(m.soas) ensures Writable(w) {
      var i :| 0 <= i < |m.soas| && WiresOfSoas(m.soas)[i] == w;
      assert m.soas[i] in m.soas;
      SoaWritable(m.soas[i]);
    }
  }

  function EncodeHeader(txid: U16, m: Message): Bytes {
    Pair(txid) + (Pair(m.flags) + (Pair(1) + (Pair(Size(m.facts)) + (Pair(Size(m.soas)) + Pair(Size(m.extra))))))
  }

  function EncodeSections(m: Message): Bytes {
    EncodeWires(WiresOf(m.facts)) + (EncodeWires(WiresOfSoas(m.soas)) + EncodeWires(m.extra))
  }

  function EncodeMessage(txid: U16, m: Message): Bytes {
    EncodeHeader(txid, m) + (EncodedName(m.name) + (A_IN + EncodeSections(m)))
  }

  lemma HeaderRead(p: Bytes, txid: U16, m: Message)
    requires HoldsAt(p, 0, EncodeHeader(txid, m))
    ensures |EncodeHeader(txid, m)| == DNS_HEADER_LEN <= |p|
    ensures HeaderOf(p) == Header(txid, m.flags, 1, Size(m.facts), Size(m.soas), Size(m.extra))
  {
    var an, ns, ar := Pair(Size(m.facts)), Pair(Size(m.soas)), Pair(Size(m.extra));
    HoldsHead(p, 0, Pair(txid), Pair(m.flags) + (Pair(1) + (an + (ns + ar))));
    HoldsHead(p, 2, Pair(m.flags), Pair(1) + (an + (ns + ar)));
    HoldsHead(p, 4, Pair(1), an + (ns + ar));
    HoldsHead(p, 6, an, ns + ar);
    HoldsHead(p, 8, ns, ar);
    PairRead(p, 0, txid);
    PairRead(p, 2, m.flags);
    PairRead(p, 4, 1);
    PairRead(p, 6, Size(m.facts));
    PairRead(p, 8, Size(m.soas));
    PairRead(p, 10, Size(m.extra));
  }

  const A_IN: Bytes := Pair(QTYPE_A) + Pair(QCLASS_IN)

  lemma QuestionRead(p: Bytes, name: Bytes)
    requires IsCanonical(name) && HoldsAt(p, DNS_HEADER_LEN, EncodedName(name) + A_IN)
    ensures CheckQuestion(p, name).Ok? && CheckQuestion(p, name).value == DNS_HEADER_LEN + |EncodedName(name)| + |A_IN|
  {
    var n := DNS_HEADER_LEN + |EncodedName(name)|;
    HoldsHead(p, DNS_HEADER_LEN, EncodedName(name), Pair(QTYPE_A) + Pair(QCLASS_IN));
    HoldsHead(p, n, Pair(QTYPE_A), Pair(QCLASS_IN));
    NameRoundTrip(p, DNS_HEADER_LEN, name);
    PairRead(p, n, QTYPE_A);
    PairRead(p, n + 2, QCLASS_IN);
  }

  lemma ReadFrom(p: Bytes, at: nat, h: Header, s: Sections, additional: seq<Rr>, a: nat, b: nat)
    requires var r := ParseRrs(p, at, h.an); r.Ok? && r.value.0 == s.answers && r.value.1 == a
    requires var r := ParseRrs(p, a, h.ns); r.Ok? && r.value.0 == s.authority && r.value.1 == b
    requires var r := ParseRrs(p, b, h.ar); r.Ok? && r.value.0 == additional && r.value.1 == |p|
    ensures ReadSections(p, at, h) == Ok(s)
  {
  }

  lemma SectionAt(p: Bytes, at: nat, n: U16, ws: seq<Wire>) returns (rrs: seq<Rr>, end: nat)
    requires AllWritable(ws) && n == |ws| && HoldsAt(p, at, EncodeWires(ws))
    ensures var r := ParseRrs(p, at, n); r.Ok? && r.value.0 == rrs && r.value.1 == end
    ensures AllStand(p, rrs, ws) && end == at + |EncodeWires(ws)|
  {
    rrs := WiresRoundTrip(p, at, ws);
    end := at + |EncodeWires(ws)|;
  }

  lemma ThreeSections(p: Bytes, at: nat, x: nat, y: nat, h: Header, a: seq<Wire>, b: seq<Wire>, c: seq<Wire>) returns (s: Sections)
    requires AllWritable(a) && AllWritable(b) && AllWritable(c) && h.an == |a| && h.ns == |b| && h.ar == |c|
    requires HoldsAt(p, at, EncodeWires(a)) && HoldsAt(p, x, EncodeWires(b)) && HoldsAt(p, y, EncodeWires(c))
    requires at + |EncodeWires(a)| == x && x + |EncodeWires(b)| == y && y + |EncodeWires(c)| == |p|
    ensures ReadSections(p, at, h) == Ok(s) && AllStand(p, s.answers, a) && AllStand(p, s.authority, b)
  {
    var answers, _ := SectionAt(p, at, h.an, a);
    var authority, _ := SectionAt(p, x, h.ns, b);
    var additional, _ := SectionAt(p, y, h.ar, c);
    s := Sections(answers, authority);
    ReadFrom(p, at, h, s, additional, x, y);
  }

  lemma SectionsInRow(p: Bytes, at: nat, h: Header, a: seq<Wire>, b: seq<Wire>, c: seq<Wire>) returns (s: Sections)
    requires AllWritable(a) && AllWritable(b) && AllWritable(c) && h.an == |a| && h.ns == |b| && h.ar == |c|
    requires var code := EncodeWires(a) + (EncodeWires(b) + EncodeWires(c)); HoldsAt(p, at, code) && at + |code| == |p|
    ensures ReadSections(p, at, h) == Ok(s) && AllStand(p, s.answers, a) && AllStand(p, s.authority, b)
  {
    HoldsThree(p, at, EncodeWires(a), EncodeWires(b), EncodeWires(c));
    s := ThreeSections(p, at, at + |EncodeWires(a)|, at + |EncodeWires(a)| + |EncodeWires(b)|, h, a, b, c);
  }

  lemma SectionsRead(p: Bytes, at: nat, m: Message, h: Header) returns (s: Sections)
    requires Encodable(m) && HoldsAt(p, at, EncodeSections(m)) && at + |EncodeSections(m)| == |p|
    requires h.an == |m.facts| && h.ns == |m.soas| && h.ar == |m.extra|
    ensures ReadSections(p, at, h) == Ok(s)
    ensures AllStand(p, s.answers, WiresOf(m.facts)) && AllStand(p, s.authority, WiresOfSoas(m.soas))
  {
    s := SectionsInRow(p, at, h, WiresOf(m.facts), WiresOfSoas(m.soas), m.extra);
  }

  /** The answer that a message gives. */
  ghost predicate AnswerFits(m: Message, c: Config, a: Result<ParsedAnswer, DnsError>) {
    var rcode, follow := m.flags % 16, Follow(Elements(m.facts), m.name, c.maxCnameDepth, c.maxAddresses);
    if rcode == 3 then a.Ok? && a.value.NxDomain? && NegativeTtlFits(m.soas, c, a.value.ttl)
    else if rcode != 0 then a == Ok(TransientRcode(rcode))
    else if follow.Err? then a == Err(Malformed)
    else if follow.value == [] then a.Ok? && a.value.NoData? && NegativeTtlFits(m.soas, c, a.value.ttl)
    else a == Ok(Positive(follow.value))
  }

  ghost predicate NegativeTtlFits(soas: seq<Soa>, c: Config, ttl: U32) {
    if soas == [] then ttl == c.defaultNegativeTtl else DnsAnswers.IsLeast(SoaLimits(soas), ttl)
  }

  lemma NegativeFits(p: Bytes, authority: seq<Rr>, soas: seq<Soa>, c: Config)
    requires (forall s :: s in soas ==> SoaSayable(s)) && AllStand(p, authority, WiresOfSoas(soas))
    ensures var t := NegativeTtl(p, authority);
            t.Ok? && NegativeTtlFits(soas, c, if t.value.Some? then t.value.value else c.defaultNegativeTtl)
  {
    SoasRead(p, authority, soas);
    NegativeTtlLeast(p, authority);
    if soas != [] {
      var first: U32 := Min(soas[0].ttl, soas[0].minimum);
      assert soas[0] in soas && first in SoaLimits(soas);
    }
  }

  lemma ConcludeFits(p: Bytes, m: Message, s: Sections, c: Config)
    requires Sendable(m, c) && AllStand(p, s.answers, WiresOf(m.facts)) && AllStand(p, s.authority, WiresOfSoas(m.soas))
    ensures AnswerFits(m, c, Conclude(p, m.flags, s, m.name, c))
  {
    assert !Bit(m.flags, 0x200);
    FactsRead(p, s.answers, m.facts);
    NegativeFits(p, s.authority, m.soas, c);
  }

  /** Every message that fits the limits is parsed back to the answer it gives. */
  lemma MessageRoundTrip(p: Bytes, txid: U16, qname: Bytes, m: Message, c: Config)
    requires ValidConfig(c) && Acceptable(qname) && m.name == CanonicalOf(qname) && Sendable(m, c)
    requires p == EncodeMessage(txid, m) && |p| <= c.maxPacketSize
    ensures AnswerFits(m, c, Response(p, txid, qname, c))
  {
    var at := FrontRead(p, txid, m, c);
    SendableEncodable(m, c);
    var s := SectionsRead(p, at, m, CheckHeader(p, txid, c).value);
    ConcludeFits(p, m, s, c);
  }

  lemma Layout(p: Bytes, head: Bytes, name: Bytes, question: Bytes, sections: Bytes)
    requires p == head + (name + (question + sections))
    ensures HoldsAt(p, 0, head) && HoldsAt(p, |head|, name + question) && HoldsAt(p, |head| + |name| + |question|, sections)
    ensures |p| == |head| + |name| + |question| + |sections|
  {
    assert p[0..|p|] == p;
    HoldsHead(p, 0, head, name + (question + sections));
    Associates(name, question, sections);
    HoldsHead(p, |head|, name + question, sections);
  }

  lemma FrontRead(p: Bytes, txid: U16, m: Message, c: Config) returns (at: nat)
    requires ValidConfig(c) && Sendable(m, c) && p == EncodeMessage(txid, m) && |p| <= c.maxPacketSize
    ensures CheckHeader(p, txid, c) == Ok(Header(txid, m.flags, 1, |m.facts|, |m.soas|, |m.extra|))
    ensures CheckQuestion(p, m.name).Ok? && CheckQuestion(p, m.name).value == at
    ensures HoldsAt(p, at, EncodeSections(m)) && at + |EncodeSections(m)| == |p|
  {
    Layout(p, EncodeHeader(txid, m), EncodedName(m.name), A_IN, EncodeSections(m));
    HeaderRead(p, txid, m);
    HeaderChecked(p, txid, m, c);
    QuestionRead(p, m.name);
    at := DNS_HEADER_LEN + |EncodedName(m.name)| + |A_IN|;
  }

  lemma HeaderChecked(p: Bytes, txid: U16, m: Message, c: Config)
    requires ValidConfig(c) && Sendable(m, c) && DNS_HEADER_LEN <= |p| <= c.maxPacketSize
    requires HeaderOf(p) == Header(txid, m.flags, 1, Size(m.facts), Size(m.soas), Size(m.extra))
    ensures CheckHeader(p, txid, c) == Ok(Header(txid, m.flags, 1, |m.facts|, |m.soas|, |m.extra|))
  {
    HeaderMeaning(p, txid, c);
  }

  lemma OneAddress(name: Bytes, ip: Ipv4, ttl: U32, maxDepth: nat, maxAddresses: nat)
    requires maxAddresses != 0
    ensures Follow({Address(name, ip, ttl)}, name, maxDepth, maxAddresses) == Ok([ARecord(ip, ttl)])
  {
    var facts := {Address(name, ip, ttl)};
    assert HasAddress(facts, name);
    assert AddressIps(facts, name) == {ip};
    assert AddressTtls(facts, name, ip) == {ttl};
    RecordsCounted(facts, name, U32_MAX);
    var ips := SortedIps(AddressIps(facts, name));
    assert ips[0] in ips;
    assert Records(facts, name, U32_MAX) == [ARecord(ip, ttl)];
  }

  function Plain(name: Bytes, ip: Ipv4, ttl: U32): Message {
    Message(0x8180, name, [Address(name, ip, ttl)], [], [])
  }

  lemma PlainSendable(name: Bytes, ip: Ipv4, ttl: U32, c: Config)
    requires ValidConfig(c) && IsCanonical(name)
    ensures Sendable(Plain(name, ip, ttl), c)
  {
  }

  lemma PlainFits(name: Bytes, ip: Ipv4, ttl: U32, c: Config, a: Result<ParsedAnswer, DnsError>)
    requires ValidConfig(c) && AnswerFits(Plain(name, ip, ttl), c, a)
    ensures a == Ok(Positive([ARecord(ip, ttl)]))
  {
    OneAddress(name, ip, ttl, c.maxCnameDepth, c.maxAddresses);
    assert Elements(Plain(name, ip, ttl).facts) == {Address(name, ip, ttl)};
  }

  /** The plain answer with one address record gives that address, with its TTL. */
  lemma AddressRoundTrip(p: Bytes, txid: U16, qname: Bytes, ip: Ipv4, ttl: U32, c: Config)
    requires ValidConfig(c) && Acceptable(qname) && |p| <= c.maxPacketSize
    requires p == EncodeMessage(txid, Plain(CanonicalOf(qname), ip, ttl))
    ensures Response(p, txid, qname, c) == Ok(Positive([ARecord(ip, ttl)]))
  {
    var name := CanonicalOf(qname);
    CanonicalResult(qname);
    PlainSendable(name, ip, ttl, c);
    MessageRoundTrip(p, txid, qname, Plain(name, ip, ttl), c);
    PlainFits(name, ip, ttl, c, Response(p, txid, qname, c));
  }
}
