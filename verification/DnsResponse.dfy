/** Whole DNS messages: the A query, its response, and negative TTLs. */
module DnsResponse {
  import opened Prelude
  import opened Names
  import opened DnsNames
  import opened DnsAnswers

  const DNS_HEADER_LEN := 12

  datatype Config = Config(maxPacketSize: nat, maxResourceRecords: nat, maxCnameDepth: nat, maxAddresses: nat, defaultNegativeTtl: U32)

  predicate ValidConfig(c: Config) {
    512 <= c.maxPacketSize <= 65_535 && c.maxResourceRecords != 0 && c.maxCnameDepth != 0 && c.maxAddresses != 0
  }

  datatype ParsedAnswer = Positive(records: seq<ARecord>) | NxDomain(ttl: U32) | NoData(ttl: U32) | TransientRcode(rcode: nat)

  // ------------------------------------------------------------------------- sections

  /** `n` records one after the other. */
  function ParseRrs(p: Bytes, at: nat, n: nat): Result<(seq<Rr>, nat), DnsError> {
    if n == 0 then Ok(([], at))
    else
      var init := ParseRrs(p, at, n - 1);
      if init.Err? then init
      else
        var last := ParseRr(p, init.value.1);
        if last.Err? then Err(last.error) else Ok((init.value.0 + [last.value.0], last.value.1))
  }

  /** Sections tile the packet: each record starts where the one before it ended. */
  lemma {:induction false} RrsTile(p: Bytes, at: nat, n: nat)
    requires at <= |p| && ParseRrs(p, at, n).Ok?
    ensures at <= ParseRrs(p, at, n).value.1 <= |p| && |ParseRrs(p, at, n).value.0| == n
    ensures forall i :: 0 <= i < n ==>
              at < ParseRrs(p, at, n).value.0[i].start <= ParseRrs(p, at, n).value.0[i].end <= ParseRrs(p, at, n).value.1
  {
    if n > 0 {
      RrsTile(p, at, n - 1);
      RrCursor(p, ParseRrs(p, at, n - 1).value.1);
    }
  }

  lemma OneMore(p: Bytes, at: nat, n: nat, records: seq<Rr>, cursor: nat, step: Result<(Rr, nat), DnsError>)
    requires ParseRrs(p, at, n) == Ok((records, cursor)) && step == ParseRr(p, cursor)
    ensures step.Ok? ==> ParseRrs(p, at, n + 1) == Ok((records + [step.value.0], step.value.1))
    ensures step.Err? ==> ParseRrs(p, at, n + 1) == Err(step.error)
  {
  }

  method ReadRrs(p: Bytes, at: nat, n: nat) returns (r: Result<(seq<Rr>, nat), DnsError>)
    ensures r == ParseRrs(p, at, n)
  {
    var records: seq<Rr>, cursor := [], at;
    for i := 0 to n
      invariant ParseRrs(p, at, i) == Ok((records, cursor))
    {
      var rr := ParseRr(p, cursor);
      OneMore(p, at, i, records, cursor, rr);
      if rr.Err? {
        ErrorStays(p, at, i + 1, n);
        return Err(rr.error);
      }
      records, cursor := records + [rr.value.0], rr.value.1;
    }
    return Ok((records, cursor));
  }

  lemma {:induction false} ErrorStays(p: Bytes, at: nat, m: nat, n: nat)
    requires m <= n && ParseRrs(p, at, m).Err?
    ensures ParseRrs(p, at, n) == ParseRrs(p, at, m)
  {
    if m < n { ErrorStays(p, at, m, n - 1); }
  }

  // -------------------------------------------------------------------- negative TTLs

  function SoaMinimum(p: Bytes, rr: Rr): Result<U32, DnsError> {
    var mname := ParseName(p, rr.start);
    if mname.Err? then Err(mname.error)
    else if mname.value.1 > rr.end then Err(Malformed)
    else
      var rname := ParseName(p, mname.value.1);
      if rname.Err? then Err(rname.error)
      else if rname.value.1 + 20 != rr.end then Err(Malformed)
      else
        var minimum := ReadU32(p, rname.value.1 + 16);
        if minimum.Err? then Err(minimum.error) else Ok(Min(rr.ttl, minimum.value))
  }

  predicate IsSoa(rr: Rr) { rr.rrClass == QCLASS_IN && rr.rrType == QTYPE_SOA }

  /** Every SOA of the authority section must be readable; the lowest value counts. */
  function NegativeTtl(p: Bytes, authority: seq<Rr>): Result<Option<U32>, DnsError> {
    if authority == [] then Ok(None)
    else
      var init, last := NegativeTtl(p, authority[..|authority| - 1]), authority[|authority| - 1];
      if init.Err? || !IsSoa(last) then init
      else
        var value := SoaMinimum(p, last);
        if value.Err? then Err(value.error)
        else Ok(Some(if init.value.None? then value.value else Min(init.value.value, value.value)))
  }

  ghost predicate AllSoaReadable(p: Bytes, authority: seq<Rr>) {
    forall rr :: rr in authority && IsSoa(rr) ==> SoaMinimum(p, rr).Ok?
  }

  ghost function SoaValues(p: Bytes, authority: seq<Rr>): set<U32> {
    set rr | rr in authority && IsSoa(rr) && SoaMinimum(p, rr).Ok? :: SoaMinimum(p, rr).value
  }

  /** The negative TTL is the least SOA value, whatever the order of the section. */
  lemma {:induction false} NegativeTtlLeast(p: Bytes, authority: seq<Rr>)
    ensures NegativeTtl(p, authority).Ok? <==> AllSoaReadable(p, authority)
    ensures NegativeTtl(p, authority).Ok? ==>
              var t := NegativeTtl(p, authority).value;
              if t.Some? then IsLeast(SoaValues(p, authority), t.value) else SoaValues(p, authority) == {}
  {
    if authority != [] {
      var init, last := authority[..|authority| - 1], authority[|authority| - 1];
      assert authority == init + [last];
      NegativeTtlLeast(p, init);
      assert forall rr :: rr in authority <==> rr in init || rr == last;
      if IsSoa(last) && SoaMinimum(p, last).Ok? {
        assert SoaValues(p, authority) == SoaValues(p, init) + {SoaMinimum(p, last).value};
      } else {
        assert SoaValues(p, authority) == SoaValues(p, init);
      }
    }
  }

  method ReadNegativeTtl(p: Bytes, authority: seq<Rr>) returns (r: Result<Option<U32>, DnsError>)
    ensures r == NegativeTtl(p, authority)
  {
    var minimum: Option<U32> := None;
    for i := 0 to |authority|
      invariant NegativeTtl(p, authority[..i]) == Ok(minimum)
    {
      var rr := authority[i];
      assert authority[..i + 1][..i] == authority[..i];
      if IsSoa(rr) {
        var value := SoaMinimum(p, rr);
        if value.Err? {
          TtlErrorStays(p, authority, i + 1);
          return Err(value.error);
        }
        minimum := Some(if minimum.None? then value.value else Min(minimum.value, value.value));
      }
    }
    assert authority[..|authority|] == authority;
    return Ok(minimum);
  }

  lemma {:induction false} TtlErrorStays(p: Bytes, authority: seq<Rr>, m: nat)
    requires m <= |authority| && NegativeTtl(p, authority[..m]).Err?
    ensures NegativeTtl(p, authority) == NegativeTtl(p, authority[..m])
    decreases |authority|
  {
    if m < |authority| {
      var init := authority[..|authority| - 1];
      assert init[..m] == authority[..m];
      TtlErrorStays(p, init, m);
    } else {
      assert authority[..m] == authority;
    }
  }

  // ------------------------------------------------------------------------- responses

  datatype Header = Header(txid: U16, flags: U16, qd: U16, an: U16, ns: U16, ar: U16)

  function HeaderOf(p: Bytes): Header
    requires |p| >= DNS_HEADER_LEN
  {
    Header(ReadU16(p, 0).value, ReadU16(p, 2).value, ReadU16(p, 4).value, ReadU16(p, 6).value, ReadU16(p, 8).value, ReadU16(p, 10).value)
  }

  predicate Bit(flags: U16, weight: nat)
    requires weight > 0
  {
    flags / weight % 2 == 1
  }

  /** Checks on the fixed header. */
  function CheckHeader(p: Bytes, txid: U16, c: Config): Result<Header, DnsError> {
    if !ValidConfig(c) then Err(Configuration)
    else if |p| < DNS_HEADER_LEN || |p| > c.maxPacketSize then Err(Malformed)
    else
      var h := HeaderOf(p);
      if h.txid != txid then Err(TransactionMismatch)
      else if !Bit(h.flags, 0x8000) || h.flags / 0x800 % 16 != 0 || Bit(h.flags, 0x40) then Err(Malformed)
      else if h.qd != 1 || h.an + h.ns + h.ar > c.maxResourceRecords then Err(Malformed)
      else Ok(h)
  }

  /** The question must repeat the query; the result is the cursor behind it. */
  function CheckQuestion(p: Bytes, qname: Bytes): Result<nat, DnsError> {
    var name := ParseName(p, DNS_HEADER_LEN);
    if name.Err? then Err(name.error)
    else
      var qtype, qclass := ReadU16(p, name.value.1), ReadU16(p, name.value.1 + 2);
      if qtype.Err? || qclass.Err? then Err(Malformed)
      else if name.value.0 != qname || qtype.value != QTYPE_A || qclass.value != QCLASS_IN then Err(QuestionMismatch)
      else Ok(name.value.1 + 4)
  }

  datatype Sections = Sections(answers: seq<Rr>, authority: seq<Rr>)

  /** The three sections must fill the packet exactly. */
  function ReadSections(p: Bytes, at: nat, h: Header): Result<Sections, DnsError> {
    var answers := ParseRrs(p, at, h.an);
    if answers.Err? then Err(answers.error)
    else
      var authority := ParseRrs(p, answers.value.1, h.ns);
      if authority.Err? then Err(authority.error)
      else
        var additional := ParseRrs(p, authority.value.1, h.ar);
        if additional.Err? then Err(additional.error)
        else if additional.value.1 != |p| then Err(Malformed)
        else Ok(Sections(answers.value.0, authority.value.0))
  }

  /** What a well-formed response says. */
  ghost function Conclude(p: Bytes, flags: U16, s: Sections, qname: Bytes, c: Config): Result<ParsedAnswer, DnsError> {
    if Bit(flags, 0x200) then Err(TcpFallbackRequired)
    else
      var negative := NegativeTtl(p, s.authority);
      if negative.Err? then Err(negative.error)
      else
        var ttl := if negative.value.Some? then negative.value.value else c.defaultNegativeTtl;
        if flags % 16 == 3 then Ok(NxDomain(ttl))
        else if flags % 16 != 0 then Ok(TransientRcode(flags % 16))
        else
          match Answer(p, s.answers, qname, c.maxCnameDepth, c.maxAddresses)
          case Err(e) => Err(e)
          case Ok(records) => if records == [] then Ok(NoData(ttl)) else Ok(Positive(records))
  }

  ghost function Response(p: Bytes, txid: U16, qname: Bytes, c: Config): Result<ParsedAnswer, DnsError> {
    var h := CheckHeader(p, txid, c);
    if h.Err? then Err(h.error)
    else if !Acceptable(qname) then Err(InvalidQueryName)
    else
      var cursor := CheckQuestion(p, CanonicalOf(qname));
      if cursor.Err? then Err(cursor.error)
      else
        var s := ReadSections(p, cursor.value, h.value);
        if s.Err? then Err(s.error) else Conclude(p, h.value.flags, s.value, CanonicalOf(qname), c)
  }

  method SplitSections(p: Bytes, at: nat, h: Header) returns (r: Result<Sections, DnsError>)
    ensures r == ReadSections(p, at, h)
  {
    var answers := ReadRrs(p, at, h.an);
    if answers.Err? { return Err(answers.error); }
    var authority := ReadRrs(p, answers.value.1, h.ns);
    if authority.Err? { return Err(authority.error); }
    var additional := ReadRrs(p, authority.value.1, h.ar);
    if additional.Err? { return Err(additional.error); }
    if additional.value.1 != |p| { return Err(Malformed); }
    return Ok(Sections(answers.value.0, authority.value.0));
  }

  method Interpret(p: Bytes, flags: U16, s: Sections, qname: Bytes, c: Config) returns (r: Result<ParsedAnswer, DnsError>)
    ensures r == Conclude(p, flags, s, qname, c)
  {
    if Bit(flags, 0x200) { return Err(TcpFallbackRequired); }
    var negative := ReadNegativeTtl(p, s.authority);
    if negative.Err? { return Err(negative.error); }
    var ttl := if negative.value.Some? then negative.value.value else c.defaultNegativeTtl;
    var rcode: nat := flags % 16;
    if rcode == 3 { return Ok(NxDomain(ttl)); }
    if rcode != 0 { return Ok(TransientRcode(rcode)); }
    var records := FollowCnameChain(p, s.answers, qname, c.maxCnameDepth, c.maxAddresses);
    if records.Err? { return Err(records.error); }
    return if records.value == [] then Ok(NoData(ttl)) else Ok(Positive(records.value));
  }

  /** `parse_a_response`. */
  method ParseAResponse(p: Bytes, txid: U16, qname: Bytes, c: Config) returns (r: Result<ParsedAnswer, DnsError>)
    ensures r == Response(p, txid, qname, c)
  {
    var h := CheckHeader(p, txid, c);
    if h.Err? { return Err(h.error); }
    var canonical := Canonicalize(qname);
    if canonical.Err? { return Err(canonical.error); }
    var cursor := CheckQuestion(p, canonical.value);
    if cursor.Err? { return Err(cursor.error); }
    var s := SplitSections(p, cursor.value, h.value);
    if s.Err? { return Err(s.error); }
    r := Interpret(p, h.value.flags, s.value, canonical.value, c);
  }

  // -------------------------------------------------------------- what an answer means

  /** The sections stand one after the other behind the question and fill the packet. */
  ghost predicate Framed(p: Bytes, h: Header, at: nat, s: Sections, additional: seq<Rr>) {
    && |s.answers| == h.an && |s.authority| == h.ns && |additional| == h.ar
    && exists a, b :: FramedAt(p, h, at, s, additional, a, b)
  }

  ghost predicate FramedAt(p: Bytes, h: Header, at: nat, s: Sections, additional: seq<Rr>, a: nat, b: nat) {
    && at <= a <= b <= |p|
    && ParseRrs(p, at, h.an) == Ok((s.answers, a)) && ParseRrs(p, a, h.ns) == Ok((s.authority, b)) && ParseRrs(p, b, h.ar) == Ok((additional, |p|))
  }

  lemma SectionsFramed(p: Bytes, at: nat, h: Header, s: Sections) returns (additional: seq<Rr>)
    requires at <= |p| && ReadSections(p, at, h) == Ok(s)
    ensures Framed(p, h, at, s, additional)
  {
    var a, b := ParseRrs(p, at, h.an).value.1, 0;
    RrsTile(p, at, h.an);
    b := ParseRrs(p, a, h.ns).value.1;
    RrsTile(p, a, h.ns);
    RrsTile(p, b, h.ar);
    additional := ParseRrs(p, b, h.ar).value.0;
    assert FramedAt(p, h, at, s, additional, a, b);
  }

  ghost predicate HeaderFits(p: Bytes, txid: U16, c: Config) {
    && DNS_HEADER_LEN <= |p| <= c.maxPacketSize
    && var h := HeaderOf(p);
       // a response to a standard query, with the reserved bit clear
       h.txid == txid && 0x8000 <= h.flags < 0x8800 && h.flags % 0x80 < 0x40 && h.qd == 1 && h.an + h.ns + h.ar <= c.maxResourceRecords
  }

  /** The least SOA value of the authority section, or the configured default. */
  ghost predicate NegativeFor(p: Bytes, authority: seq<Rr>, c: Config, ttl: U32) {
    if SoaValues(p, authority) == {} then ttl == c.defaultNegativeTtl else IsLeast(SoaValues(p, authority), ttl)
  }

  /** The addresses are exactly those at the end of the alias chain from `qname`. */
  ghost predicate Reached(facts: set<Fact>, qname: Bytes, names: seq<Bytes>, path: U32, records: seq<ARecord>) {
    && IsChain(facts, names) && names[0] == qname
    && (forall i, j :: 0 <= i < j < |records| ==> records[i].ip < records[j].ip)
    && (forall ip :: ip in AddressIps(facts, names[|names| - 1]) <==> ListsIp(records, ip))
    && (if records == [] then !HasAddress(facts, names[|names| - 1]) && !HasAlias(facts, names[|names| - 1]) else PathTtl(facts, names, path))
    && (forall i :: 0 <= i < |records| ==>
          AddressTtls(facts, names[|names| - 1], records[i].ip) != {} &&
          records[i].ttl == Min(path, Least(AddressTtls(facts, names[|names| - 1], records[i].ip))))
  }

  /** What each kind of answer says about the sections. */
  ghost predicate Says(p: Bytes, rcode: nat, s: Sections, qname: Bytes, c: Config, a: ParsedAnswer, names: seq<Bytes>, path: U32) {
    match a
    case Positive(records) => rcode == 0 && records != [] && Reached(Facts(p, s.answers), qname, names, path, records)
    case NoData(ttl) => rcode == 0 && Reached(Facts(p, s.answers), qname, names, path, []) && NegativeFor(p, s.authority, c, ttl)
    case NxDomain(ttl) => rcode == 3 && NegativeFor(p, s.authority, c, ttl)
    case TransientRcode(code) => rcode == code && code != 0 && code != 3
  }

  lemma ConcludeMeaning(p: Bytes, flags: U16, s: Sections, qname: Bytes, c: Config, a: ParsedAnswer) returns (names: seq<Bytes>, path: U32)
    requires Conclude(p, flags, s, qname, c) == Ok(a)
    ensures !Bit(flags, 0x200) && Says(p, flags % 16, s, qname, c, a, names, path)
  {
    NegativeTtlLeast(p, s.authority);
    names, path := [], 0;
    if flags % 16 == 0 {
      var records := Answer(p, s.answers, qname, c.maxCnameDepth, c.maxAddresses).value;
      names, path := FollowMeaning(Facts(p, s.answers), qname, c.maxCnameDepth, c.maxAddresses, records);
    }
  }

  lemma FlagBits(flags: U16)
    ensures Bit(flags, 0x8000) && flags / 0x800 % 16 == 0 <==> 0x8000 <= flags < 0x8800
    ensures Bit(flags, 0x40) <==> flags % 0x80 >= 0x40
  {
  }

  /** Exactly the fitting headers are accepted. */
  lemma HeaderMeaning(p: Bytes, txid: U16, c: Config)
    ensures CheckHeader(p, txid, c).Ok? <==> ValidConfig(c) && HeaderFits(p, txid, c)
    ensures CheckHeader(p, txid, c).Ok? ==> CheckHeader(p, txid, c).value == HeaderOf(p)
  {
    if |p| >= DNS_HEADER_LEN { FlagBits(HeaderOf(p).flags); }
  }

  /** The question repeats the query, and the sections start right behind it. */
  ghost predicate Asks(p: Bytes, name: Bytes, at: nat) {
    && 4 <= at <= |p| && ParseName(p, DNS_HEADER_LEN) == Ok((name, at - 4))
    && ReadU16(p, at - 4) == Ok(QTYPE_A) && ReadU16(p, at - 2) == Ok(QCLASS_IN)
  }

  lemma QuestionMeaning(p: Bytes, name: Bytes, at: nat)
    ensures CheckQuestion(p, name) == Ok(at) <==> Asks(p, name, at)
  {
  }

  lemma ResponseStages(p: Bytes, txid: U16, qname: Bytes, name: Bytes, c: Config, a: ParsedAnswer) returns (h: Header, at: nat, s: Sections)
    requires Response(p, txid, qname, c) == Ok(a) && name == CanonicalOf(qname)
    ensures CheckHeader(p, txid, c) == Ok(h) && CheckQuestion(p, name) == Ok(at)
    ensures ReadSections(p, at, h) == Ok(s) && Conclude(p, h.flags, s, name, c) == Ok(a)
  {
    h := CheckHeader(p, txid, c).value;
    at := CheckQuestion(p, name).value;
    s := ReadSections(p, at, h).value;
  }

  /** Whatever packet is accepted: it answers this transaction and this question in full,
      its sections fill it, and the answer says exactly what they say. */
  lemma ResponseMeaning(p: Bytes, txid: U16, qname: Bytes, name: Bytes, c: Config, a: ParsedAnswer)
    returns (at: nat, s: Sections, additional: seq<Rr>, names: seq<Bytes>, path: U32)
    requires Response(p, txid, qname, c) == Ok(a) && name == CanonicalOf(qname)
    ensures HeaderFits(p, txid, c) && !Bit(HeaderOf(p).flags, 0x200) && Asks(p, name, at)
    ensures Framed(p, HeaderOf(p), at, s, additional)
    ensures Says(p, HeaderOf(p).flags % 16, s, name, c, a, names, path)
  {
    var h;
    h, at, s := ResponseStages(p, txid, qname, name, c, a);
    HeaderMeaning(p, txid, c);
    QuestionMeaning(p, name, at);
    additional := SectionsFramed(p, at, h, s);
    names, path := ConcludeMeaning(p, h.flags, s, name, c, a);
  }

  // -------------------------------------------------------- which packets are accepted

  /** The packet repeats the question and its sections fill the rest of it. */
  ghost predicate Whole(p: Bytes, name: Bytes, at: nat, s: Sections, additional: seq<Rr>) {
    |p| >= DNS_HEADER_LEN && Asks(p, name, at) && Framed(p, HeaderOf(p), at, s, additional)
  }

  /** Its records can be read and lead somewhere. */
  ghost predicate Conclusive(p: Bytes, rcode: nat, s: Sections, name: Bytes, c: Config) {
    && AllSoaReadable(p, s.authority)
    && (rcode == 0 ==> AllReadable(p, s.answers) && Consistent(Facts(p, s.answers)) &&
                       exists names :: ChainFrom(Facts(p, s.answers), name, names, c.maxCnameDepth, c.maxAddresses))
  }

  lemma ConcludeIff(p: Bytes, flags: U16, s: Sections, name: Bytes, c: Config)
    ensures Conclude(p, flags, s, name, c).Ok? <==> !Bit(flags, 0x200) && Conclusive(p, flags % 16, s, name, c)
    ensures Conclude(p, flags, s, name, c) == Err(TcpFallbackRequired) <==> Bit(flags, 0x200)
    ensures Conclude(p, flags, s, name, c).Err? ==> Conclude(p, flags, s, name, c).error in {TcpFallbackRequired, Malformed}
  {
    NegativeTtlLeast(p, s.authority);
    NegativeErrs(p, s.authority);
    if flags % 16 == 0 && AllReadable(p, s.answers) {
      FollowIff(Facts(p, s.answers), name, c.maxCnameDepth, c.maxAddresses);
    }
  }

  lemma {:induction false} NegativeErrs(p: Bytes, authority: seq<Rr>)
    ensures NegativeTtl(p, authority).Err? ==> NegativeTtl(p, authority).error == Malformed
  {
    if authority != [] { NegativeErrs(p, authority[..|authority| - 1]); }
  }

  lemma {:induction false} RrsErrs(p: Bytes, at: nat, n: nat)
    ensures ParseRrs(p, at, n).Err? ==> ParseRrs(p, at, n).error == Malformed
  {
    if n > 0 { RrsErrs(p, at, n - 1); }
  }

  lemma SectionsErrs(p: Bytes, at: nat, h: Header)
    ensures ReadSections(p, at, h).Err? ==> ReadSections(p, at, h).error == Malformed
  {
    forall from, n { RrsErrs(p, from, n); }
  }

  lemma FramedSections(p: Bytes, at: nat, h: Header, s: Sections, additional: seq<Rr>)
    requires Framed(p, h, at, s, additional)
    ensures ReadSections(p, at, h) == Ok(s)
  {
    var a, b :| FramedAt(p, h, at, s, additional, a, b);
  }

  /** Where the parts of a packet are, if it has them. */
  lemma Parted(p: Bytes, txid: U16, qname: Bytes, name: Bytes, c: Config) returns (at: nat, s: Sections, additional: seq<Rr>)
    requires ValidConfig(c) && HeaderFits(p, txid, c) && Acceptable(qname) && name == CanonicalOf(qname)
    ensures (exists at, s, additional :: Whole(p, name, at, s, additional)) ==>
              Whole(p, name, at, s, additional) && Response(p, txid, qname, c) == Conclude(p, HeaderOf(p).flags, s, name, c)
    ensures (forall at, s, additional :: !Whole(p, name, at, s, additional)) ==>
              Response(p, txid, qname, c).Err? && Response(p, txid, qname, c).error in {QuestionMismatch, Malformed}
  {
    HeaderMeaning(p, txid, c);
    at, s, additional := 0, Sections([], []), [];
    if x, y, z :| Whole(p, name, x, y, z) {
      at, s, additional := x, y, z;
      QuestionMeaning(p, name, at);
      FramedSections(p, at, HeaderOf(p), s, additional);
    } else {
      var asked := CheckQuestion(p, name);
      if asked.Ok? {
        QuestionMeaning(p, name, asked.value);
        SectionsErrs(p, asked.value, HeaderOf(p));
        var read := ReadSections(p, asked.value, HeaderOf(p));
        if read.Ok? {
          var more := SectionsFramed(p, asked.value, HeaderOf(p), read.value);
          assert Whole(p, name, asked.value, read.value, more);
        }
      }
    }
  }

  lemma OneWhole(p: Bytes, name: Bytes, at: nat, s: Sections, additional: seq<Rr>, at': nat, s': Sections, additional': seq<Rr>)
    requires Whole(p, name, at, s, additional) && Whole(p, name, at', s', additional')
    ensures at == at' && s == s'
  {
    FramedSections(p, at, HeaderOf(p), s, additional);
    FramedSections(p, at', HeaderOf(p), s', additional');
  }

  /** A packet is accepted exactly when its header fits, it repeats the question, its
      sections fill it, it is not truncated, and its records can be read and lead somewhere. */
  lemma ResponseIff(p: Bytes, txid: U16, qname: Bytes, c: Config)
    ensures Response(p, txid, qname, c).Ok? <==>
            && ValidConfig(c) && HeaderFits(p, txid, c) && Acceptable(qname) && HeaderOf(p).flags % 0x400 < 0x200
            && exists at, s, additional ::
                 Whole(p, CanonicalOf(qname), at, s, additional) && Conclusive(p, HeaderOf(p).flags % 16, s, CanonicalOf(qname), c)
  {
    HeaderMeaning(p, txid, c);
    if ValidConfig(c) && HeaderFits(p, txid, c) && Acceptable(qname) {
      var name, flags := CanonicalOf(qname), HeaderOf(p).flags;
      assert Bit(flags, 0x200) <==> flags % 0x400 >= 0x200;
      var at, s, additional := Parted(p, txid, qname, name, c);
      ConcludeIff(p, flags, s, name, c);
      forall x, y, z | Whole(p, name, x, y, z) && Whole(p, name, at, s, additional) ensures y == s {
        OneWhole(p, name, x, y, z, at, s, additional);
      }
    }
  }

  /** A question can be read, and it is another one. */
  ghost predicate AsksOther(p: Bytes, name: Bytes) {
    && var read := ParseName(p, DNS_HEADER_LEN);
    && read.Ok? && read.value.1 + 4 <= |p|
    && (read.value.0 != name || ReadU16(p, read.value.1) != Ok(QTYPE_A) || ReadU16(p, read.value.1 + 2) != Ok(QCLASS_IN))
  }

  /** The response when the header fits and the name can be asked for. */
  lemma ResponseBody(p: Bytes, txid: U16, qname: Bytes, name: Bytes, c: Config)
    requires ValidConfig(c) && HeaderFits(p, txid, c) && Acceptable(qname) && name == CanonicalOf(qname)
    ensures Response(p, txid, qname, c).Err? ==> Response(p, txid, qname, c).error in {QuestionMismatch, TcpFallbackRequired, Malformed}
    ensures Response(p, txid, qname, c) == Err(QuestionMismatch) <==> AsksOther(p, name)
  {
    HeaderMeaning(p, txid, c);
    OtherQuestion(p, name);
    var asked := CheckQuestion(p, name);
    if asked.Ok? {
      SectionsErrs(p, asked.value, HeaderOf(p));
      var read := ReadSections(p, asked.value, HeaderOf(p));
      if read.Ok? { ConcludeIff(p, HeaderOf(p).flags, read.value, name, c); }
    }
  }

  /** What the refusals before the records mean. */
  lemma ResponseRefusals(p: Bytes, txid: U16, qname: Bytes, c: Config)
    ensures Response(p, txid, qname, c) == Err(Configuration) <==> !ValidConfig(c)
    ensures Response(p, txid, qname, c) == Err(TransactionMismatch) <==>
            ValidConfig(c) && DNS_HEADER_LEN <= |p| <= c.maxPacketSize && HeaderOf(p).txid != txid
    ensures Response(p, txid, qname, c) == Err(InvalidQueryName) <==> ValidConfig(c) && HeaderFits(p, txid, c) && !Acceptable(qname)
    ensures Response(p, txid, qname, c) == Err(QuestionMismatch) <==>
            ValidConfig(c) && HeaderFits(p, txid, c) && Acceptable(qname) && AsksOther(p, CanonicalOf(qname))
  {
    HeaderMeaning(p, txid, c);
    if ValidConfig(c) && HeaderFits(p, txid, c) && Acceptable(qname) { ResponseBody(p, txid, qname, CanonicalOf(qname), c); }
  }

  /** The query is repeated over TCP exactly for a truncated packet that is whole otherwise. */
  lemma TruncatedIff(p: Bytes, txid: U16, qname: Bytes, c: Config)
    ensures Response(p, txid, qname, c) == Err(TcpFallbackRequired) <==>
            ValidConfig(c) && HeaderFits(p, txid, c) && Acceptable(qname) && HeaderOf(p).flags % 0x400 >= 0x200 &&
            exists at, s, additional :: Whole(p, CanonicalOf(qname), at, s, additional)
  {
    HeaderMeaning(p, txid, c);
    if ValidConfig(c) && HeaderFits(p, txid, c) && Acceptable(qname) {
      var name, flags := CanonicalOf(qname), HeaderOf(p).flags;
      assert Bit(flags, 0x200) <==> flags % 0x400 >= 0x200;
      var at, s, additional := Parted(p, txid, qname, name, c);
      ConcludeIff(p, flags, s, name, c);
    }
  }

  lemma OtherQuestion(p: Bytes, name: Bytes)
    ensures CheckQuestion(p, name) == Err(QuestionMismatch) <==> AsksOther(p, name)
    ensures CheckQuestion(p, name).Err? ==> CheckQuestion(p, name).error in {QuestionMismatch, Malformed}
  {
  }

  // --------------------------------------------------------------------------- queries

  function Pair(n: U16): Bytes {
    [n / 0x100, n % 0x100]
  }

  /** A question for `name`, with the given second flag byte pair. */
  function Question(txid: U16, flags: U16, name: Bytes): Bytes {
    Pair(txid) + Pair(flags) + Pair(1) + Pair(0) + Pair(0) + Pair(0) + EncodeLabels(Split(name)) + Pair(QTYPE_A) + Pair(QCLASS_IN)
  }

  const FLAG_RD: U16 := 0x0100
  const FLAG_QR_RD: U16 := 0x8100

  /** `build_a_query`. */
  method BuildAQuery(qname: Bytes, txid: U16) returns (r: Result<Bytes, DnsError>)
    ensures r.Ok? <==> Acceptable(qname)
    ensures r.Ok? ==> r.value == Question(txid, FLAG_RD, CanonicalOf(qname))
  {
    var canonical := Canonicalize(qname);
    if canonical.Err? { return Err(canonical.error); }
    CanonicalResult(qname);
    assert Short(Split(canonical.value)) by {
      assert forall i :: 0 <= i < |Split(canonical.value)| ==> CanonicalLabel(Split(canonical.value)[i]);
    }
    var packet := Pair(txid) + Pair(FLAG_RD) + Pair(1) + Pair(0) + Pair(0) + Pair(0);
    var name := EncodeName(canonical.value);
    packet := packet + name.value;
    return Ok(packet + Pair(QTYPE_A) + Pair(QCLASS_IN));
  }

  lemma {:induction false} BodyLength(labels: seq<Bytes>)
    requires labels != []
    ensures |EncodeBody(labels)| == JoinedLength(labels) + 1
  {
    if |labels| > 1 {
      BodyLength(labels[..|labels| - 1]);
    } else {
      assert labels[..0] == [];
      assert EncodeBody(labels[..0]) == [] && JoinedLength(labels[..0]) == 0;
    }
  }

  /** A canonical name is two bytes longer on the wire. */
  lemma EncodedLength(name: Bytes)
    requires IsCanonical(name)
    ensures |EncodeLabels(Split(name))| == |name| + 2
  {
    JoinSplit(name);
    JoinLength(Split(name));
    BodyLength(Split(name));
  }

  lemma PairRead(p: Bytes, at: nat, n: U16)
    requires HoldsAt(p, at, Pair(n))
    ensures ReadU16(p, at) == Ok(n)
  {
    assert p[at] == p[at..at + 2][0] && p[at + 1] == p[at..at + 2][1];
  }

  /** The layout of a question packet. */
  lemma QuestionLayout(txid: U16, flags: U16, code: Bytes, p: Bytes)
    requires p == Pair(txid) + Pair(flags) + Pair(1) + Pair(0) + Pair(0) + Pair(0) + code + Pair(QTYPE_A) + Pair(QCLASS_IN)
    ensures |p| == 16 + |code| && HoldsAt(p, DNS_HEADER_LEN, code)
    ensures ReadU16(p, 0) == Ok(txid) && ReadU16(p, 2) == Ok(flags) && ReadU16(p, 4) == Ok(1)
    ensures ReadU16(p, 6) == Ok(0) && ReadU16(p, 8) == Ok(0) && ReadU16(p, 10) == Ok(0)
    ensures ReadU16(p, DNS_HEADER_LEN + |code|) == Ok(QTYPE_A) && ReadU16(p, DNS_HEADER_LEN + |code| + 2) == Ok(QCLASS_IN)
  {
    var n := DNS_HEADER_LEN + |code|;
    assert p[DNS_HEADER_LEN..n] == code;
    assert HoldsAt(p, 0, Pair(txid)) && HoldsAt(p, 2, Pair(flags)) && HoldsAt(p, 4, Pair(1));
    assert HoldsAt(p, 6, Pair(0)) && HoldsAt(p, 8, Pair(0)) && HoldsAt(p, 10, Pair(0));
    assert HoldsAt(p, n, Pair(QTYPE_A)) && HoldsAt(p, n + 2, Pair(QCLASS_IN));
    PairRead(p, 0, txid);
    PairRead(p, 2, flags);
    PairRead(p, 4, 1);
    PairRead(p, 6, 0);
    PairRead(p, 8, 0);
    PairRead(p, 10, 0);
    PairRead(p, n, QTYPE_A);
    PairRead(p, n + 2, QCLASS_IN);
  }

  lemma NothingFollows(p: Bytes, qname: Bytes, maxDepth: nat, maxAddresses: nat)
    ensures Answer(p, [], qname, maxDepth, maxAddresses) == Ok([])
  {
    var facts := Facts(p, []);
    assert facts == {};
    assert !HasAddress(facts, qname) && !HasAlias(facts, qname);
  }

  const ECHO_HEADER := Header(0, FLAG_QR_RD, 1, 0, 0, 0)

  lemma EchoHeader(p: Bytes, txid: U16, c: Config)
    requires DNS_HEADER_LEN <= |p| <= 512 && ValidConfig(c)
    requires ReadU16(p, 0) == Ok(txid) && ReadU16(p, 2) == Ok(FLAG_QR_RD) && ReadU16(p, 4) == Ok(1)
    requires ReadU16(p, 6) == Ok(0) && ReadU16(p, 8) == Ok(0) && ReadU16(p, 10) == Ok(0)
    ensures CheckHeader(p, txid, c) == Ok(ECHO_HEADER.(txid := txid))
  {
  }

  lemma EchoQuestion(p: Bytes, name: Bytes, n: nat)
    requires ParseName(p, DNS_HEADER_LEN) == Ok((name, n)) && ReadU16(p, n) == Ok(QTYPE_A) && ReadU16(p, n + 2) == Ok(QCLASS_IN)
    ensures CheckQuestion(p, name) == Ok(n + 4)
  {
  }

  lemma EchoConcludes(p: Bytes, txid: U16, name: Bytes, c: Config)
    ensures ReadSections(p, |p|, ECHO_HEADER.(txid := txid)) == Ok(Sections([], []))
    ensures Conclude(p, FLAG_QR_RD, Sections([], []), name, c) == Ok(NoData(c.defaultNegativeTtl))
  {
    NothingFollows(p, name, c.maxCnameDepth, c.maxAddresses);
  }

  lemma EchoParts(p: Bytes, txid: U16, name: Bytes, c: Config)
    requires IsCanonical(name) && ValidConfig(c) && p == Question(txid, FLAG_QR_RD, name)
    ensures CheckHeader(p, txid, c) == Ok(ECHO_HEADER.(txid := txid)) && CheckQuestion(p, name) == Ok(|p|)
  {
    var code := EncodeLabels(Split(name));
    EncodedLength(name);
    QuestionLayout(txid, FLAG_QR_RD, code, p);
    NameRoundTrip(p, DNS_HEADER_LEN, name);
    EchoHeader(p, txid, c);
    EchoQuestion(p, name, DNS_HEADER_LEN + |code|);
  }

  lemma SetResponseBit(txid: U16, name: Bytes)
    ensures Question(txid, FLAG_QR_RD, name) == Question(txid, FLAG_RD, name)[2 := 0x81]
  {
    var a, b := Question(txid, FLAG_QR_RD, name), Question(txid, FLAG_RD, name)[2 := 0x81];
    var tail := Pair(1) + Pair(0) + Pair(0) + Pair(0) + EncodeLabels(Split(name)) + Pair(QTYPE_A) + Pair(QCLASS_IN);
    assert a == Pair(txid) + Pair(FLAG_QR_RD) + tail;
    assert Question(txid, FLAG_RD, name) == Pair(txid) + Pair(FLAG_RD) + tail;
  }

  /** A query sent back with only the response bit set is a valid empty answer,
      for every name, transaction and valid configuration. */
  lemma EchoIsNoData(qname: Bytes, txid: U16, c: Config, p: Bytes)
    requires Acceptable(qname) && ValidConfig(c) && p == Question(txid, FLAG_RD, CanonicalOf(qname))[2 := 0x81]
    ensures Response(p, txid, qname, c) == Ok(NoData(c.defaultNegativeTtl))
  {
    var name := CanonicalOf(qname);
    CanonicalResult(qname);
    SetResponseBit(txid, name);
    EchoParts(p, txid, name, c);
    EchoConcludes(p, txid, name, c);
  }
}
