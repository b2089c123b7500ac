/** The bounds-checked extractor that pulls the client random, the session id and the
    X25519 share out of a TLS-record-framed ClientHello (sections 4.1.2 and 4.2.8 of
    RFC 8446), against an encoder for every ClientHello it can read. */
module ClientHello {
  import opened Prelude
  import opened Names

  const KEY_SHARE: U16 := 0x33
  const X25519: U16 := 0x1d

  datatype HelloFields = HelloFields(random: Bytes, sessionId: Bytes, x25519: Bytes)

  // ----------------------------------------------------------------------- encoding

  datatype Share = Share(group: U16, key: Bytes)

  datatype Extension = Extension(kind: U16, data: Bytes)

  /** A framed ClientHello: `frame` is the record and handshake headers, `slack` the
      bytes of the extension block too short for another extension header, and `rest`
      whatever follows the block. */
  datatype Hello = Hello(frame: Bytes, version: Bytes, random: Bytes, sessionId: Bytes, ciphers: Bytes,
                         compression: Bytes, extensions: seq<Extension>, slack: Bytes, rest: Bytes)

  function U16Bytes(n: U16): (r: Bytes)
    ensures |r| == 2 && U16At(r, 0) == n
  {
    [n / 0x100, n % 0x100]
  }

  function U16At(b: Bytes, at: nat): U16
    requires at + 1 < |b|
  {
    var high: nat, low: nat := b[at], b[at + 1];
    high * 0x100 + low
  }

  predicate Sized(b: Bytes) { |b| <= 0xffff }

  function EncodeShare(s: Share): Bytes
    requires Sized(s.key)
  {
    U16Bytes(s.group) + U16Bytes(|s.key|) + s.key
  }

  predicate SharesFit(shares: seq<Share>) {
    forall i :: 0 <= i < |shares| ==> Sized(shares[i].key)
  }

  function EncodeShares(shares: seq<Share>): Bytes
    requires SharesFit(shares)
  {
    if shares == [] then [] else EncodeShare(shares[0]) + EncodeShares(shares[1..])
  }

  function EncodeExtension(e: Extension): Bytes
    requires Sized(e.data)
  {
    U16Bytes(e.kind) + U16Bytes(|e.data|) + e.data
  }

  predicate ExtensionsFit(extensions: seq<Extension>) {
    forall i :: 0 <= i < |extensions| ==> Sized(extensions[i].data)
  }

  function EncodeExtensions(extensions: seq<Extension>): Bytes
    requires ExtensionsFit(extensions)
  {
    if extensions == [] then [] else EncodeExtension(extensions[0]) + EncodeExtensions(extensions[1..])
  }

  predicate ValidFrame(h: Hello) {
    && |h.frame| == 9 && h.frame[0] == 0x16 && h.frame[5] == 0x01
    && |h.version| == 2 && |h.random| == 32 && |h.sessionId| == 32
  }

  predicate ValidHello(h: Hello) {
    && ValidFrame(h)
    && Sized(h.ciphers) && |h.compression| <= 0xff
    && ExtensionsFit(h.extensions) && |h.slack| < 4 && Sized(EncodeExtensions(h.extensions) + h.slack)
  }

  function FixedPart(h: Hello): Bytes {
    h.frame + h.version + h.random + [32] + h.sessionId
  }

  function Assemble(fixed: Bytes, ciphers: Bytes, compression: Bytes, block: Bytes, rest: Bytes): Bytes
    requires Sized(ciphers) && |compression| <= 0xff && Sized(block)
  {
    fixed + U16Bytes(|ciphers|) + ciphers + [|compression|] + compression + U16Bytes(|block|) + block + rest
  }

  function Encode(h: Hello): Bytes
    requires ValidHello(h)
  {
    Assemble(FixedPart(h), h.ciphers, h.compression, EncodeExtensions(h.extensions) + h.slack, h.rest)
  }

  // ---------------------------------------------------------------------- key shares

  predicate Usable(s: Share) { s.group == X25519 && |s.key| == 32 }

  predicate NoneUsable(shares: seq<Share>) {
    forall i :: 0 <= i < |shares| ==> !Usable(shares[i])
  }

  /** The first usable key of a share list; only the header of a share has to start
      within `room`, its key may run past it. */
  function FirstKey(d: Bytes, room: nat): Option<Bytes> {
    if room < 4 || |d| < 4 then None
    else
      var end := 4 + U16At(d, 2);
      if end > |d| then None
      else if U16At(d, 0) == X25519 && end == 36 then Some(d[4..36])
      else FirstKey(d[end..], SatSub(room, end))
  }

  function ShareBytes(data: Bytes): Bytes {
    if |data| < 2 then [] else data[2..]
  }

  /** The declared length of the share list, cut off at the end of the body. */
  function ShareRoom(data: Bytes): nat {
    if |data| < 2 then 0 else Min(U16At(data, 0), |data| - 2)
  }

  function KeyOf(data: Bytes): Option<Bytes> {
    FirstKey(ShareBytes(data), ShareRoom(data))
  }

  /** A share list with a usable key, and nothing usable before it. */
  ghost predicate Lists(d: Bytes, room: nat, k: Bytes, before: seq<Share>, rest: Bytes) {
    && SharesFit(before) && NoneUsable(before) && |k| == 32
    && d == EncodeShares(before) + (EncodeShare(Share(X25519, k)) + rest)
    && |EncodeShares(before)| + 4 <= room
  }

  lemma Record(d: Bytes, a: U16, body: Bytes, rest: Bytes)
    requires Sized(body)
    requires d == U16Bytes(a) + U16Bytes(|body|) + body + rest
    ensures |d| == 4 + |body| + |rest|
    ensures U16At(d, 0) == a && U16At(d, 2) == |body|
    ensures d[4..4 + |body|] == body && d[4 + |body|..] == rest
  {
    assert d[0] == U16Bytes(a)[0] && d[1] == U16Bytes(a)[1];
    assert d[2] == U16Bytes(|body|)[0] && d[3] == U16Bytes(|body|)[1];
  }

  lemma Unrecord(d: Bytes, end: nat)
    requires |d| >= 4 && end == 4 + U16At(d, 2) <= |d|
    ensures d == U16Bytes(U16At(d, 0)) + U16Bytes(end - 4) + d[4..end] + d[end..]
  {
    assert d == d[..4] + d[4..end] + d[end..];
    assert d[..4] == [d[0], d[1], d[2], d[3]];
    assert U16Bytes(U16At(d, 0)) == [d[0], d[1]];
    assert U16Bytes(U16At(d, 2)) == [d[2], d[3]];
  }

  /** Whatever precedes and follows the first usable share, its key is found. */
  lemma {:induction false} KeyFound(d: Bytes, room: nat, k: Bytes, before: seq<Share>, rest: Bytes)
    requires Lists(d, room, k, before, rest)
    ensures FirstKey(d, room) == Some(k)
    decreases |before|
  {
    if before == [] {
      assert d == U16Bytes(X25519) + U16Bytes(|k|) + k + rest;
      Record(d, X25519, k, rest);
    } else {
      var s, tail := before[0], EncodeShares(before[1..]) + (EncodeShare(Share(X25519, k)) + rest);
      assert d == U16Bytes(s.group) + U16Bytes(|s.key|) + s.key + tail;
      Record(d, s.group, s.key, tail);
      assert !Usable(s);
      KeyFound(tail, room - (4 + |s.key|), k, before[1..], rest);
    }
  }

  lemma ListedHere(d: Bytes, room: nat)
    requires 4 <= room && 36 <= |d| && U16At(d, 0) == X25519 && U16At(d, 2) == 32
    ensures Lists(d, room, d[4..36], [], d[36..])
  {
    Unrecord(d, 36);
    assert d == EncodeShare(Share(X25519, d[4..36])) + d[36..];
  }

  lemma ListedLater(d: Bytes, room: nat, end: nat, k: Bytes, more: seq<Share>, rest: Bytes)
    requires |d| >= 4 && end == 4 + U16At(d, 2) <= |d| && end <= room
    requires !Usable(Share(U16At(d, 0), d[4..end]))
    requires Lists(d[end..], room - end, k, more, rest)
    ensures Lists(d, room, k, [Share(U16At(d, 0), d[4..end])] + more, rest)
  {
    var s := Share(U16At(d, 0), d[4..end]);
    var before := [s] + more;
    Unrecord(d, end);
    assert d == EncodeShare(s) + d[end..];
    assert before[1..] == more;
    assert EncodeShares(before) == EncodeShare(s) + EncodeShares(more);
  }

  /** A key that is found is the first usable one of a share list. */
  lemma {:induction false} KeyListed(d: Bytes, room: nat) returns (before: seq<Share>, rest: Bytes)
    requires FirstKey(d, room).Some?
    ensures Lists(d, room, FirstKey(d, room).value, before, rest)
    decreases |d|
  {
    var end := 4 + U16At(d, 2);
    if U16At(d, 0) == X25519 && end == 36 {
      ListedHere(d, room);
      before, rest := [], d[36..];
    } else {
      var more;
      more, rest := KeyListed(d[end..], SatSub(room, end));
      ListedLater(d, room, end, FirstKey(d, room).value, more, rest);
      before := [Share(U16At(d, 0), d[4..end])] + more;
    }
  }

  /** A key-share extension body offers `k`: its length prefix covers the header of a
      usable share that no usable share precedes. */
  ghost predicate Offers(data: Bytes, k: Bytes) {
    exists before, rest :: Lists(ShareBytes(data), ShareRoom(data), k, before, rest)
  }

  lemma KeyExact(data: Bytes, k: Bytes)
    ensures KeyOf(data) == Some(k) <==> Offers(data, k)
  {
    var d, room := ShareBytes(data), ShareRoom(data);
    if FirstKey(d, room) == Some(k) {
      var before, rest := KeyListed(d, room);
      assert Lists(d, room, k, before, rest);
    }
    if before, rest :| Lists(d, room, k, before, rest) {
      KeyFound(d, room, k, before, rest);
    }
  }

  // ---------------------------------------------------------------------- extensions

  /** The share the extension block ends up with: the last key_share extension decides,
      also when it offers nothing. */
  function ScanExtensions(d: Bytes, found: Option<Bytes>): Option<Bytes> {
    if |d| < 4 then found
    else
      var end := 4 + U16At(d, 2);
      if end > |d| then None
      else ScanExtensions(d[end..], if U16At(d, 0) == KEY_SHARE then KeyOf(d[4..end]) else found)
  }

  function LastShare(extensions: seq<Extension>, found: Option<Bytes>): Option<Bytes> {
    if extensions == [] then found
    else
      var e := extensions[|extensions| - 1];
      if e.kind == KEY_SHARE then KeyOf(e.data) else LastShare(extensions[..|extensions| - 1], found)
  }

  lemma {:induction false} LastShareFirst(extensions: seq<Extension>, found: Option<Bytes>)
    requires extensions != []
    ensures LastShare(extensions, found)
         == LastShare(extensions[1..], if extensions[0].kind == KEY_SHARE then KeyOf(extensions[0].data) else found)
    decreases |extensions|
  {
    var front := extensions[..|extensions| - 1];
    if |extensions| > 1 {
      assert extensions[1..][..|extensions| - 2] == front[1..];
      LastShareFirst(front, found);
    }
  }

  lemma {:induction false} ScanEncoded(d: Bytes, extensions: seq<Extension>, slack: Bytes, found: Option<Bytes>)
    requires Tiles(d, extensions, slack)
    ensures ScanExtensions(d, found) == LastShare(extensions, found)
    decreases |extensions|
  {
    if extensions != [] {
      var e, tail := extensions[0], EncodeExtensions(extensions[1..]) + slack;
      assert d == U16Bytes(e.kind) + U16Bytes(|e.data|) + e.data + tail;
      Record(d, e.kind, e.data, tail);
      LastShareFirst(extensions, found);
      ScanEncoded(tail, extensions[1..], slack, if e.kind == KEY_SHARE then KeyOf(e.data) else found);
    }
  }

  ghost predicate Tiles(d: Bytes, extensions: seq<Extension>, slack: Bytes) {
    ExtensionsFit(extensions) && |slack| < 4 && d == EncodeExtensions(extensions) + slack
  }

  lemma TilesLonger(d: Bytes, end: nat, more: seq<Extension>, slack: Bytes)
    requires |d| >= 4 && end == 4 + U16At(d, 2) <= |d| && Tiles(d[end..], more, slack)
    ensures Tiles(d, [Extension(U16At(d, 0), d[4..end])] + more, slack)
  {
    var e := Extension(U16At(d, 0), d[4..end]);
    var extensions := [e] + more;
    Unrecord(d, end);
    assert d == EncodeExtension(e) + d[end..];
    assert extensions[1..] == more;
    assert EncodeExtensions(extensions) == EncodeExtension(e) + EncodeExtensions(more);
  }

  lemma {:induction false} ScanParses(d: Bytes, found: Option<Bytes>) returns (extensions: seq<Extension>, slack: Bytes)
    requires ScanExtensions(d, found).Some?
    ensures Tiles(d, extensions, slack)
    decreases |d|
  {
    if |d| < 4 {
      extensions, slack := [], d;
    } else {
      var end := 4 + U16At(d, 2);
      var more;
      more, slack := ScanParses(d[end..], if U16At(d, 0) == KEY_SHARE then KeyOf(d[4..end]) else found);
      TilesLonger(d, end, more, slack);
      extensions := [Extension(U16At(d, 0), d[4..end])] + more;
    }
  }

  // --------------------------------------------------------------------------- hello

  /** Where the three length-prefixed parts after the session id stand. */
  predicate Layout(rec: Bytes, c: nat, m: nat, end: nat) {
    && 78 <= c < |rec| && c == 78 + U16At(rec, 76)
    && m == c + 1 + rec[c] && m + 1 < |rec|
    && end == m + 2 + U16At(rec, m) && end <= |rec|
  }

  function Extract(rec: Bytes): Option<HelloFields> {
    if |rec| < 78 || rec[0] != 0x16 || rec[5] != 0x01 || rec[43] != 32 then None
    else
      var c: nat := 78 + U16At(rec, 76);
      if c >= |rec| then None
      else
        var m: nat := c + 1 + rec[c];
        if m + 1 >= |rec| then None
        else
          var end: nat := m + 2 + U16At(rec, m);
          if end > |rec| then None
          else
            var key := ScanExtensions(rec[m + 2..end], None);
            if key.None? then None else Some(HelloFields(rec[11..43], rec[44..76], key.value))
  }

  /** A record carries fields: it is the encoding of a ClientHello with that random and
      session id whose last key_share extension offers that key. */
  ghost predicate Carries(rec: Bytes, f: HelloFields, h: Hello) {
    && ValidHello(h) && rec == Encode(h)
    && f == HelloFields(h.random, h.sessionId, f.x25519)
    && LastShare(h.extensions, None) == Some(f.x25519)
  }

  lemma FixedLayout(h: Hello)
    requires ValidFrame(h)
    ensures var x := FixedPart(h);
            && |x| == 76 && x[0] == 0x16 && x[5] == 0x01 && x[43] == 32
            && x[11..43] == h.random && x[44..76] == h.sessionId
  {
  }

  lemma AssembledHead(rec: Bytes, fixed: Bytes, ciphers: Bytes, compression: Bytes, block: Bytes, rest: Bytes)
    requires |fixed| == 76 && Sized(ciphers) && |compression| <= 0xff && Sized(block)
    requires rec == Assemble(fixed, ciphers, compression, block, rest)
    ensures |rec| == 76 + 2 + |ciphers| + 1 + |compression| + 2 + |block| + |rest|
    ensures rec[..76] == fixed && U16At(rec, 76) == |ciphers| && rec[78 + |ciphers|] == |compression|
  {
    var tail := ciphers + [|compression|] + compression + U16Bytes(|block|) + block + rest;
    assert rec == fixed + U16Bytes(|ciphers|) + tail;
    assert rec[76] == U16Bytes(|ciphers|)[0] && rec[77] == U16Bytes(|ciphers|)[1];
  }

  lemma AssembledTail(rec: Bytes, fixed: Bytes, ciphers: Bytes, compression: Bytes, block: Bytes, rest: Bytes, m: nat)
    requires |fixed| == 76 && Sized(ciphers) && |compression| <= 0xff && Sized(block)
    requires rec == Assemble(fixed, ciphers, compression, block, rest)
    requires m == 79 + |ciphers| + |compression|
    ensures |rec| == m + 2 + |block| + |rest|
    ensures U16At(rec, m) == |block| && rec[m + 2..m + 2 + |block|] == block
  {
    var front := fixed + U16Bytes(|ciphers|) + ciphers + [|compression|] + compression;
    assert rec == front + U16Bytes(|block|) + block + rest;
    assert |front| == m;
    assert rec[m] == U16Bytes(|block|)[0] && rec[m + 1] == U16Bytes(|block|)[1];
  }

  lemma Reassembled(rec: Bytes, c: nat, m: nat, end: nat)
    requires |rec| >= 78 && Layout(rec, c, m, end)
    ensures rec == Assemble(rec[..76], rec[78..c], rec[c + 1..m], rec[m + 2..end], rec[end..])
  {
    assert U16Bytes(U16At(rec, 76)) == [rec[76], rec[77]] == rec[76..78];
    assert U16Bytes(U16At(rec, m)) == [rec[m], rec[m + 1]] == rec[m..m + 2];
    assert [rec[c]] == rec[c..c + 1];
    assert rec[..76] + rec[76..78] == rec[..78];
    assert rec[..78] + rec[78..c] == rec[..c];
    assert rec[..c] + rec[c..c + 1] == rec[..c + 1];
    assert rec[..c + 1] + rec[c + 1..m] == rec[..m];
    assert rec[..m] + rec[m..m + 2] == rec[..m + 2];
    assert rec[..m + 2] + rec[m + 2..end] == rec[..end];
    assert rec[..end] + rec[end..] == rec;
  }

  /** Every encoded ClientHello yields exactly what its last key_share offers. */
  lemma ExtractEncoded(h: Hello)
    requires ValidHello(h)
    ensures var key := LastShare(h.extensions, None);
            Extract(Encode(h)) == if key.None? then None else Some(HelloFields(h.random, h.sessionId, key.value))
  {
    var rec, fixed, block := Encode(h), FixedPart(h), EncodeExtensions(h.extensions) + h.slack;
    var m := 79 + |h.ciphers| + |h.compression|;
    FixedLayout(h);
    AssembledHead(rec, fixed, h.ciphers, h.compression, block, h.rest);
    AssembledTail(rec, fixed, h.ciphers, h.compression, block, h.rest, m);
    ScanEncoded(block, h.extensions, h.slack, None);
    assert rec[0] == fixed[0] && rec[5] == fixed[5] && rec[43] == fixed[43];
    assert rec[11..43] == rec[..76][11..43] && rec[44..76] == rec[..76][44..76];
  }

  lemma FixedSlices(rec: Bytes)
    requires |rec| >= 76 && rec[43] == 32
    ensures rec[..9] + rec[9..11] + rec[11..43] + [32] + rec[44..76] == rec[..76]
  {
    assert rec[..9] + rec[9..11] == rec[..11];
    assert rec[..11] + rec[11..43] == rec[..43];
    assert rec[..43] + [32] == rec[..44];
    assert rec[..44] + rec[44..76] == rec[..76];
  }

  lemma BlockCarries(rec: Bytes, c: nat, m: nat, end: nat, extensions: seq<Extension>, slack: Bytes) returns (h: Hello)
    requires |rec| >= 78 && rec[0] == 0x16 && rec[5] == 0x01 && rec[43] == 32 && Layout(rec, c, m, end)
    requires Tiles(rec[m + 2..end], extensions, slack)
    ensures ValidHello(h) && rec == Encode(h) && h.extensions == extensions
    ensures h.random == rec[11..43] && h.sessionId == rec[44..76]
  {
    h := Hello(rec[..9], rec[9..11], rec[11..43], rec[44..76], rec[78..c], rec[c + 1..m], extensions, slack, rec[end..]);
    Reassembled(rec, c, m, end);
    FixedSlices(rec);
  }

  lemma ExtractLayout(rec: Bytes) returns (c: nat, m: nat, end: nat)
    requires Extract(rec).Some?
    ensures |rec| >= 78 && rec[0] == 0x16 && rec[5] == 0x01 && rec[43] == 32 && Layout(rec, c, m, end)
    ensures var key := ScanExtensions(rec[m + 2..end], None);
            key.Some? && Extract(rec).value == HelloFields(rec[11..43], rec[44..76], key.value)
  {
    c := 78 + U16At(rec, 76);
    m := c + 1 + rec[c];
    end := m + 2 + U16At(rec, m);
  }

  lemma ExtractCarries(rec: Bytes) returns (h: Hello)
    requires Extract(rec).Some?
    ensures Carries(rec, Extract(rec).value, h)
  {
    var c, m, end := ExtractLayout(rec);
    var extensions, slack := ScanParses(rec[m + 2..end], None);
    ScanEncoded(rec[m + 2..end], extensions, slack, None);
    h := BlockCarries(rec, c, m, end, extensions, slack);
  }

  /** Fields come out exactly when the record carries them. */
  lemma ExtractExact(rec: Bytes, f: HelloFields)
    ensures Extract(rec) == Some(f) <==> exists h :: Carries(rec, f, h)
  {
    if Extract(rec) == Some(f) {
      var h := ExtractCarries(rec);
    }
    if h :| Carries(rec, f, h) {
      ExtractEncoded(h);
    }
  }

  // ---------------------------------------------------------------------- round trip

  function KeyShareData(shares: seq<Share>): Bytes
    requires SharesFit(shares) && Sized(EncodeShares(shares))
  {
    U16Bytes(|EncodeShares(shares)|) + EncodeShares(shares)
  }

  lemma {:induction false} EncodeSplit(a: seq<Share>, b: seq<Share>)
    requires SharesFit(a) && SharesFit(b)
    ensures EncodeShares(a + b) == EncodeShares(a) + EncodeShares(b)
    decreases |a|
  {
    if a == [] {
      assert a + b == b;
    } else {
      assert (a + b)[0] == a[0] && (a + b)[1..] == a[1..] + b;
      EncodeSplit(a[1..], b);
    }
  }

  lemma SharesOffer(before: seq<Share>, k: Bytes, after: seq<Share>)
    requires SharesFit(before) && SharesFit(after) && NoneUsable(before) && |k| == 32
    requires Sized(EncodeShares(before + ([Share(X25519, k)] + after)))
    ensures KeyOf(KeyShareData(before + ([Share(X25519, k)] + after))) == Some(k)
  {
    var s := Share(X25519, k);
    var d := EncodeShares(before + ([s] + after));
    EncodeSplit(before, [s] + after);
    assert ([s] + after)[1..] == after;
    assert d == EncodeShares(before) + (EncodeShare(s) + EncodeShares(after));
    var data := KeyShareData(before + ([s] + after));
    assert data[2..] == d && U16At(data, 0) == |d|;
    KeyFound(d, |d|, k, before, EncodeShares(after));
  }

  lemma {:induction false} LastShareIs(a: seq<Extension>, e: Extension, b: seq<Extension>)
    requires e.kind == KEY_SHARE && forall i :: 0 <= i < |b| ==> b[i].kind != KEY_SHARE
    ensures LastShare(a + [e] + b, None) == KeyOf(e.data)
    decreases |b|
  {
    var all := a + [e] + b;
    if b != [] {
      assert all[..|all| - 1] == a + [e] + b[..|b| - 1];
      LastShareIs(a, e, b[..|b| - 1]);
    }
  }

  /** The round trip: with any other extensions around one key_share extension, and any
      other shares around the first X25519 share, exactly the encoded random, session id
      and key come back. */
  lemma RoundTrip(h: Hello, a: seq<Extension>, b: seq<Extension>, before: seq<Share>, k: Bytes, after: seq<Share>)
    requires SharesFit(before) && SharesFit(after) && NoneUsable(before) && |k| == 32
    requires Sized(EncodeShares(before + ([Share(X25519, k)] + after)))
    requires forall i :: 0 <= i < |b| ==> b[i].kind != KEY_SHARE
    requires h.extensions == a + [Extension(KEY_SHARE, KeyShareData(before + ([Share(X25519, k)] + after)))] + b
    requires ValidHello(h)
    ensures Extract(Encode(h)) == Some(HelloFields(h.random, h.sessionId, k))
  {
    SharesOffer(before, k, after);
    LastShareIs(a, Extension(KEY_SHARE, KeyShareData(before + ([Share(X25519, k)] + after))), b);
    ExtractEncoded(h);
  }

  // ---------------------------------------------------- where the code goes its own way

  /** One X25519 share behind a declared list length of `n`: its key is found as soon as
      the length covers the header, also when the key runs past it. */
  lemma ShortList(n: U16, k: Bytes)
    requires |k| == 32
    ensures KeyOf(U16Bytes(n) + EncodeShare(Share(X25519, k))) == if n >= 4 then Some(k) else None
  {
    var d := EncodeShare(Share(X25519, k));
    var data := U16Bytes(n) + d;
    assert ShareBytes(data) == d && ShareRoom(data) == Min(n, 36);
    if n >= 4 {
      assert d == EncodeShares([]) + (d + []);
      KeyFound(d, Min(n, 36), k, [], []);
    }
  }

  /** A ClientHello with the given extensions and nothing else to choose. */
  function PlainHello(random: Bytes, sessionId: Bytes, extensions: seq<Extension>): Hello {
    Hello([0x16, 3, 1, 0, 0, 1, 0, 0, 0], [3, 3], random, sessionId, [], [], extensions, [], [])
  }

  /** A good key_share extension followed by an empty one: the first alone gives its key,
      the two together give nothing. */
  lemma EmptySecondShare(random: Bytes, sessionId: Bytes, k: Bytes)
    requires |random| == 32 && |sessionId| == 32 && |k| == 32
    ensures SharesFit([Share(X25519, k)]) && Sized(EncodeShares([Share(X25519, k)]))
    ensures var first, second := Extension(KEY_SHARE, KeyShareData([Share(X25519, k)])), Extension(KEY_SHARE, []);
            var one, two := PlainHello(random, sessionId, [first]), PlainHello(random, sessionId, [first, second]);
            ValidHello(one) && ValidHello(two) &&
            Extract(Encode(one)) == Some(HelloFields(random, sessionId, k)) && Extract(Encode(two)) == None
  {
    var shares := [Share(X25519, k)];
    assert shares[1..] == [];
    assert EncodeShares(shares) == EncodeShare(shares[0]) + [];
    assert [] + (shares + []) == shares;
    var first, second := Extension(KEY_SHARE, KeyShareData(shares)), Extension(KEY_SHARE, []);
    TwoFit(first, second);
    var one, two := PlainHello(random, sessionId, [first]), PlainHello(random, sessionId, [first, second]);
    assert [] + [first] + [] == [first];
    RoundTrip(one, [], [], [], k, []);
    LastShareIs([first], second, []);
    assert [first] + [second] + [] == [first, second];
    ExtractEncoded(two);
  }

  lemma TwoFit(first: Extension, second: Extension)
    requires |first.data| <= 0x100 && |second.data| <= 0x100
    ensures ExtensionsFit([first]) && |EncodeExtensions([first])| == 4 + |first.data|
    ensures ExtensionsFit([first, second]) && |EncodeExtensions([first, second])| == 8 + |first.data| + |second.data|
  {
    assert [first][1..] == [] && [first, second][1..] == [second] && [second][1..] == [];
  }

  // ----------------------------------------------------------------------- the loops

  lemma Within(rec: Bytes, p: nat, end: nat, next: nat)
    requires p + 4 <= next <= end <= |rec|
    ensures rec[p..end][4..next - p] == rec[p + 4..next] && rec[p..end][next - p..] == rec[next..end]
  {
    var d := rec[p..end];
    assert forall i :: 0 <= i < |d| ==> d[i] == rec[p + i];
  }

  lemma ShareStep(data: Bytes, p: nat, end: nat, next: nat)
    requires p + 4 <= end <= |data| && next == p + 4 + U16At(data, p + 2)
    ensures next > |data| ==> FirstKey(data[p..], end - p) == None
    ensures next <= |data| && U16At(data, p) == X25519 && next == p + 36 ==> FirstKey(data[p..], end - p) == Some(data[p + 4..next])
    ensures next <= |data| && !(U16At(data, p) == X25519 && next == p + 36) ==>
      FirstKey(data[p..], end - p) == FirstKey(data[next..], SatSub(end, next))
  {
    var d := data[p..];
    assert U16At(d, 0) == U16At(data, p) && U16At(d, 2) == U16At(data, p + 2);
    if next <= |data| {
      Within(data, p, |data|, next);
      assert data[p..|data|] == d && data[next..|data|] == data[next..];
    }
  }

  method ParseKeyShare(data: Bytes) returns (key: Option<Bytes>)
    ensures key == KeyOf(data)
  {
    if |data| < 2 {
      return None;
    }
    var p := 2;
    var end := Min(2 + U16At(data, 0), |data|);
    while p + 4 <= end
      invariant 2 <= p <= |data|
      invariant KeyOf(data) == FirstKey(data[p..], SatSub(end, p))
    {
      var group, length := U16At(data, p), U16At(data, p + 2);
      var next := p + 4 + length;
      ShareStep(data, p, end, next);
      if next > |data| {
        return None;
      }
      if group == X25519 && length == 32 {
        return Some(data[p + 4..next]);
      }
      p := next;
    }
    key := None;
  }

  method ScanBlock(rec: Bytes, start: nat, end: nat) returns (key: Option<Bytes>)
    requires start <= end <= |rec|
    ensures key == ScanExtensions(rec[start..end], None)
  {
    var p := start;
    key := None;
    while p + 4 <= end
      invariant start <= p <= end
      invariant ScanExtensions(rec[start..end], None) == ScanExtensions(rec[p..end], key)
    {
      var kind, length := U16At(rec, p), U16At(rec, p + 2);
      var next := p + 4 + length;
      ghost var d := rec[p..end];
      assert U16At(d, 0) == kind && U16At(d, 2) == length;
      if next > end {
        return None;
      }
      Within(rec, p, end, next);
      if kind == KEY_SHARE {
        key := ParseKeyShare(rec[p + 4..next]);
      }
      p := next;
    }
  }

  method ExtractClientHelloFields(rec: Bytes) returns (fields: Option<HelloFields>)
    ensures forall f :: fields == Some(f) <==> exists h :: Carries(rec, f, h)
  {
    fields := ReadFields(rec);
    forall f ensures fields == Some(f) <==> exists h :: Carries(rec, f, h) { ExtractExact(rec, f); }
  }

  method ReadFields(rec: Bytes) returns (fields: Option<HelloFields>)
    ensures fields == Extract(rec)
  {
    if |rec| < 6 || rec[0] != 0x16 || rec[5] != 0x01 {
      return None;
    }
    var p := 9;
    if |rec| < p + 2 {
      return None;
    }
    p := p + 2;
    if |rec| < p + 32 {
      return None;
    }
    var random := rec[p..p + 32];
    p := p + 32;
    if |rec| <= p || rec[p] != 32 {
      return None;
    }
    p := p + 1;
    if |rec| < p + 32 {
      return None;
    }
    var sessionId := rec[p..p + 32];
    p := p + 32;
    if |rec| < p + 2 {
      return None;
    }
    p := p + 2 + U16At(rec, p);
    if |rec| <= p {
      return None;
    }
    p := p + 1 + rec[p];
    if |rec| < p + 2 {
      return None;
    }
    var total := U16At(rec, p);
    p := p + 2;
    if p + total > |rec| {
      return None;
    }
    var key := ScanBlock(rec, p, p + total);
    fields := if key.None? then None else Some(HelloFields(random, sessionId, key.value));
  }
}
