/** The client allowlist: loading, enrollment and revocation of client keys, and the two
    lookups of a handshake. A key id, sixteen bytes compared from the left, is the number
    those bytes spell; key derivation and proof checking are parameters. */
module ClientAuth {
  import opened Prelude
  import opened Ordered
  import opened Sorting
  import opened Names

  const MAX_AUTHORIZED_CLIENTS := 256

  type KeyId = x: nat | x < 0x1_0000_0000_0000_0000_0000_0000_0000_0000

  type Key = b: Bytes | |b| == 32 witness seq(32, i => 0)

  datatype Client = Client(keyId: KeyId, publicKey: Key, psk: Key)

  type Derivation = Key -> KeyId

  datatype AuthError = WrongSize | Duplicate | Unsorted | NotDerived | NotEnrolled | LastClient | Conflict | Full | Storage | AuthFailed | Missing

  function Rank(c: Client): int { c.keyId }

  ghost predicate Sorted(entries: seq<Client>) { StrictlySorted(entries, Rank) }

  predicate Bounded(entries: seq<Client>) { 1 <= |entries| <= MAX_AUTHORIZED_CLIENTS }

  predicate Derived(entries: seq<Client>, derive: Derivation) {
    forall i :: 0 <= i < |entries| ==> entries[i].keyId == derive(entries[i].publicKey)
  }

  ghost predicate Allowlist(entries: seq<Client>) { Sorted(entries) && Bounded(entries) }

  // ----------------------------------------------------------------- members and lookup

  /** Clients as a set: key ids identify them. */
  ghost predicate Members(s: set<Client>) { InjectiveOn(s, Rank) }

  ghost predicate Enrolled(s: set<Client>, k: KeyId) { exists c :: c in s && c.keyId == k }

  ghost function Lookup(s: set<Client>, k: KeyId): (r: Option<Client>)
    ensures r.Some? <==> Enrolled(s, k)
    ensures r.Some? ==> r.value in s && r.value.keyId == k
  {
    if Enrolled(s, k) then (var c :| c in s && c.keyId == k; Some(c)) else None
  }

  lemma LookupUnique(s: set<Client>, c: Client)
    requires Members(s) && c in s
    ensures Lookup(s, c.keyId) == Some(c)
  {
    assert Enrolled(s, c.keyId);
    var d := Lookup(s, c.keyId).value;
    assert Rank(c) == Rank(d);
  }

  lemma SortedMembers(entries: seq<Client>)
    requires Sorted(entries)
    ensures Members(Elements(entries)) && |Elements(entries)| == |entries|
  {
    assert UniqueBy(entries, Rank);
    UniqueInjective(entries, Rank);
    var s := Elements(entries);
    var listed := Ascending(s, Rank);
    SortedUnique(entries, listed, Rank);
  }

  lemma EntryFound(entries: seq<Client>, i: nat)
    requires Sorted(entries) && i < |entries|
    ensures Lookup(Elements(entries), entries[i].keyId) == Some(entries[i])
  {
    SortedMembers(entries);
    assert entries[i] in entries;
    LookupUnique(Elements(entries), entries[i]);
  }

  lemma EntryMissing(entries: seq<Client>, k: KeyId)
    requires forall i :: 0 <= i < |entries| ==> entries[i].keyId != k
    ensures Lookup(Elements(entries), k) == None
  {
  }

  // ---------------------------------------------------------------------- the handshake

  function Select(selected: U8, candidate: U8, choice: bool): U8 {
    if choice then candidate else selected
  }

  /** Byte-wise conditional selection. */
  method SelectKey(selected: Key, candidate: Key, choice: bool) returns (r: Key)
    ensures r == if choice then candidate else selected
  {
    var out: Bytes := [];
    for i := 0 to 32
      invariant |out| == i && out == (if choice then candidate else selected)[..i]
    {
      out := out + [Select(selected[i], candidate[i], choice)];
    }
    r := out;
  }

  class AuthorizedClients {
    var entries: seq<Client>

    ghost predicate Valid()
      reads this
    {
      Allowlist(entries)
    }

    ghost function Clients(): set<Client>
      reads this
    {
      Elements(entries)
    }

    constructor (entries: seq<Client>)
      ensures this.entries == entries
    {
      this.entries := entries;
    }

    /** The complete scan that opens a handshake: the pre-shared key is that of the
        client enrolled under the id, and the fresh dummy when there is none. */
    method BeginAccess(k: KeyId, dummy: Key) returns (psk: Key, authorized: bool)
      requires Valid()
      ensures authorized <==> Enrolled(Clients(), k)
      ensures psk == var c := Lookup(Clients(), k); if c.Some? then c.value.psk else dummy
    {
      psk, authorized := dummy, false;
      ghost var hit := 0;
      for i := 0 to |entries|
        invariant authorized ==> hit < i && entries[hit].keyId == k && psk == entries[hit].psk
        invariant !authorized ==> psk == dummy && forall j :: 0 <= j < i ==> entries[j].keyId != k
      {
        var matches := entries[i].keyId == k;
        if matches { hit := i; }
        psk := SelectKey(psk, entries[i].psk, matches);
        authorized := authorized || matches;
      }
      if authorized { EntryFound(entries, hit); } else { EntryMissing(entries, k); }
    }

    method Search(k: KeyId) returns (at: Option<nat>)
      requires Valid()
      ensures at.Some? ==> at.value < |entries| && entries[at.value].keyId == k
      ensures at.None? ==> forall i :: 0 <= i < |entries| ==> entries[i].keyId != k
    {
      var low, high := 0, |entries|;
      while low < high
        invariant 0 <= low <= high <= |entries|
        invariant forall i :: 0 <= i < low ==> Rank(entries[i]) < k
        invariant forall i :: high <= i < |entries| ==> k < Rank(entries[i])
      {
        var mid := low + (high - low) / 2;
        if entries[mid].keyId == k {
          return Some(mid);
        } else if entries[mid].keyId < k {
          forall i | 0 <= i < mid + 1 ensures Rank(entries[i]) < k { assert i < mid ==> Rank(entries[i]) < Rank(entries[mid]); }
          low := mid + 1;
        } else {
          forall i | mid <= i < |entries| ensures k < Rank(entries[i]) { assert mid < i ==> Rank(entries[mid]) < Rank(entries[i]); }
          high := mid;
        }
      }
      forall i | 0 <= i < |entries| ensures entries[i].keyId != k { assert Rank(entries[i]) != k; }
      at := None;
    }

    /** The search that ends a handshake: accepted exactly when the claimed id is the one
        the handshake was opened for, a client is enrolled under it, and both proofs check
        against that client's keys. */
    method VerifyFinished(k: KeyId, access: KeyId, dummyKey: Key, dummyPsk: Key, signed: Key -> bool, maced: Key -> bool) returns (r: Result<Key, AuthError>)
      requires Valid()
      ensures var c := Lookup(Clients(), k);
              r == if c.Some? && signed(c.value.publicKey) && maced(c.value.psk) && k == access then Ok(c.value.psk) else Err(AuthFailed)
    {
      var at := Search(k);
      if at.Some? { EntryFound(entries, at.value); } else { EntryMissing(entries, k); }
      var publicKey := if at.Some? then entries[at.value].publicKey else dummyKey;
      var psk := if at.Some? then entries[at.value].psk else dummyPsk;
      var signatureValid, macValid := signed(publicKey), maced(psk);
      if at.Some? && signatureValid && macValid && k == access {
        r := Ok(entries[at.value].psk);
      } else {
        r := Err(AuthFailed);
      }
    }

    /** The scan and the search find the same client: a finished handshake was opened
        with the very pre-shared key it ends with, and a client the scan authorized is
        accepted exactly when its proofs check. */
    method Handshake(k: KeyId, access: KeyId, dummy: Key, signed: Key -> bool, maced: Key -> bool) returns (opening: Key, authorized: bool, r: Result<Key, AuthError>)
      requires Valid()
      ensures r.Ok? ==> authorized && k == access && r.value == opening && maced(opening)
      ensures !authorized && k == access ==> r == Err(AuthFailed)
      ensures authorized && k == access ==> Enrolled(Clients(), k) && (r.Ok? <==> signed(Lookup(Clients(), k).value.publicKey) && maced(opening))
    {
      opening, authorized := BeginAccess(access, dummy);
      r := VerifyFinished(k, access, dummy, dummy, signed, maced);
    }

    method Revoke(k: KeyId) returns (r: Result<(), AuthError>)
      requires Valid()
      modifies this
      ensures Valid()
      ensures r == if !Enrolled(old(Clients()), k) then Err(NotEnrolled) else if old(|entries|) == 1 then Err(LastClient) else Ok(())
      ensures r.Err? ==> entries == old(entries)
      ensures r.Ok? ==> Clients() == Without(old(Clients()), k)
    {
      var at := Search(k);
      if at.None? {
        EntryMissing(entries, k);
        return Err(NotEnrolled);
      }
      EntryFound(entries, at.value);
      if |entries| == 1 {
        return Err(LastClient);
      }
      RemovedSorted(entries, at.value);
      RemovedMembers(entries, at.value);
      entries := Removed(entries, at.value);
      r := Ok(());
    }
  }

  ghost function Without(s: set<Client>, k: KeyId): set<Client> {
    set c | c in s && c.keyId != k
  }

  function Removed(entries: seq<Client>, at: nat): seq<Client>
    requires at < |entries|
  {
    entries[..at] + entries[at + 1..]
  }

  lemma RemovedSorted(entries: seq<Client>, at: nat)
    requires Sorted(entries) && at < |entries|
    ensures Sorted(Removed(entries, at))
  {
    var rest := Removed(entries, at);
    forall i, j | 0 <= i < j < |rest| ensures Rank(rest[i]) < Rank(rest[j]) {
      assert rest[i] == entries[if i < at then i else i + 1] && rest[j] == entries[if j < at then j else j + 1];
    }
  }

  lemma RemovedKeeps(entries: seq<Client>, at: nat, c: Client)
    requires Sorted(entries) && at < |entries| && c in entries && c.keyId != entries[at].keyId
    ensures c in Removed(entries, at)
  {
    var i :| 0 <= i < |entries| && entries[i] == c;
    assert Removed(entries, at)[if i < at then i else i - 1] == c;
  }

  lemma RemovedLeaves(entries: seq<Client>, at: nat, c: Client)
    requires Sorted(entries) && at < |entries| && c in Removed(entries, at)
    ensures c in entries && c.keyId != entries[at].keyId
  {
    var i :| 0 <= i < |entries| - 1 && Removed(entries, at)[i] == c;
    var n := if i < at then i else i + 1;
    assert entries[n] == c;
    assert Rank(entries[n]) != Rank(entries[at]);
  }

  lemma RemovedMembers(entries: seq<Client>, at: nat)
    requires Sorted(entries) && at < |entries|
    ensures Elements(Removed(entries, at)) == Without(Elements(entries), entries[at].keyId)
  {
    forall c ensures c in Removed(entries, at) <==> c in entries && c.keyId != entries[at].keyId {
      if c in entries && c.keyId != entries[at].keyId { RemovedKeeps(entries, at, c); }
      if c in Removed(entries, at) { RemovedLeaves(entries, at, c); }
    }
  }

  // ------------------------------------------------------------------------ construction

  lemma SortedDistinctKeys(entries: seq<Client>, sorted: seq<Client>)
    requires multiset(sorted) == multiset(entries) && SortedBy(sorted, Rank)
    ensures Sorted(sorted) <==> UniqueBy(entries, Rank)
    ensures Elements(sorted) == Elements(entries)
  {
    ReorderedElements(sorted, entries);
    if UniqueBy(entries, Rank) {
      UniqueReordered(entries, sorted, Rank);
    }
    if Sorted(sorted) {
      assert UniqueBy(sorted, Rank);
      UniqueReordered(sorted, entries, Rank);
    }
  }

  /** Neighbours in order are enough. */
  lemma {:induction false} NeighboursOrder(entries: seq<Client>, i: nat, j: nat)
    requires i < j < |entries|
    requires forall n :: 0 < n < |entries| ==> Rank(entries[n - 1]) < Rank(entries[n])
    ensures Rank(entries[i]) < Rank(entries[j])
  {
    assert Rank(entries[j - 1]) < Rank(entries[j]);
    if i < j - 1 { NeighboursOrder(entries, i, j - 1); }
  }

  method StrictlyAscending(entries: seq<Client>) returns (ok: bool)
    ensures ok <==> Sorted(entries)
  {
    var n := 1;
    while n < |entries|
      invariant 1 <= n && forall m :: 0 < m < n && m < |entries| ==> Rank(entries[m - 1]) < Rank(entries[m])
    {
      if entries[n - 1].keyId >= entries[n].keyId {
        assert !(Rank(entries[n - 1]) < Rank(entries[n]));
        return false;
      }
      n := n + 1;
    }
    forall i, j | 0 <= i < j < |entries| ensures Rank(entries[i]) < Rank(entries[j]) { NeighboursOrder(entries, i, j); }
    ok := true;
  }

  /** An allowlist from any list of clients: it succeeds exactly for one to 256 clients
      with distinct key ids, and holds exactly those. */
  method FromEntries(given: seq<Client>) returns (r: Result<AuthorizedClients, AuthError>)
    ensures r.Ok? <==> Bounded(given) && UniqueBy(given, Rank)
    ensures r.Ok? ==> fresh(r.value) && r.value.Valid() && multiset(r.value.entries) == multiset(given)
    ensures r.Err? ==> r.error == if Bounded(given) then Duplicate else WrongSize
  {
    if |given| == 0 || |given| > MAX_AUTHORIZED_CLIENTS {
      return Err(WrongSize);
    }
    var sorted := SortBy(given, Rank);
    SortedDistinctKeys(given, sorted);
    var distinct := true;
    for n := 1 to |sorted|
      invariant distinct <==> forall m :: 0 < m < n && m < |sorted| ==> Rank(sorted[m - 1]) < Rank(sorted[m])
    {
      assert Rank(sorted[n - 1]) <= Rank(sorted[n]);
      distinct := distinct && sorted[n - 1].keyId != sorted[n].keyId;
    }
    if !distinct {
      return Err(Duplicate);
    }
    forall i, j | 0 <= i < j < |sorted| ensures Rank(sorted[i]) < Rank(sorted[j]) { NeighboursOrder(sorted, i, j); }
    assert |sorted| == |multiset(sorted)| == |multiset(given)| == |given|;
    var clients := new AuthorizedClients(sorted);
    r := Ok(clients);
  }

  // ------------------------------------------------------------------ the allowlist file

  datatype Op = Enroll(client: Client) | Revoke(keyId: KeyId)

  /** What an operation makes of the enrolled clients. */
  ghost function Answer(s: set<Client>, op: Op, derive: Derivation): Result<KeyId, AuthError> {
    match op
    case Enroll(c) =>
      var known := Lookup(s, c.keyId);
      if c.keyId != derive(c.publicKey) then Err(NotDerived)
      else if known.Some? then (if known.value == c then Ok(c.keyId) else Err(Conflict))
      else if |s| >= MAX_AUTHORIZED_CLIENTS then Err(Full)
      else Ok(c.keyId)
    case Revoke(k) =>
      if s == {} then Err(Missing)
      else if !Enrolled(s, k) then Err(NotEnrolled)
      else if |s| == 1 then Err(LastClient)
      else Ok(k)
  }

  ghost function Next(s: set<Client>, op: Op, derive: Derivation): set<Client> {
    if Answer(s, op, derive).Err? then s
    else if op.Enroll? then s + {op.client}
    else Without(s, op.keyId)
  }

  ghost function After(s: set<Client>, ops: seq<Op>, derive: Derivation): set<Client>
  {
    if ops == [] then s else Next(After(s, ops[..|ops| - 1], derive), ops[|ops| - 1], derive)
  }

  /** The stored allowlist as a set: at most 256 clients with distinct derived ids. */
  ghost predicate Store(s: set<Client>, derive: Derivation) {
    Members(s) && |s| <= MAX_AUTHORIZED_CLIENTS && forall c :: c in s ==> c.keyId == derive(c.publicKey)
  }

  lemma WithoutOne(s: set<Client>, c: Client)
    requires Members(s) && c in s
    ensures Without(s, c.keyId) == s - {c} && |Without(s, c.keyId)| == |s| - 1
  {
    forall d | d in s && d.keyId == c.keyId ensures d == c { assert Rank(d) == Rank(c); }
    assert Without(s, c.keyId) == s - {c};
  }

  lemma MembersMore(s: set<Client>, c: Client)
    requires Members(s) && !Enrolled(s, c.keyId)
    ensures Members(s + {c}) && |s + {c}| == |s| + 1
  {
    assert c !in s;
    forall x, y | x in s + {c} && y in s + {c} && Rank(x) == Rank(y) ensures x == y {
      if x in s && y in s { assert Rank(x) == Rank(y); }
    }
  }

  /** An enrollment succeeds exactly for a derived id that is not taken by other keys, while
      there is room or for a repetition; a revocation for an enrolled id that is not the last. */
  lemma AnswerExact(s: set<Client>, op: Op, derive: Derivation)
    requires Store(s, derive)
    ensures op.Enroll? ==>
              var c, a := op.client, Answer(s, op, derive);
              && (a == Ok(c.keyId) <==> c.keyId == derive(c.publicKey) && (c in s || (!Enrolled(s, c.keyId) && |s| < MAX_AUTHORIZED_CLIENTS)))
              && (a == Err(NotDerived) <==> c.keyId != derive(c.publicKey))
              && (a == Err(Conflict) <==> c.keyId == derive(c.publicKey) && c !in s && Enrolled(s, c.keyId))
              && (a == Err(Full) <==> c.keyId == derive(c.publicKey) && !Enrolled(s, c.keyId) && |s| == MAX_AUTHORIZED_CLIENTS)
              && (a.Ok? ==> a.value == c.keyId)
    ensures op.Revoke? ==>
              var k, a := op.keyId, Answer(s, op, derive);
              && (a == Ok(k) <==> Enrolled(s, k) && |s| > 1)
              && (a == Err(LastClient) <==> Enrolled(s, k) && |s| == 1)
              && (a == Err(NotEnrolled) <==> s != {} && !Enrolled(s, k))
              && (a == Err(Missing) <==> s == {}) && (a.Ok? ==> a.value == k)
  {
    if op.Enroll? && op.client in s { LookupUnique(s, op.client); }
    if op.Revoke? && Enrolled(s, op.keyId) { assert s != {} && |s| >= 1; }
  }

  /** Every operation keeps the store, and never empties it. */
  lemma NextKeeps(s: set<Client>, op: Op, derive: Derivation)
    requires Store(s, derive)
    ensures Store(Next(s, op, derive), derive)
    ensures s != {} ==> Next(s, op, derive) != {}
  {
    if Answer(s, op, derive).Ok? {
      match op
      case Enroll(c) =>
        if Enrolled(s, c.keyId) { assert s + {c} == s; } else { MembersMore(s, c); }
      case Revoke(k) =>
        WithoutOne(s, Lookup(s, k).value);
    }
  }

  /** So does every sequence of enrollments and revocations. */
  lemma {:induction false} AfterKeeps(s: set<Client>, ops: seq<Op>, derive: Derivation)
    requires Store(s, derive)
    ensures Store(After(s, ops, derive), derive)
    ensures s != {} ==> After(s, ops, derive) != {}
    decreases |ops|
  {
    if ops != [] {
      AfterKeeps(s, ops[..|ops| - 1], derive);
      NextKeeps(After(s, ops[..|ops| - 1], derive), ops[|ops| - 1], derive);
    }
  }

  /** Repeating an exact enrollment succeeds and changes nothing. */
  lemma EnrollTwice(s: set<Client>, c: Client, derive: Derivation)
    requires Store(s, derive) && Answer(s, Enroll(c), derive).Ok?
    ensures Answer(Next(s, Enroll(c), derive), Enroll(c), derive) == Ok(c.keyId)
    ensures Next(Next(s, Enroll(c), derive), Enroll(c), derive) == Next(s, Enroll(c), derive)
  {
    var t := Next(s, Enroll(c), derive);
    NextKeeps(s, Enroll(c), derive);
    assert c in t;
    LookupUnique(t, c);
    assert t + {c} == t;
  }

  /** Revoking a new client undoes its enrollment, unless it is the only one; then the
      revocation is refused. */
  lemma RevokeUndoes(s: set<Client>, c: Client, derive: Derivation)
    requires Store(s, derive) && !Enrolled(s, c.keyId) && Answer(s, Enroll(c), derive).Ok?
    ensures var t := Next(s, Enroll(c), derive);
            if s == {} then Answer(t, Revoke(c.keyId), derive) == Err(LastClient)
            else Next(t, Revoke(c.keyId), derive) == s
  {
    var t := s + {c};
    MembersMore(s, c);
    LookupUnique(t, c);
    WithoutOne(t, c);
    assert t - {c} == s;
  }

  /** The search among the loaded entries. */
  method FindEntry(entries: seq<Client>, k: KeyId) returns (r: Option<Client>)
    requires Sorted(entries)
    ensures r == Lookup(Elements(entries), k)
    ensures r.None? ==> forall i :: 0 <= i < |entries| ==> entries[i].keyId != k
  {
    for i := 0 to |entries|
      invariant forall j :: 0 <= j < i ==> entries[j].keyId != k
    {
      if entries[i].keyId == k {
        EntryFound(entries, i);
        return Some(entries[i]);
      }
    }
    EntryMissing(entries, k);
    r := None;
  }

  class AllowlistFile {
    const derive: Derivation
    var contents: Option<seq<Client>>

    constructor (derive: Derivation, contents: Option<seq<Client>>)
      ensures this.derive == derive && this.contents == contents
    {
      this.derive, this.contents := derive, contents;
    }

    /** A file, if there is one, that loads. */
    ghost predicate Valid()
      reads this
    {
      contents.Some? ==> Allowlist(contents.value) && Derived(contents.value, derive)
    }

    ghost function Clients(): set<Client>
      reads this
    {
      if contents.None? then {} else Elements(contents.value)
    }

    lemma Stored()
      requires Valid()
      ensures Store(Clients(), derive)
      ensures |Clients()| == if contents.None? then 0 else |contents.value|
    {
      if contents.Some? {
        SortedMembers(contents.value);
      }
    }

    /** Strict loading: size, derivation, and strict order. */
    method Load() returns (r: Result<seq<Client>, AuthError>)
      ensures r.Ok? <==> contents.Some? && Allowlist(contents.value) && Derived(contents.value, derive)
      ensures r.Ok? ==> r.value == contents.value
      ensures r == Err(Missing) <==> contents.None?
      ensures r == Err(WrongSize) <==> contents.Some? && !Bounded(contents.value)
      ensures r == Err(NotDerived) <==> contents.Some? && Bounded(contents.value) && !Derived(contents.value, derive)
      ensures r == Err(Unsorted) <==> contents.Some? && Bounded(contents.value) && Derived(contents.value, derive) && !Sorted(contents.value)
    {
      if contents.None? {
        return Err(Missing);
      }
      var entries := contents.value;
      if |entries| == 0 || |entries| > MAX_AUTHORIZED_CLIENTS {
        return Err(WrongSize);
      }
      for i := 0 to |entries|
        invariant Derived(entries[..i], derive)
      {
        assert entries[..i + 1] == entries[..i] + [entries[i]];
        if entries[i].keyId != derive(entries[i].publicKey) {
          return Err(NotDerived);
        }
      }
      assert entries[..|entries|] == entries;
      var ok := StrictlyAscending(entries);
      r := if ok then Ok(entries) else Err(Unsorted);
    }

    /** The enrollment transaction on a loadable or missing file; `written` says whether
        the atomic write succeeded. */
    method EnrollClient(c: Client, written: bool) returns (r: Result<KeyId, AuthError>)
      modifies this`contents
      ensures !old(Valid()) ==> r.Err? && contents == old(contents)
      ensures old(Valid()) ==> Valid()
      ensures old(Valid()) && (r.Err? || c in old(Clients())) ==> contents == old(contents)
      ensures old(Valid()) && r != Err(Storage) ==>
        r == Answer(old(Clients()), Enroll(c), derive) && Clients() == Next(old(Clients()), Enroll(c), derive)
      ensures r == Err(Storage) ==> !written
      ensures !written ==> contents == old(contents)
    {
      if c.keyId != derive(c.publicKey) {
        return Err(NotDerived);
      }
      var loaded := Load();
      if loaded.Err? && loaded.error != Missing {
        return Err(loaded.error);
      }
      Stored();
      var entries := if loaded.Ok? then loaded.value else [];
      assert Elements(entries) == Clients();
      var known := FindEntry(entries, c.keyId);
      if known.Some? {
        assert c == known.value ==> Clients() + {c} == Clients();
        return if known.value == c then Ok(c.keyId) else Err(Conflict);
      }
      if |entries| >= MAX_AUTHORIZED_CLIENTS {
        return Err(Full);
      }
      var sorted := SortBy(entries + [c], Rank);
      Pushed(entries, c, sorted, derive);
      if !written {
        return Err(Storage);
      }
      contents := Some(sorted);
      r := Ok(c.keyId);
    }

    /** The revocation transaction. */
    method RevokeClient(k: KeyId, written: bool) returns (r: Result<KeyId, AuthError>)
      modifies this`contents
      ensures !old(Valid()) ==> r.Err? && contents == old(contents)
      ensures old(Valid()) ==> Valid()
      ensures r.Err? ==> contents == old(contents)
      ensures old(Valid()) && r != Err(Storage) ==>
        r == Answer(old(Clients()), Revoke(k), derive) && Clients() == Next(old(Clients()), Revoke(k), derive)
      ensures r == Err(Storage) ==> !written
      ensures !written ==> contents == old(contents)
    {
      var loaded := Load();
      if loaded.Err? {
        return Err(loaded.error);
      }
      Stored();
      var clients := new AuthorizedClients(loaded.value);
      var revoked := clients.Revoke(k);
      if revoked.Err? {
        return Err(revoked.error);
      }
      if !written {
        return Err(Storage);
      }
      DerivedFewer(loaded.value, clients.entries, derive);
      contents := Some(clients.entries);
      r := Ok(k);
    }
  }

  lemma DerivedFewer(all: seq<Client>, some: seq<Client>, derive: Derivation)
    requires Derived(all, derive) && Elements(some) <= Elements(all)
    ensures Derived(some, derive)
  {
    forall i | 0 <= i < |some| ensures some[i].keyId == derive(some[i].publicKey) {
      assert some[i] in Elements(some);
      assert some[i] in all;
    }
  }

  /** One enrollment or revocation. */
  method Perform(file: AllowlistFile, op: Op, written: bool) returns (r: Result<KeyId, AuthError>)
    requires file.Valid()
    modifies file`contents
    ensures file.Valid()
    ensures r == Err(Storage) ==> !written && file.contents == old(file.contents)
    ensures r != Err(Storage) ==> r == Answer(old(file.Clients()), op, file.derive)
    ensures r != Err(Storage) ==> file.Clients() == Next(old(file.Clients()), op, file.derive)
    ensures !written ==> file.contents == old(file.contents)
  {
    match op
    case Enroll(c) => r := file.EnrollClient(c, written);
    case Revoke(k) => r := file.RevokeClient(k, written);
  }

  /** The operations whose write succeeds. */
  function Written(ops: seq<Op>, writes: seq<bool>): seq<Op>
    requires |writes| == |ops|
  {
    if ops == [] then []
    else
      var n := |ops| - 1;
      Written(ops[..n], writes[..n]) + if writes[n] then [ops[n]] else []
  }

  /** The clients before operation `i`. */
  ghost function Before(clients: set<Client>, ops: seq<Op>, writes: seq<bool>, i: nat, derive: Derivation): set<Client>
    requires |writes| == |ops| && i <= |ops|
  {
    After(clients, Written(ops[..i], writes[..i]), derive)
  }

  lemma BeforeNext(clients: set<Client>, ops: seq<Op>, writes: seq<bool>, i: nat, derive: Derivation)
    requires |writes| == |ops| && i < |ops|
    ensures var before := Before(clients, ops, writes, i, derive);
            Before(clients, ops, writes, i + 1, derive) == if writes[i] then Next(before, ops[i], derive) else before
  {
    assert ops[..i + 1][..i] == ops[..i] && writes[..i + 1][..i] == writes[..i];
    var done := Written(ops[..i], writes[..i]);
    assert (done + [ops[i]])[..|done|] == done && done + [] == done;
  }

  lemma BeforeEnd(clients: set<Client>, ops: seq<Op>, writes: seq<bool>, derive: Derivation)
    requires |writes| == |ops|
    ensures Before(clients, ops, writes, 0, derive) == clients
    ensures Before(clients, ops, writes, |ops|, derive) == After(clients, Written(ops, writes), derive)
  {
    assert ops[..|ops|] == ops && writes[..|ops|] == writes;
  }

  /** Any sequence of enrollments and revocations leaves the file with exactly the clients
      that those among them leave whose write succeeds, loadable, and present if it was
      present; and every operation that is written answers as those before it allow. */
  method PerformAll(file: AllowlistFile, ops: seq<Op>, writes: seq<bool>) returns (answers: seq<Result<KeyId, AuthError>>)
    requires file.Valid() && |writes| == |ops|
    modifies file`contents
    ensures file.Valid()
    ensures file.Clients() == After(old(file.Clients()), Written(ops, writes), file.derive)
    ensures old(file.contents).Some? ==> file.contents.Some?
    ensures |answers| == |ops|
    ensures forall i :: 0 <= i < |ops| && writes[i] ==> answers[i] == Answer(Before(old(file.Clients()), ops, writes, i, file.derive), ops[i], file.derive)
  {
    ghost var clients := file.Clients();
    file.Stored();
    answers := [];
    BeforeEnd(clients, ops, writes, file.derive);
    for i := 0 to |ops|
      invariant file.Valid() && file.Clients() == Before(clients, ops, writes, i, file.derive)
      invariant |answers| == i
      invariant forall k :: 0 <= k < i && writes[k] ==> answers[k] == Answer(Before(clients, ops, writes, k, file.derive), ops[k], file.derive)
    {
      BeforeNext(clients, ops, writes, i, file.derive);
      var r := Perform(file, ops[i], writes[i]);
      answers := answers + [r];
    }
    AfterKeeps(clients, Written(ops, writes), file.derive);
    file.Stored();
    if old(file.contents).Some? { assert old(file.contents).value[0] in clients; }
  }

  lemma Pushed(entries: seq<Client>, c: Client, sorted: seq<Client>, derive: Derivation)
    requires Sorted(entries) && |entries| < MAX_AUTHORIZED_CLIENTS && Derived(entries, derive) && c.keyId == derive(c.publicKey)
    requires forall i :: 0 <= i < |entries| ==> entries[i].keyId != c.keyId
    requires SortedBy(sorted, Rank) && multiset(sorted) == multiset(entries + [c])
    ensures Allowlist(sorted) && Derived(sorted, derive) && Elements(sorted) == Elements(entries) + {c}
  {
    var more := entries + [c];
    assert UniqueBy(entries, Rank);
    UniqueNext(entries, c, Rank);
    SortedDistinctKeys(more, sorted);
    assert |sorted| == |multiset(sorted)| == |multiset(more)| == |more|;
    assert Elements(more) == Elements(entries) + {c};
    forall i | 0 <= i < |sorted| ensures sorted[i].keyId == derive(sorted[i].publicKey) {
      assert sorted[i] in Elements(sorted);
      assert sorted[i] in more;
    }
  }
}
