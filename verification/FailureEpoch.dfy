/** Candidate rotation after short sessions: preference, failure epochs, and when
    the whole snapshot counts as exhausted. */
module FailureEpoch {
  import opened Prelude
  import opened Endpoint
  import opened EndpointInvariant

  datatype Action = Rotate | Backoff | RemoteClose

  ghost predicate Distinct(keys: seq<Key>) {
    forall i, j :: 0 <= i < j < |keys| ==> keys[i] != keys[j]
  }

  function IndexOf(keys: seq<Key>, k: Key): (r: Option<nat>)
    ensures r.Some? ==> r.value < |keys| && keys[r.value] == k && k !in keys[..r.value]
    ensures r.None? ==> k !in keys
  {
    if keys == [] then None
    else
      var init := keys[..|keys| - 1];
      var r := IndexOf(init, k);
      if r.Some? then
        assert keys[..r.value] == init[..r.value];
        r
      else if keys[|keys| - 1] == k then Some(|keys| - 1) else None
  }

  /** `select_signed_candidate`: the preferred candidate if it is still published,
      else the first. */
  function Select(keys: seq<Key>, preferred: Option<Key>): Option<Key> {
    if preferred.Some? && IndexOf(keys, preferred.value).Some? then preferred
    else if keys == [] then None else Some(keys[0])
  }

  /** `next_signed_candidate_preference`. */
  function Preference(keys: seq<Key>, current: Key, action: Action): Option<Key> {
    match IndexOf(keys, current)
    case Some(index) =>
      if !action.Rotate? && |keys| > 1 then Some(keys[(index + 1) % |keys|]) else Some(keys[index])
    case None => if keys == [] then None else Some(keys[0])
  }

  /** Whatever is preferred or was current, a selection is a published candidate,
      and there is one exactly when something is published. */
  lemma SelectPublished(keys: seq<Key>, preferred: Option<Key>, current: Key, action: Action)
    ensures Select(keys, preferred).Some? <==> keys != []
    ensures Select(keys, preferred).Some? ==> Select(keys, preferred).value in keys
    ensures Preference(keys, current, action).Some? <==> keys != []
    ensures Preference(keys, current, action).Some? ==> Preference(keys, current, action).value in keys
  {
  }

  /** The preferred candidate is selected while it is published, else the first one. */
  lemma Selected(keys: seq<Key>, preferred: Option<Key>)
    ensures preferred.Some? && preferred.value in keys ==> Select(keys, preferred) == preferred
    ensures !(preferred.Some? && preferred.value in keys) && keys != [] ==> Select(keys, preferred) == Some(keys[0])
  {
  }

  /** After a stable session the same candidate is preferred again; one that is no longer
      published gives way to the first. */
  lemma Preferred(keys: seq<Key>, current: Key, action: Action)
    ensures action.Rotate? && current in keys ==> Preference(keys, current, action) == Some(current)
    ensures current !in keys && keys != [] ==> Preference(keys, current, action) == Some(keys[0])
  {
  }

  // -------------------------------------------------------------------------- epochs

  datatype Epoch = Epoch(generation: U64, attempted: set<Key>, rehydrated: bool)

  function Begin(generation: U64): Epoch {
    Epoch(generation, {}, false)
  }

  function Synchronized(e: Epoch, generation: U64): Epoch {
    if e.generation == generation then e else Begin(generation)
  }

  /** The epoch after one failure, and whether the snapshot is exhausted. */
  function Recorded(e: Epoch, generation: U64, keys: seq<Key>, k: Key): (Epoch, bool) {
    var s := Synchronized(e, generation);
    var next := if k in keys then s.(attempted := s.attempted + {k}) else s;
    (next, keys != [] && !next.rehydrated && forall x :: x in keys ==> x in next.attempted)
  }

  function Noted(e: Epoch, generation: U64, keys: seq<Key>, failed: Key): Epoch {
    var kept := set x | x in e.attempted && x in keys;
    Epoch(generation, if failed in keys then kept + {failed} else kept, true)
  }

  /** What is remembered of earlier failures: nothing of another generation. */
  ghost function Remembered(e: Epoch, generation: U64): set<Key> {
    if e.generation == generation then e.attempted else {}
  }

  /** A failure is remembered if its candidate is published; the snapshot is exhausted
      when every published candidate failed and it was not rehydrated since. */
  lemma RecordedMeans(e: Epoch, generation: U64, keys: seq<Key>, k: Key)
    ensures var (next, exhausted) := Recorded(e, generation, keys, k);
            && next.generation == generation && (next.rehydrated <==> e.rehydrated && e.generation == generation)
            && (forall x :: x in next.attempted <==> x in Remembered(e, generation) || (x == k && k in keys))
            && (exhausted <==> keys != [] && !next.rehydrated && forall x :: x in keys ==> x in Remembered(e, generation) || x == k)
  {
  }

  /** A rehydrated epoch remembers the failures that are still published. */
  lemma NotedMeans(e: Epoch, generation: U64, keys: seq<Key>, failed: Key)
    ensures var next := Noted(e, generation, keys, failed);
            next.generation == generation && next.rehydrated && forall x :: x in next.attempted <==> x in keys && (x in e.attempted || x == failed)
  {
  }

  class SignedFailureEpoch {
    var generation: U64
    var attempted: set<Key>
    var rehydrated: bool

    ghost function View(): Epoch
      reads this
    {
      Epoch(generation, attempted, rehydrated)
    }

    constructor (generation: U64)
      ensures View() == Begin(generation)
    {
      this.generation, attempted, rehydrated := generation, {}, false;
    }

    method Synchronize(generation: U64)
      modifies this
      ensures View() == Synchronized(old(View()), generation)
    {
      if this.generation != generation {
        this.generation, attempted, rehydrated := generation, {}, false;
      }
    }

    method RecordFailure(generation: U64, keys: seq<Key>, k: Key) returns (exhausted: bool)
      modifies this
      ensures (View(), exhausted) == Recorded(old(View()), generation, keys, k)
    {
      Synchronize(generation);
      var current := set x | x in keys;
      if k in current { attempted := attempted + {k}; }
      assert current == {} <==> keys == [] by {
        if keys != [] { assert keys[0] in current; }
      }
      exhausted := current != {} && !rehydrated && current <= attempted;
    }

    method NoteRehydrated(generation: U64, keys: seq<Key>, failed: Key)
      modifies this
      ensures View() == Noted(old(View()), generation, keys, failed)
    {
      this.generation := generation;
      attempted := set x | x in attempted && x in keys;
      if failed in keys { attempted := attempted + {failed}; }
      rehydrated := true;
    }

    method Reset(generation: U64)
      modifies this
      ensures View() == Begin(generation)
    {
      this.generation, attempted, rehydrated := generation, {}, false;
    }
  }

  // ----------------------------------------------------------------------- rotation

  /** Index `i` places after `start`, going round. */
  function Around(start: nat, i: nat, n: nat): (r: nat)
    requires start < n && i <= n
    ensures r < n || (r == n && n == 0)
  {
    if start + i < n then start + i else start + i - n
  }

  lemma AroundDistinct(start: nat, i: nat, j: nat, n: nat)
    requires start < n && i < j < n
    ensures Around(start, i, n) != Around(start, j, n)
  {
  }

  lemma AroundNext(start: nat, i: nat, n: nat)
    requires start < n && i < n
    ensures Around(Around(start, i, n), 1, n) == Around(start, i + 1, n)
  {
  }

  /** After a failure of the candidate at `at`, the next one selected is its successor. */
  lemma NextSelected(keys: seq<Key>, at: nat, action: Action)
    requires Distinct(keys) && at < |keys| && !action.Rotate?
    ensures Select(keys, Preference(keys, keys[at], action)) == Some(keys[Around(at, 1, |keys|)])
  {
    var index := IndexOf(keys, keys[at]).value;
    assert index == at;
    assert keys[Around(at, 1, |keys|)] in keys;
    assert |keys| > 1 ==> (at + 1) % |keys| == Around(at, 1, |keys|);
  }

  /** The candidates of the first `i` sessions. */
  ghost function Visited(keys: seq<Key>, start: nat, i: nat): set<Key>
    requires start < |keys| && i <= |keys|
  {
    set j | 0 <= j < i :: keys[Around(start, j, |keys|)]
  }

  lemma VisitedNext(keys: seq<Key>, start: nat, i: nat)
    requires Distinct(keys) && start < |keys| && i < |keys|
    ensures Visited(keys, start, i + 1) == Visited(keys, start, i) + {keys[Around(start, i, |keys|)]}
    ensures keys[Around(start, i, |keys|)] !in Visited(keys, start, i)
  {
    forall j | 0 <= j < i ensures keys[Around(start, j, |keys|)] != keys[Around(start, i, |keys|)] {
      AroundDistinct(start, j, i, |keys|);
    }
  }

  lemma AllVisited(keys: seq<Key>, start: nat)
    requires start < |keys|
    ensures forall x :: x in keys <==> x in Visited(keys, start, |keys|)
  {
    forall x | x in keys ensures x in Visited(keys, start, |keys|) {
      var m :| 0 <= m < |keys| && keys[m] == x;
      var j := if start <= m then m - start else m + |keys| - start;
      assert keys[Around(start, j, |keys|)] == x;
    }
  }

  /** The `i + 1`th failure of a rotation reports exhaustion exactly when it is the last. */
  lemma RotationRecords(keys: seq<Key>, start: nat, i: nat, generation: U64)
    requires Distinct(keys) && start < |keys| && i < |keys|
    ensures Recorded(Epoch(generation, Visited(keys, start, i), false), generation, keys, keys[Around(start, i, |keys|)]) ==
            (Epoch(generation, Visited(keys, start, i + 1), false), i + 1 == |keys|)
  {
    VisitedNext(keys, start, i);
    if i + 1 < |keys| {
      VisitedNext(keys, start, i + 1);
      assert keys[Around(start, i + 1, |keys|)] in keys;
    } else {
      AllVisited(keys, start);
    }
  }

  lemma RotationComplete(keys: seq<Key>, start: nat, visited: seq<Key>)
    requires Distinct(keys) && start < |keys| && |visited| == |keys|
    requires forall j :: 0 <= j < |visited| ==> visited[j] == keys[Around(start, j, |keys|)]
    ensures Distinct(visited) && forall x :: x in keys <==> x in visited
  {
    AllVisited(keys, start);
    forall i, j | 0 <= i < j < |visited| ensures visited[i] != visited[j] {
      AroundDistinct(start, i, j, |keys|);
    }
    forall x | x in Visited(keys, start, |keys|) ensures x in visited {
      var j :| 0 <= j < |keys| && keys[Around(start, j, |keys|)] == x;
      assert visited[j] == x;
    }
  }

  /** The keys of a published snapshot. */
  function Published(snapshot: DialSnapshot): (keys: seq<Key>)
    ensures |keys| == |snapshot.candidates| && forall i :: 0 <= i < |keys| ==> keys[i] == snapshot.candidates[i].key
  {
    seq(|snapshot.candidates|, i requires 0 <= i < |snapshot.candidates| => snapshot.candidates[i].key)
  }

  /** Every snapshot of the coordinator lists some candidate, and none twice. */
  lemma PublishedDistinct(c: Coordinator)
    requires Inv(c)
    ensures Distinct(Published(c.snapshot)) && Published(c.snapshot) != []
    ensures forall k :: k in Published(c.snapshot) <==> k in Dialable(c.candidates)
  {
    var ds := c.snapshot.candidates;
    DialListEmpty(c.logical, c.candidates);
    forall i, j | 0 <= i < j < |ds| ensures ds[i].key != ds[j].key {
      assert DialRank(ds[i]) < DialRank(ds[j]);
    }
    forall k | k in Dialable(c.candidates) ensures k in Published(c.snapshot) {
      assert Dial(c.logical, k) in ds;
      var i :| 0 <= i < |ds| && ds[i] == Dial(c.logical, k);
      assert Published(c.snapshot)[i] == k;
    }
    forall k | k in Published(c.snapshot) ensures k in Dialable(c.candidates) {
      var i :| 0 <= i < |ds| && Published(c.snapshot)[i] == k;
      assert ds[i] in ds;
    }
  }

  /** Failed sessions on one snapshot, the first of them after a stable one: whatever the
      epoch held, every dialable candidate is tried exactly once, in rotation, and
      exhaustion is reported at the last one and not before. */
  method FailUntilExhausted(epoch: SignedFailureEpoch, c: Coordinator, preferred: Option<Key>, actions: seq<Action>)
    returns (visited: seq<Key>, reports: seq<bool>)
    requires Inv(c) && |actions| == |c.snapshot.candidates| && forall i :: 0 <= i < |actions| ==> !actions[i].Rotate?
    modifies epoch
    ensures Distinct(visited) && forall k :: k in visited <==> k in Dialable(c.candidates)
    ensures |reports| == |visited| && forall i :: 0 <= i < |reports| ==> (reports[i] <==> i == |visited| - 1)
    ensures epoch.View() == Epoch(c.snapshot.generation, Dialable(c.candidates), false)
  {
    var keys := Published(c.snapshot);
    PublishedDistinct(c);
    epoch.Reset(c.snapshot.generation);
    visited, reports := RotateOnce(epoch, c.snapshot.generation, keys, preferred, actions);
    assert epoch.attempted == Dialable(c.candidates);
  }

  /** The candidates in rotation, with a report at the last of them. */
  ghost predicate InTurn(keys: seq<Key>, start: nat, visited: seq<Key>, reports: seq<bool>)
    requires start < |keys|
  {
    |visited| == |reports| <= |keys| &&
    forall j :: 0 <= j < |visited| ==> visited[j] == keys[Around(start, j, |keys|)] && (reports[j] <==> j == |keys| - 1)
  }

  lemma InTurnNext(keys: seq<Key>, start: nat, visited: seq<Key>, reports: seq<bool>, current: Key, report: bool)
    requires start < |keys| && InTurn(keys, start, visited, reports) && |visited| < |keys|
    requires current == keys[Around(start, |visited|, |keys|)] && (report <==> |visited| == |keys| - 1)
    ensures InTurn(keys, start, visited + [current], reports + [report])
  {
  }

  method RotateOnce(epoch: SignedFailureEpoch, generation: U64, keys: seq<Key>, preferred: Option<Key>, actions: seq<Action>)
    returns (visited: seq<Key>, reports: seq<bool>)
    requires Distinct(keys) && keys != [] && epoch.View() == Begin(generation)
    requires |actions| == |keys| && forall i :: 0 <= i < |actions| ==> !actions[i].Rotate?
    modifies epoch
    ensures |visited| == |reports| == |keys| && Distinct(visited) && forall x :: x in keys <==> x in visited
    ensures forall i :: 0 <= i < |reports| ==> (reports[i] <==> i == |keys| - 1)
    ensures epoch.generation == generation && !epoch.rehydrated && forall x :: x in keys <==> x in epoch.attempted
  {
    visited, reports := [], [];
    var current := Select(keys, preferred).value;
    ghost var start := IndexOf(keys, current).value;
    var exhausted := false;
    while !exhausted
      invariant |visited| == |reports| <= |keys| && (exhausted <==> |visited| == |keys|)
      invariant !exhausted ==> current == keys[Around(start, |visited|, |keys|)]
      invariant InTurn(keys, start, visited, reports)
      invariant epoch.View() == Epoch(generation, Visited(keys, start, |visited|), false)
      decreases |keys| - |visited|
    {
      ghost var i := |visited|;
      RotationRecords(keys, start, i, generation);
      NextSelected(keys, Around(start, i, |keys|), actions[i]);
      AroundNext(start, i, |keys|);
      exhausted := epoch.RecordFailure(generation, keys, current);
      InTurnNext(keys, start, visited, reports, current, exhausted);
      visited, reports := visited + [current], reports + [exhausted];
      current := Select(keys, Preference(keys, current, actions[|visited| - 1])).value;
    }
    RotationComplete(keys, start, visited);
    AllVisited(keys, start);
  }

  /** A failure as the client records it. */
  datatype Failure = Failure(keys: seq<Key>, key: Key)

  function After(e: Epoch, generation: U64, failures: seq<Failure>): Epoch {
    if failures == [] then e else
      Recorded(After(e, generation, failures[..|failures| - 1]), generation, failures[|failures| - 1].keys, failures[|failures| - 1].key).0
  }

  /** After rehydration no run of failures on that generation is reported again. */
  lemma {:induction false} QuietAfterRehydration(e: Epoch, generation: U64, keys: seq<Key>, failed: Key, failures: seq<Failure>, next: Failure)
    ensures var later := After(Noted(e, generation, keys, failed), generation, failures);
            later.rehydrated && later.generation == generation && !Recorded(later, generation, next.keys, next.key).1
  {
    if failures != [] {
      QuietAfterRehydration(e, generation, keys, failed, failures[..|failures| - 1], failures[|failures| - 1]);
    }
  }

  /** A reset or another generation reopens the epoch: it then reports exactly when
      the one candidate it has seen is the whole snapshot. */
  lemma Reopened(e: Epoch, generation: U64, failure: Failure)
    requires e.generation != generation || e == Begin(generation)
    ensures Recorded(e, generation, failure.keys, failure.key).1 <==>
            failure.keys != [] && forall x :: x in failure.keys ==> x == failure.key
  {
    if failure.keys != [] { assert failure.keys[0] in failure.keys; }
  }
}
