/**
 Purging cached media: what `Delete` reports and leaves behind when nothing else runs and the bucket
 answers, and how purges add up.
 */
module MediaPurge {
  import opened Wrappers
  import opened MediaProtocol
  import opened MediaSteps
  import opened MediaRecovery

  // ----- the outcome of a deletion, as a function of the selected rows -----

  /** Rows whose ref points at a catalogued object. */
  predicate Cached(s: State, k: Key) {
    k in s.refs && At(s, s.refs[k]).row != None
  }

  /** Objects all of whose refs are in `keys`. */
  function Removable(s: State, keys: set<Key>): set<Hash> {
    set h | h in s.slots && s.slots[h].row != None && RefsTo(s.refs, h) != {} && RefsTo(s.refs, h) <= keys
  }

  /** The store once the refs in `keys` are gone, and with them every object nothing else uses. */
  function Purge(s: State, keys: set<Key>): State {
    State(map h | h in s.slots :: if h in Removable(s, keys) then CollectSlot(s.slots[h]) else s.slots[h],
          s.refs - keys,
          s.messages)
  }

  datatype Outcome = Purged | NotCached | RemovalFailed | Incomplete

  datatype PurgeResult = PurgeResult(row: Key, outcome: Outcome, bytes: nat)

  /** The first occurrence of a cached row. */
  predicate Hit(s: State, rows: seq<Key>, i: nat)
    requires i < |rows|
  {
    Cached(s, rows[i]) && forall j | 0 <= j < i :: rows[j] != rows[i]
  }

  /** The last hit on its object. */
  predicate LastHit(s: State, rows: seq<Key>, i: nat)
    requires i < |rows|
  {
    Hit(s, rows, i) && forall j | i < j < |rows| :: Hit(s, rows, j) ==> s.refs[rows[j]] != s.refs[rows[i]]
  }

  function Chosen(s: State, rows: seq<Key>): set<Key> {
    set k | k in rows && Cached(s, k)
  }

  /** A removed object's bytes are reported once, on the last of its selected refs. */
  function ResultAt(s: State, rows: seq<Key>, i: nat): PurgeResult
    requires i < |rows|
  {
    PurgeResult(rows[i], if Hit(s, rows, i) then Purged else NotCached,
      if LastHit(s, rows, i) && RefsTo(s.refs, s.refs[rows[i]]) <= Chosen(s, rows)
      then At(s, s.refs[rows[i]]).row.value else 0)
  }

  function Report(s: State, rows: seq<Key>): seq<PurgeResult> {
    seq(|rows|, i requires 0 <= i < |rows| => ResultAt(s, rows, i))
  }

  function Files(results: seq<PurgeResult>): nat {
    if results == [] then 0
    else Files(results[..|results| - 1]) + if results[|results| - 1].outcome == Purged then 1 else 0
  }

  function Bytes(results: seq<PurgeResult>): nat {
    if results == [] then 0
    else Bytes(results[..|results| - 1]) + results[|results| - 1].bytes
  }

  // ----- totals of a report -----

  function ChosenUpTo(s: State, rows: seq<Key>, n: nat): set<Key>
    requires n <= |rows|
  {
    set i | 0 <= i < n && Cached(s, rows[i]) :: rows[i]
  }

  lemma ChosenStep(s: State, rows: seq<Key>, i: nat)
    requires i < |rows|
    ensures |ChosenUpTo(s, rows, i + 1)| == |ChosenUpTo(s, rows, i)| + if Hit(s, rows, i) then 1 else 0
  {
    var before, after := ChosenUpTo(s, rows, i), ChosenUpTo(s, rows, i + 1);
    if !Cached(s, rows[i]) {
      assert after == before;
    } else if j :| 0 <= j < i && rows[j] == rows[i] {
      assert rows[j] in before;
      assert after == before;
    } else {
      assert rows[i] !in before;
      assert after == before + {rows[i]};
    }
  }

  lemma {:induction false} ReportFiles(s: State, rows: seq<Key>, n: nat)
    requires n <= |rows|
    ensures Files(Report(s, rows)[..n]) == |ChosenUpTo(s, rows, n)|
  {
    if n == 0 {
      assert ChosenUpTo(s, rows, 0) == {};
    } else {
      ReportFiles(s, rows, n - 1);
      assert Report(s, rows)[..n][..n - 1] == Report(s, rows)[..n - 1];
      ChosenStep(s, rows, n - 1);
    }
  }

  /** Removable objects whose last hit is among the first `n` rows. */
  function SettledBy(s: State, rows: seq<Key>, n: nat): set<Hash>
    requires n <= |rows|
  {
    set i | 0 <= i < n && LastHit(s, rows, i) && RefsTo(s.refs, s.refs[rows[i]]) <= Chosen(s, rows) :: s.refs[rows[i]]
  }

  lemma {:induction false} ReportBytes(s: State, rows: seq<Key>, n: nat)
    requires n <= |rows|
    ensures Bytes(Report(s, rows)[..n]) == RowBytes(s, SettledBy(s, rows, n))
  {
    if n == 0 {
      assert SettledBy(s, rows, 0) == {};
    } else {
      var i := n - 1;
      ReportBytes(s, rows, i);
      assert Report(s, rows)[..n][..i] == Report(s, rows)[..i];
      if LastHit(s, rows, i) && RefsTo(s.refs, s.refs[rows[i]]) <= Chosen(s, rows) {
        var h := s.refs[rows[i]];
        assert SettledBy(s, rows, n) == SettledBy(s, rows, i) + {h};
        forall j | 0 <= j < i && LastHit(s, rows, j) ensures s.refs[rows[j]] != h {
          assert Hit(s, rows, i);
        }
        RowBytesGrows(s, SettledBy(s, rows, i), h);
      } else {
        assert SettledBy(s, rows, n) == SettledBy(s, rows, i);
      }
    }
  }

  /** Every chosen ref of an object has a first occurrence, and one of them comes last. */
  lemma {:induction false} FirstOccurrence(s: State, rows: seq<Key>, i: nat) returns (j: nat)
    requires i < |rows| && Cached(s, rows[i])
    ensures j <= i && rows[j] == rows[i] && Hit(s, rows, j)
    decreases i
  {
    if k :| 0 <= k < i && rows[k] == rows[i] {
      j := FirstOccurrence(s, rows, k);
    } else {
      j := i;
    }
  }

  lemma {:induction false} LastOccurrence(s: State, rows: seq<Key>, i: nat) returns (j: nat)
    requires i < |rows| && Hit(s, rows, i)
    ensures i <= j < |rows| && LastHit(s, rows, j) && s.refs[rows[j]] == s.refs[rows[i]]
    decreases |rows| - i
  {
    if k :| i < k < |rows| && Hit(s, rows, k) && s.refs[rows[k]] == s.refs[rows[i]] {
      j := LastOccurrence(s, rows, k);
    } else {
      j := i;
    }
  }

  /** A report adds up to the chosen rows and the removable objects, each counted once. */
  lemma ReportTotals(s: State, rows: seq<Key>)
    ensures Files(Report(s, rows)) == |Chosen(s, rows)|
    ensures Bytes(Report(s, rows)) == RowBytes(s, Removable(s, Chosen(s, rows)))
  {
    var n := |rows|;
    assert Report(s, rows)[..n] == Report(s, rows);
    ReportFiles(s, rows, n);
    assert ChosenUpTo(s, rows, n) == Chosen(s, rows);
    ReportBytes(s, rows, n);
    forall h | h in Removable(s, Chosen(s, rows)) ensures h in SettledBy(s, rows, n) {
      var k :| k in RefsTo(s.refs, h);
      var i :| 0 <= i < n && rows[i] == k;
      var a := FirstOccurrence(s, rows, i);
      var b := LastOccurrence(s, rows, a);
    }
    forall h | h in SettledBy(s, rows, n) ensures h in Removable(s, Chosen(s, rows)) {
      var i :| 0 <= i < n && LastHit(s, rows, i) && RefsTo(s.refs, s.refs[rows[i]]) <= Chosen(s, rows)
               && s.refs[rows[i]] == h;
      assert rows[i] in RefsTo(s.refs, h);
    }
    assert SettledBy(s, rows, n) == Removable(s, Chosen(s, rows));
  }

  // ----- purges compose -----

  lemma PurgeRemovable(s: State, a: set<Key>, b: set<Key>)
    ensures Removable(s, a + b) == Removable(s, a) + Removable(Purge(s, a), b)
    ensures Removable(s, a) !! Removable(Purge(s, a), b)
  {
    var t := Purge(s, a);
    forall h | h in s.slots && h !in Removable(s, a)
      ensures h in Removable(s, a + b) <==> h in Removable(t, b)
    {
      assert RefsTo(t.refs, h) == RefsTo(s.refs, h) - a;
      assert t.slots[h] == s.slots[h];
      if k :| k in RefsTo(s.refs, h) && k !in a {
        assert k in RefsTo(t.refs, h);
      }
    }
    forall h | h in Removable(s, a) ensures h in Removable(s, a + b) && h !in Removable(t, b) {
      assert t.slots[h].row == None;
    }
  }

  lemma PurgeTwice(s: State, a: set<Key>, b: set<Key>)
    ensures Purge(Purge(s, a), b) == Purge(s, a + b)
  {
    PurgeRemovable(s, a, b);
    var t, u := Purge(Purge(s, a), b), Purge(s, a + b);
    forall h | h in s.slots ensures t.slots[h] == u.slots[h] {
    }
    assert t.slots == u.slots;
    assert t.refs == u.refs;
  }
}
