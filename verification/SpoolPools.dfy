/** `s3VerifiedSpools`: the pool object, its eviction loop and its shutdown. */
module SpoolPools {
  import opened Sums
  import opened Spools

  datatype Reason = PoolClosed | TooLarge | Full | Storage

  datatype Acquired = Opened(reader: nat, reused: bool) | Absent | Refused(reason: Reason)

  predicate Idle(p: Pool, key: string) {
    key in p.entries && p.entries[key] in p.spools && p.spools[p.entries[key]].readers == {}
  }

  function IdleAt(p: Pool, key: string): int
    requires key in p.entries && p.entries[key] in p.spools
  {
    p.spools[p.entries[key]].idleAt
  }

  /** `q` is `p` after evictions: only unread entries went, and none that was idle for less time than one left. */
  ghost predicate Trimmed(p: Pool, q: Pool) {
    && q.spools == p.spools && q.handles == p.handles && q.readers == p.readers && q.closed == p.closed
    && (forall k :: k in q.entries ==> k in p.entries && q.entries[k] == p.entries[k])
    && (forall k :: k in p.entries && k !in q.entries ==> Idle(p, k))
    && (forall j, k :: k in p.entries && k !in q.entries && Idle(p, k) && Idle(q, j) ==> IdleAt(p, k) <= IdleAt(q, j))
  }

  ghost predicate OldestIdle(p: Pool, key: string) {
    Idle(p, key) && forall j :: Idle(p, j) ==> IdleAt(p, key) <= IdleAt(p, j)
  }

  lemma TrimNext(p: Pool, q: Pool, key: string)
    requires Trimmed(p, q) && Keyed(p) && OldestIdle(q, key)
    ensures Trimmed(p, Remove(q, q.entries[key], true))
  {
    var r := Remove(q, q.entries[key], true);
    assert forall j :: Idle(r, j) ==> Idle(q, j) && IdleAt(r, j) == IdleAt(q, j);
  }

  predicate NoRoom(l: Limits, p: Pool, size: int) {
    |p.entries| >= l.maxEntries || size > l.maxBytes - p.bytes
  }

  /** The space a flexible request can still get when nothing more can be evicted. */
  predicate Elastic(l: Limits, p: Pool, flexible: bool) {
    flexible && |p.entries| < l.maxEntries && l.maxBytes - p.bytes > OVERHEAD
  }

  /** The pool once every unread entry is evicted. */
  ghost function Busy(p: Pool): Pool {
    var q := p.(entries := map k | k in p.entries && !Idle(p, k) :: p.entries[k]);
    q.(bytes := Total(Sizes(q)))
  }

  predicate Fits(l: Limits, p: Pool, size: int, flexible: bool) {
    !NoRoom(l, p, size) || Elastic(l, p, flexible)
  }

  /** What a request that fits gets. */
  function Grant(l: Limits, p: Pool, size: int): int {
    if NoRoom(l, p, size) then l.maxBytes - p.bytes else size
  }

  function Wanted(l: Limits, size: int, flexible: bool): int {
    if flexible && size > l.maxBytes then l.maxBytes else size
  }

  /** The request is turned away for its size, its count of readers or a closed pool, whatever the entries are. */
  predicate Barred(l: Limits, p: Pool, size: int, flexible: bool) {
    p.closed || (!flexible && size > l.maxBytes) || size < 0 || p.readers >= l.maxReaders
  }

  /** The request is for an entry that is not there, and may make one. */
  predicate Asks(l: Limits, p: Pool, key: string, size: int, flexible: bool, onlyExisting: bool) {
    && !Barred(l, p, size, flexible) && key !in p.entries && !onlyExisting
    && (flexible ==> Wanted(l, size, flexible) > OVERHEAD)
  }

  /** Every unread entry's file can be removed. */
  ghost predicate NoneStuck(p: Pool, stuck: set<nat>) {
    forall k :: Idle(p, k) ==> p.entries[k] !in stuck
  }

  lemma NoneStuckLeft(p: Pool, q: Pool, stuck: set<nat>)
    requires Trimmed(p, q) && NoneStuck(p, stuck)
    ensures forall k :: OldestIdle(q, k) ==> q.entries[k] !in stuck
  {
    forall k | OldestIdle(q, k) ensures q.entries[k] !in stuck {
      assert Idle(p, k);
    }
  }

  /** No more was evicted than needed: before the last eviction there was no room. */
  ghost predicate Frugal(l: Limits, p: Pool, q: Pool, size: int) {
    q == p || exists before, k :: Trimmed(p, before) && NoRoom(l, before, size) && OldestIdle(before, k)
                && before.entries[k] in before.spools && q == Remove(before, before.entries[k], true)
  }

  lemma NothingTrimmed(l: Limits, p: Pool, size: int)
    ensures Frugal(l, p, p, size)
  {
  }

  lemma FrugalNext(l: Limits, p: Pool, before: Pool, k: string, size: int)
    requires Trimmed(p, before) && NoRoom(l, before, size) && OldestIdle(before, k)
    ensures before.entries[k] in before.spools && Frugal(l, p, Remove(before, before.entries[k], true), size)
  {
    hide Trimmed, NoRoom, Remove;
  }

  lemma BusyEntries(p: Pool, q: Pool)
    requires Keyed(p) && Trimmed(p, q)
    ensures var b := Busy(p);
            && (forall k :: k in b.entries ==> k in q.entries && b.entries[k] == q.entries[k]) && b.spools == q.spools
            && ((forall k :: !Idle(q, k)) ==> b.entries == q.entries)
  {
    hide Sizes;
    var b := Busy(p);
    if forall k :: !Idle(q, k) {
      forall k | k in q.entries ensures k in b.entries {
        assert !Idle(q, k);
      }
    }
  }

  lemma BusyBytes(p: Pool)
    ensures Busy(p).bytes == Total(Sizes(Busy(p)))
  {
    var q := p.(entries := map k | k in p.entries && !Idle(p, k) :: p.entries[k]);
    assert Sizes(Busy(p)) == Sizes(q);
  }

  /** Evictions never free more than evicting every unread entry would. */
  lemma BusyIsLeast(p: Pool, q: Pool)
    requires Keyed(p) && Trimmed(p, q) && Accounted(q)
    ensures |Busy(p).entries| <= |q.entries| && Busy(p).bytes <= q.bytes
    ensures (forall k :: !Idle(q, k)) ==> Busy(p).entries == q.entries && Busy(p).bytes == q.bytes
  {
    hide Trimmed, Busy, Idle, Total;
    var b := Busy(p);
    BusyEntries(p, q);
    BusyBytes(p);
    assert b.entries.Keys <= q.entries.Keys;
    SubsetSize(b.entries.Keys, q.entries.Keys);
    TotalMonotone(Sizes(b), Sizes(q));
    assert b.entries == q.entries ==> Sizes(b) == Sizes(q);
  }

  /** What evictions can and cannot make room for. */
  lemma RoomFound(l: Limits, p: Pool, q: Pool, size: int)
    requires Inv(l, p) && Inv(l, q) && Trimmed(p, q) && !NoRoom(l, q, size)
    ensures !NoRoom(l, Busy(p), size)
  {
    hide Trimmed, Busy, Accounted, Keyed, Linked;
    BusyIsLeast(p, q);
  }

  lemma NothingIdle(l: Limits, p: Pool, q: Pool, size: int, flexible: bool)
    requires Inv(l, p) && Inv(l, q) && Trimmed(p, q) && NoRoom(l, q, size) && forall k :: !Idle(q, k)
    ensures NoRoom(l, Busy(p), size) && (Elastic(l, Busy(p), flexible) <==> Elastic(l, q, flexible))
    ensures Busy(p).bytes == q.bytes
  {
    hide Trimmed, Busy, Idle, Accounted, Keyed, Linked;
    BusyIsLeast(p, q);
  }

  /** The request goes to an entry that is already there. */
  predicate Reuses(l: Limits, p: Pool, key: string, size: int, flexible: bool, onlyExisting: bool) {
    && !p.closed && (flexible || size <= l.maxBytes) && size >= 0 && p.readers < l.maxReaders
    && key in p.entries && p.entries[key] in p.spools
    && (onlyExisting ==> p.spools[p.entries[key]].transient)
    && p.spools[p.entries[key]].ready && (flexible || p.spools[p.entries[key]].size == size)
  }

  /** Identities already given out. */
  ghost predicate Below(ids: set<nat>, next: nat) {
    forall id :: id in ids ==> id < next
  }

  lemma BelowNext(ids: set<nat>, next: nat)
    requires Below(ids, next)
    ensures next !in ids && Below(ids + {next}, next + 1)
  {
  }

  /** A new spool and a new reader under fresh identities. */
  lemma CreateReady(l: Limits, p: Pool, id: nat, key: string, size: nat, transient: bool, reader: nat)
    requires Inv(l, p) && Below(p.spools.Keys, id) && Below(p.handles.Keys, reader)
    requires !p.closed && key !in p.entries && p.readers < l.maxReaders && !NoRoom(l, p, size)
    ensures Below(p.spools.Keys + {id}, id + 1) && Below(p.handles.Keys + {reader}, reader + 1)
    ensures Inv(l, Create(p, id, key, size, transient, reader))
    ensures Create(p, id, key, size, transient, reader) == Attach(Add(p, id, key, size, transient), id, reader)
  {
    hide Inv, Below, Add, Attach;
    BelowNext(p.spools.Keys, id);
    BelowNext(p.handles.Keys, reader);
    CreateKeepsInv(l, p, id, key, size, transient, reader);
  }

  class SpoolPool {
    const limits: Limits
    var spools: map<nat, Spool>
    var entries: map<string, nat>
    var handles: map<nat, Handle>
    var bytes: int
    var readers: int
    var closed: bool
    var nextSpool: nat
    var nextReader: nat

    ghost function View(): Pool
      reads this
    {
      Pool(spools, entries, handles, bytes, readers, closed)
    }

    ghost predicate Valid()
      reads this
    {
      Inv(limits, View()) && Below(spools.Keys, nextSpool) && Below(handles.Keys, nextReader)
    }

    constructor (limits: Limits)
      ensures Valid() && this.limits == limits && View() == EMPTY
    {
      hide Inv;
      EmptyInv(limits);
      this.limits := limits;
      spools, entries, handles, bytes, readers, closed, nextSpool, nextReader := map[], map[], map[], 0, 0, false, 0, 0;
    }

    method RemoveLocked(id: nat, removable: bool)
      requires id in spools
      modifies `entries, `bytes
      ensures View() == Remove(old(View()), id, removable)
    {
      if removable {
        entries := entries - {spools[id].key};
        bytes := bytes - spools[id].size;
      }
    }

    method AddReader(id: nat) returns (reader: nat)
      requires id in spools
      modifies `spools, `handles, `readers, `nextReader
      ensures reader == old(nextReader) && nextReader == reader + 1 && View() == Attach(old(View()), id, reader)
      ensures spools.Keys == old(spools.Keys) && handles.Keys == old(handles.Keys) + {reader}
    {
      reader := nextReader;
      spools := spools[id := spools[id].(readers := spools[id].readers + {reader})];
      handles := handles[reader := Handle(id, false)];
      readers, nextReader := readers + 1, nextReader + 1;
    }

    /** The unread entry that has been idle longest, if there is one. */
    method Oldest() returns (key: string, found: bool)
      requires Keyed(View())
      ensures found ==> OldestIdle(View(), key)
      ensures !found ==> forall k :: !Idle(View(), k)
    {
      found, key := false, "";
      var todo := entries.Keys;
      while todo != {}
        invariant todo <= entries.Keys
        invariant found ==> Idle(View(), key) && forall k :: k !in todo && Idle(View(), k) ==>
                  IdleAt(View(), key) <= IdleAt(View(), k)
        invariant !found ==> forall k :: k !in todo ==> !Idle(View(), k)
      {
        var k :| k in todo;
        var s := spools[entries[k]];
        if s.readers == {} && (!found || s.idleAt < spools[entries[key]].idleAt) {
          found, key := true, k;
        }
        todo := todo - {k};
      }
    }

    /**
     Evicts until a new entry of this size fits. `stuck` holds the spools whose files cannot be removed.
     The size granted is the one asked for, or what is left when a flexible request can do no better.
     */
    method MakeRoom(size: nat, flexible: bool, stuck: set<nat>) returns (granted: nat, problem: bool, reason: Reason)
      requires Valid()
      modifies `entries, `bytes
      ensures Valid() && Trimmed(old(View()), View()) && entries.Keys <= old(entries.Keys)
      ensures !problem ==>
              !NoRoom(limits, View(), granted) && (granted == size || (OVERHEAD < granted < size && flexible))
      ensures Frugal(limits, old(View()), View(), size)
      ensures !problem && granted < size ==> forall k :: !Idle(View(), k)
      ensures !problem ==>
                Fits(limits, Busy(old(View())), size, flexible) && granted == Grant(limits, Busy(old(View())), size)
      ensures problem && reason == Full ==>
                (forall k :: !Idle(View(), k)) && NoRoom(limits, View(), size) && !Elastic(limits, View(), flexible)
      ensures problem && reason == Full ==> !Fits(limits, Busy(old(View())), size, flexible)
      ensures problem && reason != Full ==>
                reason == Storage && exists k :: OldestIdle(View(), k) && entries[k] in stuck
    {
      hide Inv, Trimmed, Idle, OldestIdle, Below, Remove, Keyed, Busy, Frugal;
      NothingTrimmed(limits, View(), size);
      ghost var was := View();
      TrimStart(View());
      InvParts(limits, View());
      granted, problem, reason := size, false, Full;
      while NoRoom(limits, Pool(spools, entries, handles, bytes, readers, closed), granted)
        invariant Valid() && Trimmed(old(View()), View()) && entries.Keys <= old(entries.Keys) && granted == size
        invariant Frugal(limits, old(View()), View(), size)
        decreases |entries|
      {
        InvParts(limits, View());
        var key, found := Oldest();
        if !found {
          NothingIdle(limits, was, View(), size, flexible);
          if flexible && |entries| < limits.maxEntries && limits.maxBytes - bytes > OVERHEAD {
            granted := limits.maxBytes - bytes;
            return;
          }
          problem := true;
          return;
        }
        OldestIsIdle(View(), key);
        if entries[key] in stuck {
          problem, reason := true, Storage;
          return;
        }
        TrimNext(old(View()), View(), key);
        FrugalNext(limits, was, View(), key, size);
        RemoveKeepsInv(limits, View(), entries[key], true);
        FewerEntries(View(), entries[key]);
        RemoveLocked(entries[key], true);
      }
      RoomFound(limits, was, View(), size);
    }

    /** `acquireKey`: `opens` is whether the file can be opened or created, `stuck` the files that cannot be removed. */
    method AcquireKey(key: string, size: int, flexible: bool, onlyExisting: bool, stuck: set<nat>, opens: bool)
      returns (r: Acquired, ghost trimmed: Pool)
      requires Valid()
      modifies this
      ensures Valid() <==> (Reuses(limits, old(View()), key, size, flexible, onlyExisting) ==>
                              SafeReopen(old(View()), old(entries)[key], opens, old(entries)[key] !in stuck))
      ensures Reuses(limits, old(View()), key, size, flexible, onlyExisting) ==>
                var id := old(entries)[key];
                && View() == Reopen(old(View()), id, flexible, old(nextReader), opens, id !in stuck)
                && r == if opens then Opened(old(nextReader), true) else Refused(Storage)
      ensures !Reuses(limits, old(View()), key, size, flexible, onlyExisting) ==>
                && Trimmed(old(View()), trimmed)
                && Frugal(limits, old(View()), trimmed, Wanted(limits, size, flexible))
                && (r.Opened? ==>
                      var granted := Grant(limits, Busy(old(View())), Wanted(limits, size, flexible));
                      && r == Opened(old(nextReader), false) && key !in old(entries) && !onlyExisting
                      && 0 <= granted <= size && (granted < size ==> flexible && granted > OVERHEAD)
                      && View() == Create(trimmed, old(nextSpool), key, granted, flexible, r.reader))
                && (!r.Opened? ==> View() == trimmed)
      ensures r == Refused(PoolClosed) <==> old(closed)
      ensures r == Refused(TooLarge) <==> !old(closed) && !flexible && size > limits.maxBytes
      ensures r.Absent? <==>
                && !Barred(limits, old(View()), size, flexible) && onlyExisting
                && (key !in old(entries) || !old(spools)[old(entries)[key]].transient)
      ensures !Reuses(limits, old(View()), key, size, flexible, onlyExisting) ==>
                (trimmed != old(View()) || r.Opened? ==> Asks(limits, old(View()), key, size, flexible, onlyExisting))
      ensures Asks(limits, old(View()), key, size, flexible, onlyExisting) ==>
                var fits := Fits(limits, Busy(old(View())), Wanted(limits, size, flexible), flexible);
                && (r.Opened? ==> opens && fits) && (r == Refused(Full) ==> !fits)
                && (!r.Opened? && r != Refused(Full) ==> r == Refused(Storage))
                && (opens && r == Refused(Storage) ==>
                      exists k :: OldestIdle(trimmed, k) && trimmed.entries[k] in stuck)
                && (NoneStuck(old(View()), stuck) ==> (r.Opened? <==> opens && fits))
    {
      hide Inv, Trimmed, Create, Reopen, Busy, NoRoom, Elastic, OldestIdle, Idle, Frugal;
      NothingTrimmed(limits, View(), Wanted(limits, size, flexible));
      trimmed := View();
      TrimStart(View());
      InvParts(limits, View());
      if closed {
        return Refused(PoolClosed), trimmed;
      }
      if !flexible && size > limits.maxBytes {
        return Refused(TooLarge), trimmed;
      }
      if size < 0 || readers >= limits.maxReaders {
        return Refused(Full), trimmed;
      }
      if (key !in entries || !spools[entries[key]].transient) && onlyExisting {
        return Absent, trimmed;
      }
      var wanted := if flexible && size > limits.maxBytes then limits.maxBytes else size;
      if key !in entries && flexible && wanted <= OVERHEAD {
        return Refused(Full), trimmed;
      }
      if key in entries && (!spools[entries[key]].ready || (!flexible && spools[entries[key]].size != wanted)) {
        return Refused(Full), trimmed;
      }
      if key !in entries {
        var granted, problem, reason := MakeRoom(wanted, flexible, stuck);
        trimmed := View();
        if problem {
          if NoneStuck(old(View()), stuck) {
            NoneStuckLeft(old(View()), trimmed, stuck);
          }
          return Refused(reason), trimmed;
        }
        if !opens {
          return Refused(Storage), trimmed;
        }
        var reader := CreateEntry(key, granted, flexible);
        return Opened(reader, false), trimmed;
      }
      r := ReopenEntry(entries[key], flexible, opens, entries[key] !in stuck);
    }

    method CreateEntry(key: string, size: nat, transient: bool) returns (reader: nat)
      requires Valid() && !closed && key !in entries && readers < limits.maxReaders
      requires !NoRoom(limits, View(), size)
      modifies this
      ensures Valid() && reader == old(nextReader)
      ensures View() == Create(old(View()), old(nextSpool), key, size, transient, reader)
    {
      hide Inv, Add, Attach, Below, Create, NoRoom;
      CreateReady(limits, View(), nextSpool, key, size, transient, nextReader);
      var id := AddEntry(key, size, transient);
      reader := AddReader(id);
    }

    method AddEntry(key: string, size: nat, transient: bool) returns (id: nat)
      modifies `spools, `entries, `bytes, `nextSpool
      ensures id == old(nextSpool) && nextSpool == id + 1 && spools.Keys == old(spools.Keys) + {id}
      ensures View() == Add(old(View()), id, key, size, transient)
    {
      id := nextSpool;
      nextSpool := nextSpool + 1;
      spools := spools[id := Spool(key, size, false, transient, 0, {})];
      entries := entries[key := id];
      bytes := bytes + size;
    }

    method ReopenEntry(id: nat, transient: bool, opens: bool, removable: bool) returns (r: Acquired)
      requires Valid() && !closed && Live(View(), id) && readers < limits.maxReaders
      modifies this
      ensures Valid() <==> SafeReopen(old(View()), id, opens, removable)
      ensures View() == Reopen(old(View()), id, transient, old(nextReader), opens, removable)
      ensures r == if opens then Opened(old(nextReader), true) else Refused(Storage)
    {
      hide Inv, Below;
      BelowNext(handles.Keys, nextReader);
      ReopenSoundIff(limits, View(), id, transient, nextReader, opens, removable);
      spools := spools[id := spools[id].(transient := transient)];
      assert spools.Keys == old(spools.Keys);
      if opens {
        var reader := AddReader(id);
        return Opened(reader, true);
      }
      spools := spools[id := spools[id].(ready := false)];
      assert spools.Keys == old(spools.Keys);
      RemoveLocked(id, removable);
      return Refused(Storage);
    }

    method Verified(reader: nat) returns (ok: bool)
      requires Valid() && reader in handles
      modifies `spools
      ensures Valid() && View() == Verify(old(View()), reader) && ok == !(closed || handles[reader].closed)
    {
      hide Accounted, Bounded;
      var id := handles[reader].spool;
      ok := !closed && !handles[reader].closed;
      if ok {
        FlagsKeepInv(limits, View(), id, spools[id].(ready := true));
        spools := spools[id := spools[id].(ready := true)];
      }
    }

    method DiscardKey(key: string, removable: bool)
      requires Valid()
      modifies `spools, `entries, `bytes
      ensures Valid() && View() == if key in old(entries) then Discard(old(View()), old(entries)[key], removable)
              else old(View())
    {
      hide Inv, Linked;
      if key in entries {
        var id := entries[key];
        InvParts(limits, View());
        DiscardKeepsInv(limits, View(), id, removable);
        spools := spools[id := spools[id].(ready := false)];
        if spools[id].readers == {} {
          RemoveLocked(id, removable);
        }
      }
    }

    method Release(reader: nat, now: int, removable: bool)
      requires Valid() && reader in handles
      modifies `spools, `entries, `bytes, `handles, `readers
      ensures Valid() && View() == CloseReader(old(View()), reader, now, removable)
    {
      hide Inv, Detach;
      InvParts(limits, View());
      CloseReaderKeepsInv(limits, View(), reader, now, removable);
      if handles[reader].closed {
        return;
      }
      var id := handles[reader].spool;
      DetachReader(reader);
      if spools[id].readers == {} {
        if !spools[id].ready || closed {
          RemoveLocked(id, removable);
        } else {
          spools := spools[id := spools[id].(idleAt := now)];
        }
      }
    }

    method DetachReader(reader: nat)
      requires reader in handles && handles[reader].spool in spools
      modifies `spools, `handles, `readers
      ensures View() == Detach(old(View()), reader) && spools.Keys == old(spools.Keys)
      ensures handles.Keys == old(handles.Keys)
    {
      var id := handles[reader].spool;
      handles := handles[reader := handles[reader].(closed := true)];
      spools := spools[id := spools[id].(readers := spools[id].readers - {reader})];
      readers := readers - 1;
    }

    /** The idle timer set for a spool fires; the spool may have been replaced or taken up again meanwhile. */
    method TimerFires(id: nat, due: bool, removable: bool)
      requires Valid() && id in spools
      modifies `entries, `bytes
      ensures Valid() && View() == Expire(old(View()), id, due, removable)
    {
      hide Accounted;
      var key := spools[id].key;
      if key in entries && entries[key] == id && spools[id].readers == {} && due {
        RemoveKeepsInv(limits, View(), id, removable);
        RemoveLocked(id, removable);
      }
    }

    /** The end of a transient download of `n` bytes, which its cap kept within the reservation. */
    method Publish(reader: nat, n: nat) returns (ok: bool)
      requires Valid() && reader in handles
      requires (!handles[reader].closed ==> n + OVERHEAD <= spools[handles[reader].spool].size)
      requires !closed ==> !handles[reader].closed
      modifies `spools, `bytes
      ensures Valid() && ok == !closed
      ensures View() == if ok then Shrink(old(View()), handles[reader].spool, n) else old(View())
    {
      hide Accounted;
      ok := !closed;
      if ok {
        var id := handles[reader].spool;
        ShrinkKeepsInv(limits, View(), id, n);
        bytes := bytes - (spools[id].size - n);
        spools := spools[id := spools[id].(size := n, ready := true)];
      }
    }

    /** One entry at shutdown: its readers are closed, then its file is removed. */
    method CloseEntry(key: string, stuck: set<nat>)
      requires key in entries && Inv(limits, Books())
      modifies `spools, `entries, `bytes, `handles, `readers
      ensures Inv(limits, Books()) && spools.Keys == old(spools.Keys)
      ensures handles == ClosedFor(old(handles), old(entries)[key])
      ensures entries == if old(entries)[key] in stuck then old(entries) else old(entries) - {key}
    {
      hide Inv, Linked, Detach, Remove, ClosingFor, ClosedFor;
      var id := entries[key];
      InvParts(limits, Books());
      NoneClosed(View(), id);
      while spools[id].readers != {}
        invariant Inv(limits, Books()) && id in spools && spools[id].key == key && spools.Keys == old(spools.Keys)
        invariant entries == old(entries) && ClosingFor(old(handles), handles, id)
        decreases spools[id].readers
      {
        var reader :| reader in spools[id].readers;
        OpenReader(limits, Books(), id, reader);
        DetachKeepsInv(limits, Books(), reader);
        ClosingForNext(old(View()), View(), id, reader);
        DetachReader(reader);
      }
      AllOfSpoolClosed(limits, old(handles), Books(), id);
      RemoveKeepsInv(limits, Books(), id, id !in stuck);
      RemoveEffect(View(), id, id !in stuck);
      RemoveLocked(id, id !in stuck);
    }

    /** The pool's books while it shuts down. */
    ghost function Books(): Pool
      reads this
    {
      View().(closed := false)
    }

    /** Shuts the pool: every reader is closed, and every file that can be removed goes with its charge. */
    method Close(stuck: set<nat>)
      requires Valid()
      modifies `spools, `entries, `bytes, `handles, `readers, `closed
      ensures Valid() && closed && readers == 0
      ensures entries == map k | k in old(entries) && old(entries)[k] in stuck :: old(entries)[k]
      ensures handles.Keys == old(handles.Keys)
      ensures forall r :: r in handles ==> handles[r] == old(handles)[r].(closed := true)
    {
      hide Inv, ClosedFor, Below;
      OpenInv(limits, View());
      ClosingStart(View(), stuck);
      closed := true;
      var todo := entries.Keys;
      while todo != {}
        invariant todo <= entries.Keys && closed && spools.Keys == old(spools.Keys)
        invariant Inv(limits, Books()) && Closing(old(View()), Books(), todo, stuck)
      {
        var key :| key in todo;
        ghost var before := Books();
        InvParts(limits, before);
        CloseEntry(key, stuck);
        ClosingNext(old(View()), before, Books(), todo, stuck, key);
        todo := todo - {key};
      }
      AllClosed(old(View()), limits, Books(), stuck);
    }
  }

  // ----- shutdown -----

  function ClosedFor(handles: map<nat, Handle>, id: nat): map<nat, Handle> {
    map r | r in handles :: if handles[r].spool == id then handles[r].(closed := true) else handles[r]
  }

  /** Some readers of one spool have been closed. */
  predicate ClosingFor(was: map<nat, Handle>, now: map<nat, Handle>, id: nat) {
    && now.Keys == was.Keys
    && (forall r :: r in was ==> now[r] == was[r] || (was[r].spool == id && now[r] == was[r].(closed := true)))
  }

  lemma NoneClosed(p: Pool, id: nat)
    ensures ClosingFor(p.handles, p.handles, id)
  {
  }

  lemma OpenReader(l: Limits, p: Pool, id: nat, reader: nat)
    requires Inv(l, p) && id in p.spools && reader in p.spools[id].readers
    ensures reader in p.handles && !p.handles[reader].closed && p.handles[reader].spool == id
  {
    hide Accounted;
  }

  lemma ClosingForNext(was: Pool, p: Pool, id: nat, reader: nat)
    requires id in p.spools && reader in p.handles && p.handles[reader].spool == id
    requires ClosingFor(was.handles, p.handles, id)
    ensures var q := Detach(p, reader);
            && ClosingFor(was.handles, q.handles, id) && q.entries == p.entries
            && q.spools.Keys == p.spools.Keys && q.spools[id].readers == p.spools[id].readers - {reader}
            && q.spools[id].key == p.spools[id].key
            && Detach(p.(closed := false), reader) == q.(closed := false)
  {
  }

  lemma RemoveEffect(p: Pool, id: nat, removable: bool)
    requires id in p.spools
    ensures var q := Remove(p, id, removable);
            && q.spools == p.spools && q.handles == p.handles
            && q.entries == (if removable then p.entries - {p.spools[id].key} else p.entries)
            && Remove(p.(closed := false), id, removable) == q.(closed := false)
  {
  }

  lemma AllOfSpoolClosed(l: Limits, was: map<nat, Handle>, p: Pool, id: nat)
    requires Inv(l, p) && ClosingFor(was, p.handles, id) && id in p.spools && p.spools[id].readers == {}
    ensures p.handles == ClosedFor(was, id)
  {
    hide Accounted;
  }

  /** What shutdown has done when `todo` is still to be closed. */
  ghost predicate Closing(p: Pool, q: Pool, todo: set<string>, stuck: set<nat>) {
    && q.handles.Keys == p.handles.Keys
    && (forall r :: r in p.handles ==>
          && p.handles[r].spool in p.spools
          && (q.handles[r] == p.handles[r].(closed := true)
              || (q.handles[r] == p.handles[r] && p.spools[p.handles[r].spool].key in todo)))
    && q.entries == (map k | k in p.entries && (k in todo || p.entries[k] in stuck) :: p.entries[k])
  }

  lemma ClosingStart(p: Pool, stuck: set<nat>)
    requires Linked(p)
    ensures Closing(p, p.(closed := false), p.entries.Keys, stuck)
  {
  }

  lemma ClosingNext(p: Pool, before: Pool, after: Pool, todo: set<string>, stuck: set<nat>, key: string)
    requires Linked(p) && Closing(p, before, todo, stuck) && key in todo && todo <= before.entries.Keys
    requires after.handles == ClosedFor(before.handles, before.entries[key])
    requires after.entries == if before.entries[key] in stuck then before.entries else before.entries - {key}
    ensures Closing(p, after, todo - {key}, stuck)
  {
    forall r | r in p.handles && !after.handles[r].closed ensures p.spools[p.handles[r].spool].key in todo - {key} {
      assert before.handles[r] == p.handles[r] && Live(p, p.handles[r].spool);
    }
  }

  lemma OpenInv(l: Limits, p: Pool)
    requires Inv(l, p)
    ensures Inv(l, p.(closed := false)) && Linked(p) && Keyed(p)
  {
    hide Total, Sizes, Counts;
    FlagMaps(p, false);
    assert forall i :: Live(p.(closed := false), i) <==> Live(p, i);
  }

  lemma AllClosed(p: Pool, l: Limits, q: Pool, stuck: set<nat>)
    requires Inv(l, q) && Closing(p, q, {}, stuck)
    ensures Inv(l, q.(closed := true)) && q.readers == 0
    ensures forall r :: r in q.handles ==> q.handles[r] == p.handles[r].(closed := true)
  {
    hide Total;
    ShutdownKeepsInv(l, q);
    forall k | k in Counts(q) ensures Counts(q)[k] == 0 {
      var open := set r | r in q.handles && !q.handles[r].closed;
      assert open == {} && q.spools[q.entries[k]].readers <= open;
    }
    ZeroTotal(Counts(q));
  }

  lemma {:induction false} ZeroTotal<K>(m: map<K, nat>)
    requires forall k :: k in m ==> m[k] == 0
    ensures Total(m) == 0
    decreases |m|
  {
    if m != map[] {
      var k :| k in m;
      TotalRemove(m, k);
      ZeroTotal(m - {k});
    }
  }

  lemma TrimStart(p: Pool)
    ensures Trimmed(p, p)
  {
  }

  lemma InvParts(l: Limits, p: Pool)
    requires Inv(l, p)
    ensures Keyed(p) && Linked(p) && Bounded(l, p)
  {
  }

  lemma OldestIsIdle(p: Pool, key: string)
    requires Keyed(p) && OldestIdle(p, key)
    ensures key in p.entries && Live(p, p.entries[key]) && p.spools[p.entries[key]].readers == {}
  {
  }

  lemma FewerEntries(p: Pool, id: nat)
    requires Live(p, id)
    ensures |Remove(p, id, true).entries| < |p.entries|
  {
    assert Remove(p, id, true).entries.Keys == p.entries.Keys - {p.spools[id].key};
  }
}
