/**
 The verified spool pool: files charged against a byte budget, shared by reference-counted readers.
 Spool objects and readers have identities, because a reader keeps its spool when the table forgets it.
 */
module Spools {
  import opened Sums

  datatype Spool = Spool(key: string, size: nat, ready: bool, transient: bool, idleAt: int, readers: set<nat>)

  datatype Handle = Handle(spool: nat, closed: bool)

  datatype Limits = Limits(maxBytes: nat, maxReaders: nat, maxEntries: nat)

  datatype Pool = Pool(spools: map<nat, Spool>, entries: map<string, nat>, handles: map<nat, Handle>,
                       bytes: int, readers: int, closed: bool)

  /** The bytes an encrypted transfer needs beyond its plaintext. */
  const OVERHEAD: nat := 26

  // ----- operations, each one critical section or one round of its loop -----

  /** `removeLocked`; a file that cannot be removed keeps its entry and its charge. */
  function Remove(p: Pool, id: nat, removable: bool): Pool
    requires id in p.spools
  {
    if removable then p.(entries := p.entries - {p.spools[id].key}, bytes := p.bytes - p.spools[id].size) else p
  }

  function Update(p: Pool, id: nat, s: Spool): Pool {
    p.(spools := p.spools[id := s])
  }

  function Attach(p: Pool, id: nat, reader: nat): Pool
    requires id in p.spools
  {
    var s := p.spools[id];
    Update(p, id, s.(readers := s.readers + {reader})).(handles := p.handles[reader := Handle(id, false)],
                                                        readers := p.readers + 1)
  }

  function Add(p: Pool, id: nat, key: string, size: nat, transient: bool): Pool {
    Update(p, id, Spool(key, size, false, transient, 0, {})).(entries := p.entries[key := id], bytes := p.bytes + size)
  }

  function Create(p: Pool, id: nat, key: string, size: nat, transient: bool, reader: nat): Pool {
    Attach(Add(p, id, key, size, transient), id, reader)
  }

  /** A ready spool opened again; when that fails its entry goes, whoever still reads it. */
  function Reopen(p: Pool, id: nat, transient: bool, reader: nat, opens: bool, removable: bool): Pool
    requires id in p.spools
  {
    var q := Update(p, id, p.spools[id].(transient := transient));
    if opens then Attach(q, id, reader)
    else Remove(Update(q, id, q.spools[id].(ready := false)), id, removable)
  }

  function Verify(p: Pool, reader: nat): Pool
    requires reader in p.handles && p.handles[reader].spool in p.spools
  {
    var h := p.handles[reader];
    if p.closed || h.closed then p else Update(p, h.spool, p.spools[h.spool].(ready := true))
  }

  function Discard(p: Pool, id: nat, removable: bool): Pool
    requires id in p.spools
  {
    var q := Update(p, id, p.spools[id].(ready := false));
    if p.spools[id].readers == {} then Remove(q, id, removable) else q
  }

  function Detach(p: Pool, reader: nat): Pool
    requires reader in p.handles && p.handles[reader].spool in p.spools
  {
    var h := p.handles[reader];
    var s := p.spools[h.spool];
    Update(p, h.spool, s.(readers := s.readers - {reader}))
      .(handles := p.handles[reader := h.(closed := true)], readers := p.readers - 1)
  }

  /** A reader's `Close`. */
  function CloseReader(p: Pool, reader: nat, now: int, removable: bool): Pool
    requires reader in p.handles && p.handles[reader].spool in p.spools
  {
    var id := p.handles[reader].spool;
    if p.handles[reader].closed then p
    else
      var q := Detach(p, reader);
      if q.spools[id].readers != {} then q
      else if !q.spools[id].ready || q.closed then Remove(q, id, removable)
      else Update(q, id, q.spools[id].(idleAt := now))
  }

  predicate Live(p: Pool, id: nat) {
    id in p.spools && p.spools[id].key in p.entries && p.entries[p.spools[id].key] == id
  }

  /** The idle timer's callback; `due` is whether the entry has been idle long enough by now. */
  function Expire(p: Pool, id: nat, due: bool, removable: bool): Pool
    requires id in p.spools
  {
    if Live(p, id) && p.spools[id].readers == {} && due then Remove(p, id, removable) else p
  }

  /** A transient download that turned out to hold `n` bytes gives back the rest. */
  function Shrink(p: Pool, id: nat, n: nat): Pool
    requires id in p.spools
  {
    Update(p, id, p.spools[id].(size := n, ready := true)).(bytes := p.bytes - (p.spools[id].size - n))
  }

  // ----- what must hold -----

  function Sizes(p: Pool): map<string, nat> {
    map k | k in p.entries && p.entries[k] in p.spools :: p.spools[p.entries[k]].size
  }

  function Counts(p: Pool): map<string, nat> {
    map k | k in p.entries && p.entries[k] in p.spools :: |p.spools[p.entries[k]].readers|
  }

  predicate Keyed(p: Pool) {
    forall k :: k in p.entries ==> p.entries[k] in p.spools && p.spools[p.entries[k]].key == k
  }

  /** Open readers are exactly those their spool lists, and their spool is still in the table. */
  predicate Linked(p: Pool) {
    && (forall r :: r in p.handles ==>
          && p.handles[r].spool in p.spools
          && (!p.handles[r].closed <==> r in p.spools[p.handles[r].spool].readers)
          && (!p.handles[r].closed ==> Live(p, p.handles[r].spool)))
    && (forall id, r :: id in p.spools && r in p.spools[id].readers ==> r in p.handles && p.handles[r].spool == id)
    && (p.closed ==> forall r :: r in p.handles ==> p.handles[r].closed)
  }

  /** The pool's counters are the sums over its entries. */
  ghost predicate Accounted(p: Pool) {
    p.bytes == Total(Sizes(p)) && p.readers == Total(Counts(p))
  }

  predicate Bounded(l: Limits, p: Pool) {
    p.bytes <= l.maxBytes && p.readers <= l.maxReaders && |p.entries| <= l.maxEntries
  }

  ghost predicate Inv(l: Limits, p: Pool) {
    Keyed(p) && Linked(p) && Accounted(p) && Bounded(l, p)
  }

  // ----- single updates -----

  lemma RemoveAccounts(p: Pool, id: nat)
    requires Keyed(p) && Accounted(p) && Live(p, id) && p.spools[id].readers == {}
    ensures var q := Remove(p, id, true);
            Keyed(q) && Accounted(q) && q.bytes <= p.bytes && q.readers == p.readers && |q.entries| < |p.entries|
  {
    hide Total;
    var q, k := Remove(p, id, true), p.spools[id].key;
    TotalRemove(Sizes(p), k);
    TotalRemove(Counts(p), k);
    assert Sizes(q) == Sizes(p) - {k} && Counts(q) == Counts(p) - {k};
    assert q.entries.Keys == p.entries.Keys - {k};
  }

  /** Taking a spool that nobody reads out of the table keeps everything. */
  lemma RemoveKeepsInv(l: Limits, p: Pool, id: nat, removable: bool)
    requires Inv(l, p) && Live(p, id) && p.spools[id].readers == {}
    ensures Inv(l, Remove(p, id, removable))
  {
    hide Accounted;
    if removable {
      RemoveAccounts(p, id);
      var q, k := Remove(p, id, true), p.spools[id].key;
      forall r | r in q.handles && !q.handles[r].closed ensures Live(q, q.handles[r].spool) {
        assert r in p.spools[p.handles[r].spool].readers;
      }
    }
  }

  lemma SameMaps(p: Pool, id: nat, s: Spool)
    requires Keyed(p) && id in p.spools
    requires s == p.spools[id].(ready := s.ready, transient := s.transient, idleAt := s.idleAt)
    ensures Keyed(Update(p, id, s)) && Sizes(Update(p, id, s)) == Sizes(p) && Counts(Update(p, id, s)) == Counts(p)
  {
  }

  lemma SameLinks(p: Pool, id: nat, s: Spool)
    requires Linked(p) && id in p.spools
    requires s == p.spools[id].(ready := s.ready, transient := s.transient, idleAt := s.idleAt)
    ensures Linked(Update(p, id, s))
  {
    var q := Update(p, id, s);
    assert forall i :: i in p.spools ==> q.spools[i].readers == p.spools[i].readers && (Live(q, i) <==> Live(p, i));
  }

  /** A change to a spool's flags. */
  lemma FlagsKeepInv(l: Limits, p: Pool, id: nat, s: Spool)
    requires Inv(l, p) && id in p.spools
    requires s == p.spools[id].(ready := s.ready, transient := s.transient, idleAt := s.idleAt)
    ensures Inv(l, Update(p, id, s))
  {
    hide Total, Sizes, Counts, Linked, Keyed;
    SameMaps(p, id, s);
    SameLinks(p, id, s);
  }

  lemma AttachAccounts(p: Pool, id: nat, reader: nat)
    requires Keyed(p) && Accounted(p) && Live(p, id) && reader !in p.spools[id].readers
    ensures Accounted(Attach(p, id, reader)) && Keyed(Attach(p, id, reader))
  {
    hide Total;
    var q, k := Attach(p, id, reader), p.spools[id].key;
    assert Keyed(q);
    assert Sizes(q) == Sizes(p);
    assert Counts(q) == Counts(p)[k := |p.spools[id].readers| + 1];
    TotalUpdate(Counts(p), k, |p.spools[id].readers| + 1);
  }

  lemma AttachKeepsInv(l: Limits, p: Pool, id: nat, reader: nat)
    requires Inv(l, p) && Live(p, id) && reader !in p.handles && p.readers < l.maxReaders && !p.closed
    ensures Inv(l, Attach(p, id, reader))
  {
    hide Accounted;
    AttachAccounts(p, id, reader);
    var q := Attach(p, id, reader);
    assert forall i :: Live(q, i) <==> Live(p, i);
  }

  lemma DetachAccounts(p: Pool, reader: nat)
    requires Keyed(p) && Accounted(p) && reader in p.handles && Live(p, p.handles[reader].spool)
    requires reader in p.spools[p.handles[reader].spool].readers
    ensures Accounted(Detach(p, reader)) && Keyed(Detach(p, reader))
  {
    hide Total;
    var id := p.handles[reader].spool;
    var q, k, rest := Detach(p, reader), p.spools[id].key, p.spools[id].readers - {reader};
    assert p.spools[id].readers == rest + {reader};
    assert Keyed(q);
    assert Sizes(q) == Sizes(p);
    assert Counts(q) == Counts(p)[k := |rest|];
    TotalUpdate(Counts(p), k, |rest|);
  }

  lemma DetachKeepsInv(l: Limits, p: Pool, reader: nat)
    requires Inv(l, p) && reader in p.handles && !p.handles[reader].closed
    ensures Inv(l, Detach(p, reader)) && Live(Detach(p, reader), p.handles[reader].spool)
  {
    hide Accounted;
    DetachAccounts(p, reader);
    var q := Detach(p, reader);
    assert forall i :: Live(q, i) <==> Live(p, i);
  }

  lemma AddMaps(p: Pool, id: nat, key: string, size: nat, transient: bool)
    requires Keyed(p) && id !in p.spools && key !in p.entries
    ensures var q := Add(p, id, key, size, transient);
            && Keyed(q) && |q.entries| == |p.entries| + 1 && key !in Sizes(p) && key !in Counts(p)
            && Sizes(q) == Sizes(p)[key := size] && Counts(q) == Counts(p)[key := 0]
  {
    hide Sizes, Counts;
    var q := Add(p, id, key, size, transient);
    AddSizes(p, id, key, size, transient);
    AddCounts(p, id, key, size, transient);
    assert q.entries.Keys == p.entries.Keys + {key};
  }

  lemma AddSizes(p: Pool, id: nat, key: string, size: nat, transient: bool)
    requires Keyed(p) && id !in p.spools && key !in p.entries
    ensures key !in Sizes(p) && Sizes(Add(p, id, key, size, transient)) == Sizes(p)[key := size]
  {
  }

  lemma AddCounts(p: Pool, id: nat, key: string, size: nat, transient: bool)
    requires Keyed(p) && id !in p.spools && key !in p.entries
    ensures key !in Counts(p) && Counts(Add(p, id, key, size, transient)) == Counts(p)[key := 0]
  {
    var q := Add(p, id, key, size, transient);
    assert |q.spools[id].readers| == 0;
  }

  lemma AddKeepsInv(l: Limits, p: Pool, id: nat, key: string, size: nat, transient: bool)
    requires Inv(l, p) && id !in p.spools && key !in p.entries
    requires |p.entries| < l.maxEntries && size <= l.maxBytes - p.bytes
    ensures Inv(l, Add(p, id, key, size, transient))
  {
    hide Total, Sizes, Counts;
    AddMaps(p, id, key, size, transient);
    TotalInsert(Sizes(p), key, size);
    TotalInsert(Counts(p), key, 0);
    AddLinks(p, id, key, size, transient);
  }

  lemma AddLinks(p: Pool, id: nat, key: string, size: nat, transient: bool)
    requires Keyed(p) && Linked(p) && id !in p.spools && key !in p.entries
    ensures Linked(Add(p, id, key, size, transient))
  {
    var q := Add(p, id, key, size, transient);
    assert forall i :: i != id ==> (Live(q, i) <==> Live(p, i));
  }

  lemma CreateKeepsInv(l: Limits, p: Pool, id: nat, key: string, size: nat, transient: bool, reader: nat)
    requires Inv(l, p) && id !in p.spools && key !in p.entries && reader !in p.handles && !p.closed
    requires p.readers < l.maxReaders && |p.entries| < l.maxEntries && size <= l.maxBytes - p.bytes
    ensures Inv(l, Create(p, id, key, size, transient, reader))
  {
    hide Inv, Attach;
    AddKeepsInv(l, p, id, key, size, transient);
    AttachKeepsInv(l, Add(p, id, key, size, transient), id, reader);
  }

  lemma ShrinkMaps(p: Pool, id: nat, n: nat)
    requires Keyed(p) && Live(p, id) && n <= p.spools[id].size
    ensures var q, k := Shrink(p, id, n), p.spools[id].key;
            && Keyed(q) && k in Sizes(p) && Sizes(p)[k] == p.spools[id].size
            && Sizes(q) == Sizes(p)[k := n] && Counts(q) == Counts(p)
  {
  }

  lemma ShrinkKeepsInv(l: Limits, p: Pool, id: nat, n: nat)
    requires Inv(l, p) && Live(p, id) && n <= p.spools[id].size
    ensures Inv(l, Shrink(p, id, n))
  {
    hide Total, Sizes, Counts;
    var q, k := Shrink(p, id, n), p.spools[id].key;
    ShrinkMaps(p, id, n);
    TotalUpdate(Sizes(p), k, n);
    assert forall i :: Live(q, i) <==> Live(p, i);
  }

  lemma CloseReaderKeepsInv(l: Limits, p: Pool, reader: nat, now: int, removable: bool)
    requires Inv(l, p) && reader in p.handles
    ensures Inv(l, CloseReader(p, reader, now, removable))
  {
    hide Accounted, Remove, Detach, Keyed;
    if !p.handles[reader].closed {
      DetachKeepsInv(l, p, reader);
      var q, id := Detach(p, reader), p.handles[reader].spool;
      if q.spools[id].readers == {} {
        if !q.spools[id].ready || q.closed {
          RemoveKeepsInv(l, q, id, removable);
        } else {
          FlagsKeepInv(l, q, id, q.spools[id].(idleAt := now));
        }
      }
    }
  }

  lemma DiscardKeepsInv(l: Limits, p: Pool, id: nat, removable: bool)
    requires Inv(l, p) && Live(p, id)
    ensures Inv(l, Discard(p, id, removable))
  {
    hide Accounted, Linked, Keyed, Remove;
    var s := p.spools[id].(ready := false);
    FlagsKeepInv(l, p, id, s);
    if s.readers == {} {
      RemoveKeepsInv(l, Update(p, id, s), id, removable);
    }
  }

  /** The reopen that keeps the pool sound: it succeeds, its file stays, or nobody else reads it. */
  predicate SafeReopen(p: Pool, id: nat, opens: bool, removable: bool)
    requires id in p.spools
  {
    opens || !removable || p.spools[id].readers == {}
  }

  lemma ReopenKeepsInv(l: Limits, p: Pool, id: nat, transient: bool, reader: nat, opens: bool, removable: bool)
    requires Inv(l, p) && Live(p, id) && reader !in p.handles && p.readers < l.maxReaders && !p.closed
    requires SafeReopen(p, id, opens, removable)
    ensures Inv(l, Reopen(p, id, transient, reader, opens, removable))
  {
    hide Accounted, Linked, Keyed, Attach;
    var s := p.spools[id].(transient := transient);
    FlagsKeepInv(l, p, id, s);
    var q := Update(p, id, s);
    if opens {
      AttachKeepsInv(l, q, id, reader);
    } else {
      FlagsKeepInv(l, q, id, s.(ready := false));
      if removable {
        RemoveKeepsInv(l, Update(q, id, s.(ready := false)), id, removable);
      }
    }
  }

  /** Exactly the unsafe reopen breaks the invariant: it forgets a spool that is still being read. */
  lemma ReopenSoundIff(l: Limits, p: Pool, id: nat, transient: bool, reader: nat, opens: bool, removable: bool)
    requires Inv(l, p) && Live(p, id) && reader !in p.handles && p.readers < l.maxReaders && !p.closed
    ensures Inv(l, Reopen(p, id, transient, reader, opens, removable)) <==> SafeReopen(p, id, opens, removable)
  {
    if SafeReopen(p, id, opens, removable) {
      ReopenKeepsInv(l, p, id, transient, reader, opens, removable);
    } else {
      var r :| r in p.spools[id].readers;
      var q := Reopen(p, id, transient, reader, opens, removable);
      assert r in q.handles && !q.handles[r].closed && !Live(q, q.handles[r].spool);
    }
  }

  /** After it, closing the last reader takes the spool's bytes off the total a second time. */
  lemma UnsafeReopenSubtractsTwice(l: Limits, p: Pool, id: nat, transient: bool, reader: nat, last: nat, now: int)
    requires Inv(l, p) && Live(p, id) && reader !in p.handles && p.spools[id].readers == {last} && p.spools[id].size > 0
    ensures var q := CloseReader(Reopen(p, id, transient, reader, false, true), last, now, true);
            q.bytes == Total(Sizes(q)) - p.spools[id].size && !Accounted(q)
  {
    hide Total;
    var k := p.spools[id].key;
    var q := CloseReader(Reopen(p, id, transient, reader, false, true), last, now, true);
    TotalRemove(Sizes(p), k);
    assert q.entries == p.entries - {k};
    assert Sizes(q) == Sizes(p) - {k};
  }

  // ----- runs -----

  datatype Event =
    | Acquire(id: nat, key: string, size: nat, transient: bool, reader: nat)
    | Evict(id: nat, removable: bool)
    | OpenAgain(id: nat, transient: bool, reader: nat, opens: bool, removable: bool)
    | Verified(reader: nat)
    | Discarded(key: string, removable: bool)
    | Closed(reader: nat, now: int, removable: bool)
    | Expired(id: nat, due: bool, removable: bool)
    | Shrunk(reader: nat, n: nat)
    | DetachForShutdown(reader: nat)
    | Shutdown

  predicate Enabled(l: Limits, p: Pool, e: Event) {
    match e
    case Acquire(id, key, size, _, reader) =>
      && !p.closed && id !in p.spools && reader !in p.handles && key !in p.entries
      && p.readers < l.maxReaders && |p.entries| < l.maxEntries && size <= l.maxBytes - p.bytes
    case Evict(id, _) => Live(p, id) && p.spools[id].readers == {}
    case OpenAgain(id, _, reader, opens, removable) =>
      && !p.closed && Live(p, id) && p.spools[id].ready && reader !in p.handles && p.readers < l.maxReaders
      && SafeReopen(p, id, opens, removable)
    case Verified(reader) => reader in p.handles
    case Discarded(key, _) => key in p.entries
    case Closed(reader, _, _) => reader in p.handles
    case Expired(id, _, _) => id in p.spools
    case Shrunk(reader, n) =>
      && !p.closed && reader in p.handles && !p.handles[reader].closed
      && p.handles[reader].spool in p.spools && n + OVERHEAD <= p.spools[p.handles[reader].spool].size
    case DetachForShutdown(reader) => reader in p.handles && !p.handles[reader].closed
    case Shutdown => forall r :: r in p.handles ==> p.handles[r].closed
  }

  function Next(l: Limits, p: Pool, e: Event): Pool
    requires Enabled(l, p, e) && Keyed(p) && Linked(p)
  {
    match e
    case Acquire(id, key, size, transient, reader) => Create(p, id, key, size, transient, reader)
    case Evict(id, removable) => Remove(p, id, removable)
    case OpenAgain(id, transient, reader, opens, removable) => Reopen(p, id, transient, reader, opens, removable)
    case Verified(reader) => Verify(p, reader)
    case Discarded(key, removable) => Discard(p, p.entries[key], removable)
    case Closed(reader, now, removable) => CloseReader(p, reader, now, removable)
    case Expired(id, due, removable) => Expire(p, id, due, removable)
    case Shrunk(reader, n) => Shrink(p, p.handles[reader].spool, n)
    case DetachForShutdown(reader) => Detach(p, reader)
    case Shutdown => p.(closed := true)
  }

  lemma ShutdownKeepsInv(l: Limits, p: Pool)
    requires Inv(l, p) && forall r :: r in p.handles ==> p.handles[r].closed
    ensures Inv(l, p.(closed := true))
  {
    hide Total, Sizes, Counts;
    var q := p.(closed := true);
    FlagMaps(p, true);
    assert forall i :: Live(q, i) <==> Live(p, i);
  }

  lemma FlagMaps(p: Pool, closed: bool)
    ensures Sizes(p.(closed := closed)) == Sizes(p) && Counts(p.(closed := closed)) == Counts(p)
  {
  }

  lemma EmptyInv(l: Limits)
    ensures Inv(l, EMPTY)
  {
    assert Sizes(EMPTY) == map[] && Counts(EMPTY) == map[];
  }

  lemma StepKeepsInv(l: Limits, p: Pool, e: Event)
    requires Inv(l, p) && Enabled(l, p, e)
    ensures Inv(l, Next(l, p, e))
  {
    hide Accounted, Remove, Create, Reopen, Discard, CloseReader, Shrink, Detach, Bounded;
    match e
    case Acquire(id, key, size, transient, reader) => StepCreates(l, p, id, key, size, transient, reader);
    case Evict(id, removable) => RemoveKeepsInv(l, p, id, removable);
    case OpenAgain(id, transient, reader, opens, removable) =>
      ReopenKeepsInv(l, p, id, transient, reader, opens, removable);
    case Verified(reader) =>
      if !p.closed && !p.handles[reader].closed {
        FlagsKeepInv(l, p, p.handles[reader].spool, p.spools[p.handles[reader].spool].(ready := true));
      }
    case Discarded(key, removable) => DiscardKeepsInv(l, p, p.entries[key], removable);
    case Closed(reader, now, removable) => CloseReaderKeepsInv(l, p, reader, now, removable);
    case Expired(id, due, removable) =>
      if Live(p, id) && p.spools[id].readers == {} && due {
        RemoveKeepsInv(l, p, id, removable);
      }
    case Shrunk(reader, n) => ShrinkKeepsInv(l, p, p.handles[reader].spool, n);
    case DetachForShutdown(reader) => DetachKeepsInv(l, p, reader);
    case Shutdown => ShutdownKeepsInv(l, p);
  }

  lemma StepCreates(l: Limits, p: Pool, id: nat, key: string, size: nat, transient: bool, reader: nat)
    requires Inv(l, p) && Enabled(l, p, Acquire(id, key, size, transient, reader))
    ensures Inv(l, Create(p, id, key, size, transient, reader))
  {
    hide Inv, Create;
    CreateKeepsInv(l, p, id, key, size, transient, reader);
  }

  ghost predicate Run(l: Limits, p: Pool, events: seq<Event>, end: Pool)
    decreases |events|
  {
    if events == [] then end == p
    else
      exists before ::
        && Run(l, p, events[..|events| - 1], before) && Keyed(before) && Linked(before)
        && Enabled(l, before, events[|events| - 1]) && end == Next(l, before, events[|events| - 1])
  }

  const EMPTY := Pool(map[], map[], map[], 0, 0, false)

  /** Over every run the pool charges exactly its entries and stays within all three bounds. */
  lemma {:induction false} RunKeepsAccounts(l: Limits, events: seq<Event>, end: Pool)
    requires Run(l, EMPTY, events, end)
    ensures Inv(l, end)
    decreases |events|
  {
    hide Next, Enabled, Inv, Keyed, Linked;
    if events == [] {
      EmptyInv(l);
    } else {
      var n := |events| - 1;
      var before :| Run(l, EMPTY, events[..n], before) && Keyed(before) && Linked(before)
                    && Enabled(l, before, events[n]) && end == Next(l, before, events[n]);
      RunKeepsAccounts(l, events[..n], before);
      StepKeepsInv(l, before, events[n]);
    }
  }

  // ----- nothing useless stays charged -----

  /** An entry that nobody reads can serve the next reader. */
  ghost predicate IdleReady(p: Pool) {
    forall id :: Live(p, id) && p.spools[id].readers == {} ==> p.spools[id].ready
  }

  /** Before shutdown, while files can be removed. */
  predicate Tidy(e: Event) {
    match e
    case Evict(_, removable) => removable
    case OpenAgain(_, _, _, _, removable) => removable
    case Discarded(_, removable) => removable
    case Closed(_, _, removable) => removable
    case Expired(_, _, removable) => removable
    case DetachForShutdown(_) => false
    case Shutdown => false
    case _ => true
  }

  lemma CloseKeepsIdleReady(p: Pool, reader: nat, now: int)
    requires Keyed(p) && Linked(p) && IdleReady(p) && reader in p.handles
    ensures IdleReady(CloseReader(p, reader, now, true))
  {
    var q := CloseReader(p, reader, now, true);
    forall id | Live(q, id) && q.spools[id].readers == {} ensures q.spools[id].ready {
      assert Live(p, id);
    }
  }

  lemma OpenKeepsIdleReady(p: Pool, id: nat, transient: bool, reader: nat, opens: bool)
    requires Keyed(p) && IdleReady(p) && Live(p, id)
    ensures IdleReady(Reopen(p, id, transient, reader, opens, true))
  {
    var q := Reopen(p, id, transient, reader, opens, true);
    forall i | Live(q, i) && q.spools[i].readers == {} ensures q.spools[i].ready {
      assert Live(p, i);
    }
  }

  lemma CreateKeepsIdleReady(p: Pool, id: nat, key: string, size: nat, transient: bool, reader: nat)
    requires Keyed(p) && IdleReady(p) && id !in p.spools && key !in p.entries
    ensures IdleReady(Create(p, id, key, size, transient, reader))
  {
    var q := Create(p, id, key, size, transient, reader);
    forall i | Live(q, i) && q.spools[i].readers == {} ensures q.spools[i].ready {
      assert i == id || Live(p, i);
    }
  }

  lemma StepKeepsIdleReady(l: Limits, p: Pool, e: Event)
    requires Keyed(p) && Linked(p) && IdleReady(p) && Enabled(l, p, e) && Tidy(e)
    ensures IdleReady(Next(l, p, e))
  {
    if e.Closed? {
      CloseKeepsIdleReady(p, e.reader, e.now);
    } else if e.OpenAgain? {
      OpenKeepsIdleReady(p, e.id, e.transient, e.reader, e.opens);
    } else if e.Acquire? {
      CreateKeepsIdleReady(p, e.id, e.key, e.size, e.transient, e.reader);
    } else {
      hide CloseReader, Reopen, Create;
      var q := Next(l, p, e);
      forall id | Live(q, id) && q.spools[id].readers == {} ensures q.spools[id].ready {
        assert Live(p, id);
      }
    }
  }

  /** A failed or discarded download stops being charged when its last reader leaves. */
  lemma {:induction false} IdleEntriesAreReady(l: Limits, events: seq<Event>, end: Pool)
    requires Run(l, EMPTY, events, end) && forall i :: 0 <= i < |events| ==> Tidy(events[i])
    ensures IdleReady(end)
    decreases |events|
  {
    hide Next, Enabled, Inv, Keyed, Linked, Tidy;
    if events != [] {
      var n := |events| - 1;
      var before :| Run(l, EMPTY, events[..n], before) && Keyed(before) && Linked(before)
                    && Enabled(l, before, events[n]) && end == Next(l, before, events[n]);
      IdleEntriesAreReady(l, events[..n], before);
      StepKeepsIdleReady(l, before, events[n]);
    }
  }
}
