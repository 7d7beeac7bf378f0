/**
 The local media cache under a quota: files, reservations of running transfers, and everything that can
 happen to them while an admission holds the accounting lease.
 */
module MediaQuota {
  import opened Sums

  datatype File = File(bytes: nat, at: int, kind: string)

  datatype Reservation = Reservation(path: string, bytes: nat, finished: bool)

  datatype Cache = Cache(files: map<string, File>, reservations: map<nat, Reservation>)

  predicate Running(c: Cache, id: nat) {
    id in c.reservations && !c.reservations[id].finished
  }

  function ActivePaths(c: Cache): set<string> {
    set id | id in c.reservations && !c.reservations[id].finished :: c.reservations[id].path
  }

  /** Bytes of files that no running transfer owns. */
  function Outside(c: Cache): map<string, nat> {
    map p | p in c.files && p !in ActivePaths(c) :: c.files[p].bytes
  }

  /** Bytes that running transfers may still publish. */
  function Held(c: Cache): map<nat, nat> {
    map id | id in c.reservations && !c.reservations[id].finished :: c.reservations[id].bytes
  }

  ghost function Charge(c: Cache): nat {
    Total(Outside(c)) + Total(Held(c))
  }

  function Sizes(c: Cache): map<string, nat> {
    map p | p in c.files :: c.files[p].bytes
  }

  ghost function Published(c: Cache): nat {
    Total(Sizes(c))
  }

  /** One running transfer per path, and what it published is within its reservation. */
  ghost predicate Good(c: Cache) {
    && (forall i, j :: Running(c, i) && Running(c, j) && c.reservations[i].path == c.reservations[j].path ==> i == j)
    && (forall i :: Running(c, i) && c.reservations[i].path in c.files ==>
          c.files[c.reservations[i].path].bytes <= c.reservations[i].bytes)
  }

  /** What other goroutines do without the lease; `Publish` is the capped writer's rename. */
  datatype Action =
    | Publish(id: nat, file: File)
    | Finish(id: nat)
    | Remove(path: string)

  predicate Can(c: Cache, a: Action) {
    match a
    case Publish(id, file) =>
      Running(c, id) && file.bytes <= c.reservations[id].bytes && c.reservations[id].path !in c.files
    case Finish(id) => Running(c, id)
    case Remove(path) => path in c.files
  }

  function Do(c: Cache, a: Action): Cache {
    if !Can(c, a) then c
    else
      match a
      case Publish(id, file) => c.(files := c.files[c.reservations[id].path := file])
      case Finish(id) => c.(reservations := c.reservations[id := c.reservations[id].(finished := true)])
      case Remove(path) => c.(files := c.files - {path})
  }

  function DoAll(c: Cache, actions: seq<Action>): Cache {
    if actions == [] then c else Do(DoAll(c, actions[..|actions| - 1]), actions[|actions| - 1])
  }

  // ----- one action -----

  lemma PublishCharge(c: Cache, id: nat, file: File)
    requires Good(c) && Can(c, Publish(id, file))
    ensures Good(Do(c, Publish(id, file))) && Charge(Do(c, Publish(id, file))) == Charge(c)
    ensures Outside(Do(c, Publish(id, file))) == Outside(c)
  {
    var d := Do(c, Publish(id, file));
    assert ActivePaths(d) == ActivePaths(c) && c.reservations[id].path in ActivePaths(c);
    assert Outside(d) == Outside(c) && Held(d) == Held(c);
  }

  lemma RemoveCharge(c: Cache, path: string)
    requires Good(c) && path in c.files
    ensures Good(Do(c, Remove(path)))
    ensures Outside(Do(c, Remove(path))) == Outside(c) - {path}
    ensures Charge(c) == Charge(Do(c, Remove(path))) + if path in Outside(c) then c.files[path].bytes else 0
  {
    var d := Do(c, Remove(path));
    assert ActivePaths(d) == ActivePaths(c);
    assert Outside(d) == Outside(c) - {path} && Held(d) == Held(c);
    if path in Outside(c) {
      TotalRemove(Outside(c), path);
    } else {
      assert Outside(d) == Outside(c);
    }
  }

  lemma FinishedPaths(c: Cache, id: nat)
    requires Good(c) && Running(c, id)
    ensures ActivePaths(Do(c, Finish(id))) == ActivePaths(c) - {c.reservations[id].path}
  {
    var d, path := Do(c, Finish(id)), c.reservations[id].path;
    assert forall i :: Running(d, i) <==> Running(c, i) && i != id;
    forall p | p in ActivePaths(c) && p != path ensures p in ActivePaths(d) {
      var i :| Running(c, i) && c.reservations[i].path == p;
      assert Running(d, i) && d.reservations[i].path == p;
    }
    forall p | p in ActivePaths(d) ensures p in ActivePaths(c) && p != path {
      var i :| Running(d, i) && d.reservations[i].path == p;
      assert Running(c, i) && Running(c, id);
    }
  }

  lemma FinishedHeld(c: Cache, id: nat)
    requires Running(c, id)
    ensures id in Held(c) && Held(c)[id] == c.reservations[id].bytes
    ensures Held(Do(c, Finish(id))) == Held(c) - {id} && |Held(Do(c, Finish(id)))| < |Held(c)|
    ensures forall i :: Running(Do(c, Finish(id)), i) <==> Running(c, i) && i != id
  {
    var d := Do(c, Finish(id));
    assert Held(d) == Held(c) - {id};
    assert Held(d).Keys == Held(c).Keys - {id};
  }

  lemma FinishedOutside(c: Cache, id: nat)
    requires Good(c) && Running(c, id)
    ensures var path := c.reservations[id].path;
            path !in Outside(c) &&
            Outside(Do(c, Finish(id))) == if path in c.files then Outside(c)[path := c.files[path].bytes]
              else Outside(c)
  {
    hide Good;
    FinishedPaths(c, id);
    assert c.reservations[id].path in ActivePaths(c);
  }

  lemma FinishedGood(c: Cache, id: nat)
    requires Good(c) && Running(c, id)
    ensures Good(Do(c, Finish(id)))
  {
    var d := Do(c, Finish(id));
    assert forall i :: Running(d, i) ==> Running(c, i) && d.reservations[i] == c.reservations[i];
  }

  /** Releasing a reservation swaps its bytes for the smaller published file. */
  lemma FinishCharge(c: Cache, id: nat)
    requires Good(c) && Running(c, id)
    ensures Good(Do(c, Finish(id))) && Charge(Do(c, Finish(id))) <= Charge(c)
  {
    hide Outside, Held, Do, Total;
    FinishedGood(c, id);
    FinishedHeld(c, id);
    FinishedOutside(c, id);
    var path, held := c.reservations[id].path, Held(c);
    TotalRemove(held, id);
    if path in c.files {
      assert c.files[path].bytes <= c.reservations[id].bytes;
      TotalInsert(Outside(c), path, c.files[path].bytes);
    }
  }

  lemma ActionCharge(c: Cache, a: Action)
    requires Good(c)
    ensures Good(Do(c, a)) && Charge(Do(c, a)) <= Charge(c)
  {
    if Can(c, a) {
      match a
      case Publish(id, file) => PublishCharge(c, id, file);
      case Finish(id) => FinishCharge(c, id);
      case Remove(path) => RemoveCharge(c, path);
    }
  }

  lemma {:induction false} ActionsCharge(c: Cache, actions: seq<Action>)
    requires Good(c)
    ensures Good(DoAll(c, actions)) && Charge(DoAll(c, actions)) <= Charge(c)
    decreases |actions|
  {
    if actions != [] {
      var n := |actions| - 1;
      ActionsCharge(c, actions[..n]);
      ActionCharge(DoAll(c, actions[..n]), actions[n]);
    }
  }

  // ----- admission -----

  function Reserve(c: Cache, id: nat, path: string, bytes: nat): Cache {
    c.(reservations := c.reservations[id := Reservation(path, bytes, false)])
  }

  /** A path no transfer is writing and no file occupies: what single-flight and the cache check ensure. */
  predicate Free(c: Cache, path: string) {
    path !in c.files && path !in ActivePaths(c)
  }

  lemma ReserveCharge(c: Cache, id: nat, path: string, bytes: nat)
    requires Good(c) && id !in c.reservations && Free(c, path)
    ensures Good(Reserve(c, id, path, bytes)) && Charge(Reserve(c, id, path, bytes)) == Charge(c) + bytes
  {
    hide Total;
    var d := Reserve(c, id, path, bytes);
    ReservedPaths(c, id, path, bytes);
    assert Outside(d) == Outside(c);
    assert Held(d) == Held(c)[id := bytes];
    TotalInsert(Held(c), id, bytes);
  }

  lemma ReservedPaths(c: Cache, id: nat, path: string, bytes: nat)
    requires Good(c) && id !in c.reservations && Free(c, path)
    ensures Good(Reserve(c, id, path, bytes)) && ActivePaths(Reserve(c, id, path, bytes)) == ActivePaths(c) + {path}
  {
    var d := Reserve(c, id, path, bytes);
    assert forall i :: Running(d, i) <==> Running(c, i) || i == id;
    forall i | Running(c, i) ensures c.reservations[i].path != path {
      assert c.reservations[i].path in ActivePaths(c);
    }
    forall p | p in ActivePaths(c) ensures p in ActivePaths(d) {
      var i :| Running(c, i) && c.reservations[i].path == p;
      assert Running(d, i) && d.reservations[i].path == p;
    }
    assert Running(d, id) && d.reservations[id].path == path;
  }

  lemma SameSizes(c: Cache, id: nat)
    requires Running(c, id)
    ensures Published(Do(c, Finish(id))) == Published(c)
  {
    assert Sizes(Do(c, Finish(id))) == Sizes(c);
  }

  lemma IdleCharge(c: Cache)
    requires forall id :: !Running(c, id)
    ensures Charge(c) == Published(c)
  {
    hide Total;
    assert forall id :: id in c.reservations ==> !Running(c, id);
    assert ActivePaths(c) == {};
    assert Outside(c) == Sizes(c);
    assert Held(c) == map[];
    EmptyTotal(Held(c));
  }

  /** Published bytes never exceed the charge. */
  lemma {:induction false} PublishedWithinCharge(c: Cache)
    requires Good(c)
    ensures Published(c) <= Charge(c)
    decreases |Held(c)|
  {
    hide Good, Charge, Total, Do, Held;
    if id :| Running(c, id) {
      FinishCharge(c, id);
      FinishedHeld(c, id);
      SameSizes(c, id);
      PublishedWithinCharge(Do(c, Finish(id)));
    } else {
      IdleCharge(c);
    }
  }

  // ----- runs -----

  datatype Event = Act(action: Action) | Admit(id: nat, path: string, bytes: nat)

  /** Admission reserves, for a free path, only what the charge leaves of the quota. */
  ghost predicate Enabled(quota: nat, c: Cache, e: Event) {
    match e
    case Act(_) => true
    case Admit(id, path, bytes) => id !in c.reservations && Free(c, path) && Charge(c) + bytes <= quota
  }

  function Next(c: Cache, e: Event): Cache {
    match e
    case Act(a) => Do(c, a)
    case Admit(id, path, bytes) => Reserve(c, id, path, bytes)
  }

  ghost predicate Run(quota: nat, c: Cache, events: seq<Event>, end: Cache)
    decreases |events|
  {
    if events == [] then end == c
    else
      var n := |events| - 1;
      exists before ::
        && Run(quota, c, events[..n], before)
        && Enabled(quota, before, events[n]) && end == Next(before, events[n])
  }

  /** Every interleaving of admissions, publications, releases and removals stays within the quota. */
  lemma {:induction false} RunStaysWithinQuota(quota: nat, c: Cache, events: seq<Event>, end: Cache)
    requires Good(c) && Charge(c) <= quota && Run(quota, c, events, end)
    ensures Good(end) && Charge(end) <= quota && Published(end) <= quota
    decreases |events|
  {
    if events != [] {
      var n := |events| - 1;
      var e := events[n];
      var before :| Run(quota, c, events[..n], before) && Enabled(quota, before, e) && end == Next(before, e);
      RunStaysWithinQuota(quota, c, events[..n], before);
      match e
      case Act(a) => ActionCharge(before, a);
      case Admit(id, path, bytes) => ReserveCharge(before, id, path, bytes);
    }
    PublishedWithinCharge(end);
  }

  // ----- the admission's snapshot of reservations -----

  /** `g` still counts every reservation that ran when the accounting began. */
  ghost predicate Snapshot(g: Cache, c: Cache) {
    g.files == c.files && forall id :: Running(c, id) ==> Running(g, id) && g.reservations[id] == c.reservations[id]
  }

  lemma {:induction false} SnapshotCharge(g: Cache, c: Cache)
    requires Good(g) && Snapshot(g, c)
    ensures Charge(c) <= Charge(g)
    decreases |Held(g)|
  {
    hide Good, Charge, Held;
    if id :| Running(g, id) && !Running(c, id) {
      FinishCharge(g, id);
      FinishedHeld(g, id);
      SnapshotCharge(Do(g, Finish(id)), c);
    } else {
      SameCharge(g, c);
    }
  }

  lemma SameCharge(g: Cache, c: Cache)
    requires Snapshot(g, c) && forall id :: Running(g, id) ==> Running(c, id)
    ensures Charge(c) == Charge(g)
  {
    assert forall id :: Running(g, id) <==> Running(c, id);
    assert Held(c) == Held(g);
    forall p | p in ActivePaths(g) ensures p in ActivePaths(c) {
      var i :| Running(g, i) && g.reservations[i].path == p;
      assert Running(c, i) && c.reservations[i].path == p;
    }
    forall p | p in ActivePaths(c) ensures p in ActivePaths(g) {
      var i :| Running(c, i) && c.reservations[i].path == p;
      assert Running(g, i) && g.reservations[i].path == p;
    }
    assert Outside(c) == Outside(g);
  }

  /** Seen with one set of reservations, files that nobody owns can only disappear. */
  ghost predicate Shrunk(g: Cache, h: Cache) {
    && Charge(h) <= Charge(g) && h.reservations == g.reservations
    && (forall p :: p in Outside(h) ==> p in Outside(g) && h.files[p] == g.files[p])
  }

  lemma SnapshotAction(g: Cache, c: Cache, a: Action)
    requires Good(g) && Good(c) && Snapshot(g, c)
    ensures var h := g.(files := Do(c, a).files);
            Good(h) && Snapshot(h, Do(c, a)) && Shrunk(g, h)
  {
    var h := g.(files := Do(c, a).files);
    if !Can(c, a) || a.Finish? {
      assert h == g;
    } else {
      assert h == Do(g, a);
      ActionCharge(g, a);
      if a.Publish? {
        assert g.reservations[a.id].path in ActivePaths(g);
        PublishCharge(g, a.id, a.file);
      } else {
        RemoveCharge(g, a.path);
      }
    }
  }
}
