/** `acquireMediaQuota`: account, evict, reserve, while transfers publish, finish and purges remove. */
module QuotaAdmission {
  import opened Strings
  import opened Sums
  import opened MediaQuota

  const MAX_UINT64: nat := 0xffff_ffff_ffff_ffff

  // ----- the low-water mark -----

  /** `mediaQuotaLowWater`. */
  function LowWater(quota: nat, target: int): nat {
    if target < 1 || target > 99 then 0 else quota / 100 * target + quota % 100 * target / 100
  }

  /** Dividing first is exact, and none of its intermediate results leaves 64 bits. */
  lemma LowWaterIsFloor(quota: nat, target: int)
    requires 1 <= target <= 99 && quota <= MAX_UINT64
    ensures LowWater(quota, target) == quota * target / 100
    ensures quota / 100 * target <= MAX_UINT64 && quota % 100 * target <= MAX_UINT64
    ensures LowWater(quota, target) <= MAX_UINT64
    ensures quota > 0 ==> LowWater(quota, target) < quota
  {
    var a, b := quota / 100, quota % 100;
    DivideFirst(a, b, target);
    assert quota == 100 * a + b;
    if quota > 0 {
      FloorBelow(a, b, target);
    }
  }

  lemma DivideFirst(a: nat, b: nat, target: nat)
    requires b < 100 && 1 <= target <= 99
    ensures (100 * a + b) * target / 100 == a * target + b * target / 100
    ensures a * target <= 99 * a && b * target <= 99 * 99
  {
    Times(a, target);
    Times(b, target);
    Distribute(a, b, target);
    DivideSum(a * target, b * target);
  }

  lemma Times(n: nat, target: nat)
    requires target <= 99
    ensures n * target <= 99 * n
  {
  }

  lemma Distribute(a: nat, b: nat, target: nat)
    ensures (100 * a + b) * target == 100 * (a * target) + b * target
  {
  }

  lemma DivideSum(n: nat, m: nat)
    ensures (100 * n + m) / 100 == n + m / 100
  {
  }

  lemma FloorBelow(a: nat, b: nat, target: nat)
    requires b < 100 && 1 <= target <= 99 && 100 * a + b > 0
    ensures a * target + b * target / 100 < 100 * a + b
  {
    assert a * target <= a * 99;
    assert b * target <= b * 99;
  }

  // ----- eviction order -----

  datatype Candidate = Candidate(path: string, at: int)

  /** Oldest first, ties by path. */
  predicate Earlier(a: Candidate, b: Candidate) {
    a.at < b.at || (a.at == b.at && Less(a.path, b.path))
  }

  lemma EarlierOrder(a: Candidate, b: Candidate, c: Candidate)
    ensures !(Earlier(a, b) && Earlier(b, a)) && (a != b ==> Earlier(a, b) || Earlier(b, a))
    ensures Earlier(a, b) && Earlier(b, c) ==> Earlier(a, c)
  {
    LessTotal(a.path, b.path);
    if Less(a.path, b.path) && Less(b.path, c.path) {
      LessTransitive(a.path, b.path, c.path);
    }
  }

  predicate Sorted(cs: seq<Candidate>) {
    forall i, j :: 0 <= i < j < |cs| ==> Earlier(cs[i], cs[j])
  }

  predicate Distinct(cs: seq<Candidate>) {
    forall i, j :: 0 <= i < j < |cs| ==> cs[i].path != cs[j].path
  }

  predicate SameElements(a: seq<Candidate>, b: seq<Candidate>) {
    (forall c :: c in a ==> c in b) && (forall c :: c in b ==> c in a)
  }

  method Insert(cs: seq<Candidate>, c: Candidate) returns (r: seq<Candidate>)
    requires Sorted(cs) && forall d :: d in cs ==> d.path != c.path
    ensures Sorted(r) && SameElements(r, cs + [c])
  {
    var i := 0;
    while i < |cs| && Earlier(cs[i], c)
      invariant 0 <= i <= |cs|
      invariant forall k :: 0 <= k < i ==> Earlier(cs[k], c)
    {
      i := i + 1;
    }
    r := cs[..i] + [c] + cs[i..];
    forall k | i <= k < |cs| ensures Earlier(c, cs[k]) {
      EarlierOrder(c, cs[i], cs[k]);
      assert cs[i] in cs;
    }
    assert cs == cs[..i] + cs[i..];
  }

  method Sort(cs: seq<Candidate>) returns (r: seq<Candidate>)
    requires Distinct(cs)
    ensures Sorted(r) && SameElements(r, cs)
  {
    r := [];
    var i := 0;
    while i < |cs|
      invariant 0 <= i <= |cs|
      invariant Sorted(r) && SameElements(r, cs[..i])
    {
      assert cs[..i + 1] == cs[..i] + [cs[i]];
      r := Insert(r, cs[i]);
      i := i + 1;
    }
    assert cs[..i] == cs;
  }

  // ----- accounting -----

  /** A file the settings let the admission evict, at its modification time. */
  predicate Evictable(c: Cache, types: set<string>, path: string) {
    path in Outside(c) && c.files[path].kind in types
  }

  function AsCandidate(c: Cache, path: string): Candidate
    requires path in c.files
  {
    Candidate(path, c.files[path].at)
  }

  /** What the walk has counted and collected, `start` being the cache when it began and `g` the cache now. */
  ghost predicate Scanned(start: Cache, g: Cache, types: set<string>, visited: set<string>, seen: map<string, nat>,
                          found: seq<Candidate>) {
    && (forall p :: p in seen ==> p in Outside(start) && seen[p] == Outside(start)[p] && p in visited)
    && (forall p :: p in visited && p in Outside(g) ==> p in seen)
    && Distinct(found)
    && (forall c :: c in found ==>
        c.path in visited && Evictable(start, types, c.path) && c == AsCandidate(start, c.path))
    && (forall p :: p in visited && Evictable(g, types, p) ==> AsCandidate(g, p) in found)
  }

  lemma ScannedShrinks(start: Cache, g: Cache, h: Cache, types: set<string>, visited: set<string>,
                       seen: map<string, nat>, found: seq<Candidate>)
    requires Scanned(start, g, types, visited, seen, found) && Shrunk(g, h)
    ensures Scanned(start, h, types, visited, seen, found)
  {
    hide Outside, Charge, Distinct;
  }

  lemma ScannedSkips(start: Cache, g: Cache, types: set<string>, visited: set<string>, seen: map<string, nat>,
                     found: seq<Candidate>, path: string)
    requires Scanned(start, g, types, visited, seen, found) && path !in Outside(g)
    ensures Scanned(start, g, types, visited + {path}, seen, found)
  {
    hide Outside, Distinct;
  }

  lemma ScannedCounts(start: Cache, g: Cache, types: set<string>, visited: set<string>, seen: map<string, nat>,
                      found: seq<Candidate>, path: string)
    requires Scanned(start, g, types, visited, seen, found) && Shrunk(start, g) && path in Outside(g)
    requires path !in visited
    ensures path !in seen
    ensures var more := if g.files[path].kind in types then found + [AsCandidate(g, path)] else found;
            Scanned(start, g, types, visited + {path}, seen[path := g.files[path].bytes], more)
  {
    hide Charge;
    assert Outside(g)[path] == Outside(start)[path];
  }

  lemma ShrunkTransitive(a: Cache, b: Cache, c: Cache)
    requires Shrunk(a, b) && Shrunk(b, c)
    ensures Shrunk(a, c)
  {
    hide Outside, Charge;
  }

  lemma ShrunkNow(c: Cache)
    ensures Shrunk(c, c)
  {
  }

  /** The bytes counted so far never exceed the charge when the walk began. */
  lemma CountedWithinCharge(start: Cache, g: Cache, types: set<string>, visited: set<string>, seen: map<string, nat>,
                            found: seq<Candidate>)
    requires Scanned(start, g, types, visited, seen, found)
    ensures Total(Held(start)) + Total(seen) <= Charge(start)
  {
    hide Held, Outside;
    TotalMonotone(seen, Outside(start));
  }

  /** A finished walk counted at least what is there now. */
  lemma CountCovers(start: Cache, g: Cache, types: set<string>, visited: set<string>, seen: map<string, nat>,
                    found: seq<Candidate>)
    requires Scanned(start, g, types, visited, seen, found) && Shrunk(start, g) && g.files.Keys <= visited
    ensures Charge(g) <= Total(Held(start)) + Total(seen)
  {
    assert Held(g) == Held(start);
    forall p | p in Outside(g) ensures p in seen && Outside(g)[p] <= seen[p] {
      assert p in visited;
    }
    TotalMonotone(Outside(g), seen);
  }

  lemma ScanBegins(start: Cache, types: set<string>)
    ensures Scanned(start, start, types, {}, map[], []) && Shrunk(start, start) && Total<string>(map[]) == 0
  {
  }

  lemma OutsideIff(c: Cache, path: string)
    requires path in c.files
    ensures path in Outside(c) <==> path !in ActivePaths(c)
  {
  }

  // ----- eviction -----

  /** The eviction loop after `i` candidates. */
  ghost predicate Evicting(g: Cache, order: seq<Candidate>, i: nat, stuck: set<string>, evicted: set<string>,
                           used: nat) {
    && i <= |order| && Charge(g) <= used
    && (forall k :: 0 <= k < i ==> order[k].path !in Outside(g) || order[k].path in stuck)
    && (forall p :: p in evicted ==> exists k :: 0 <= k < i && order[k].path == p)
  }

  lemma EvictingShrinks(g: Cache, h: Cache, order: seq<Candidate>, i: nat, stuck: set<string>, evicted: set<string>,
                        used: nat)
    requires Evicting(g, order, i, stuck, evicted, used) && Shrunk(g, h)
    ensures Evicting(h, order, i, stuck, evicted, used)
  {
    hide Outside, Charge;
  }

  lemma EvictingSkips(g: Cache, order: seq<Candidate>, i: nat, stuck: set<string>, evicted: set<string>, used: nat)
    requires Evicting(g, order, i, stuck, evicted, used) && i < |order|
    requires order[i].path !in Outside(g) || order[i].path in stuck
    ensures Evicting(g, order, i + 1, stuck, evicted, used)
  {
    hide Outside, Charge;
  }

  lemma EvictingRemoves(g: Cache, h: Cache, order: seq<Candidate>, i: nat, stuck: set<string>, evicted: set<string>,
                        used: nat)
    requires Evicting(g, order, i, stuck, evicted, used) && i < |order| && Good(g)
    requires order[i].path in Outside(g) && h == Do(g, Remove(order[i].path))
    ensures g.files[order[i].path].bytes <= used && Shrunk(g, h) && Good(h)
    ensures Evicting(h, order, i + 1, stuck, evicted + {order[i].path}, used - g.files[order[i].path].bytes)
  {
    var path := order[i].path;
    RemoveCharge(g, path);
    forall p | p in evicted + {path} ensures exists k :: 0 <= k < i + 1 && order[k].path == p {
      if p == path { assert order[i].path == p; }
    }
  }

  lemma CandidateState(start: Cache, g: Cache, types: set<string>, order: seq<Candidate>, i: nat)
    requires Ordered(start, g, types, order) && Shrunk(start, g) && i < |order|
    ensures order[i].path in g.files <==> order[i].path in Outside(g)
  {
    hide Charge, Sorted;
    assert order[i] in order;
    if order[i].path in g.files {
      StillOutside(start, g, types, order[i].path);
    }
  }

  /** The oldest evictable files go first: nothing removable and older than an evicted file is left. */
  ghost predicate OldestFirst(start: Cache, now: map<string, File>, types: set<string>, stuck: set<string>,
                              evicted: set<string>) {
    forall p, q :: p in evicted && p in start.files && q in now && q !in stuck && Evictable(start, types, q) ==>
      !Earlier(AsCandidate(start, q), AsCandidate(start, p))
  }

  ghost predicate OnlyEvictable(start: Cache, types: set<string>, evicted: set<string>) {
    forall p :: p in evicted ==> Evictable(start, types, p)
  }

  ghost predicate NoneLeft(start: Cache, now: map<string, File>, types: set<string>, stuck: set<string>) {
    forall q :: q in now && Evictable(start, types, q) ==> q in stuck
  }

  /** The candidates a finished walk hands to the eviction, sorted. */
  ghost predicate Ordered(start: Cache, g: Cache, types: set<string>, order: seq<Candidate>) {
    && Sorted(order)
    && (forall c :: c in order ==> Evictable(start, types, c.path) && c == AsCandidate(start, c.path))
    && (forall p :: Evictable(g, types, p) ==> AsCandidate(g, p) in order)
  }

  /** A finished walk's candidates, in the order it met them. */
  ghost predicate Collected(start: Cache, g: Cache, types: set<string>, found: seq<Candidate>) {
    && Distinct(found)
    && (forall c :: c in found ==> Evictable(start, types, c.path) && c == AsCandidate(start, c.path))
    && (forall p :: Evictable(g, types, p) ==> AsCandidate(g, p) in found)
  }

  lemma ScanCollects(start: Cache, g: Cache, types: set<string>, visited: set<string>, seen: map<string, nat>,
                     found: seq<Candidate>)
    requires Scanned(start, g, types, visited, seen, found) && g.files.Keys <= visited
    ensures Collected(start, g, types, found)
  {
    hide Distinct;
  }

  lemma SortingOrders(start: Cache, g: Cache, types: set<string>, found: seq<Candidate>, order: seq<Candidate>)
    requires Collected(start, g, types, found) && Sorted(order) && SameElements(order, found)
    ensures Ordered(start, g, types, order)
  {
    hide Sorted, Distinct, Outside;
  }

  lemma OrderedShrinks(start: Cache, g: Cache, h: Cache, types: set<string>, order: seq<Candidate>)
    requires Ordered(start, g, types, order) && Shrunk(g, h)
    ensures Ordered(start, h, types, order)
  {
    hide Sorted, Charge;
    forall p | Evictable(h, types, p) ensures AsCandidate(h, p) in order {
      assert Evictable(g, types, p) && AsCandidate(h, p) == AsCandidate(g, p);
    }
  }

  lemma StillOutside(start: Cache, g: Cache, types: set<string>, q: string)
    requires q in g.files && Evictable(start, types, q) && Shrunk(start, g)
    ensures q in Outside(g) && Evictable(g, types, q) && AsCandidate(g, q) == AsCandidate(start, q)
  {
    hide Charge;
    assert ActivePaths(g) == ActivePaths(start);
  }

  lemma EvictionOrder(start: Cache, g: Cache, types: set<string>, order: seq<Candidate>, i: nat, stuck: set<string>,
                      evicted: set<string>, used: nat)
    requires Ordered(start, g, types, order) && Shrunk(start, g) && Evicting(g, order, i, stuck, evicted, used)
    ensures OnlyEvictable(start, types, evicted) && OldestFirst(start, g.files, types, stuck, evicted)
    ensures i == |order| ==> NoneLeft(start, g.files, types, stuck)
  {
    hide Charge, Shrunk, Earlier;
    forall p | p in evicted ensures Evictable(start, types, p) {
      var k :| 0 <= k < i && order[k].path == p;
      assert order[k] in order;
    }
    forall p, q | p in evicted && p in start.files && q in g.files && q !in stuck && Evictable(start, types, q)
      ensures !Earlier(AsCandidate(start, q), AsCandidate(start, p))
    {
      var k :| 0 <= k < i && order[k].path == p;
      assert order[k] in order;
      StillOutside(start, g, types, q);
      var m :| 0 <= m < |order| && order[m] == AsCandidate(start, q);
      assert m >= i;
      EarlierOrder(order[k], order[m], order[m]);
    }
    if i == |order| {
      forall q | q in g.files && Evictable(start, types, q) ensures q in stuck {
        StillOutside(start, g, types, q);
        var m :| 0 <= m < |order| && order[m] == AsCandidate(start, q);
      }
    }
  }

  // ----- what happened to the files -----

  ghost predicate Occurs(turns: seq<seq<Action>>, a: Action) {
    exists i :: 0 <= i < |turns| && a in turns[i]
  }

  /** A file went only by being evicted or removed by others, and came only by being published by others. */
  ghost predicate Explained(before: map<string, File>, after: map<string, File>, turns: seq<seq<Action>>,
                            evicted: set<string>) {
    && (forall p :: p in before && p !in after ==> p in evicted || Occurs(turns, Remove(p)))
    && (forall p :: p in after && !(p in before && before[p] == after[p]) ==>
          exists id :: Occurs(turns, Publish(id, after[p])))
  }

  /** The same between two moments, the turns taken being those that are no longer ahead. */
  ghost predicate Since(before: map<string, File>, ahead: seq<seq<Action>>, after: map<string, File>,
                        left: seq<seq<Action>>, evicted: set<string>) {
    && |left| <= |ahead| && left == ahead[|ahead| - |left|..]
    && Explained(before, after, ahead[..|ahead| - |left|], evicted)
  }

  lemma ActionExplained(c: Cache, a: Action, turns: seq<seq<Action>>)
    requires Occurs(turns, a)
    ensures Explained(c.files, Do(c, a).files, turns, {})
  {
  }

  lemma OneTurn(actions: seq<Action>, i: nat)
    requires i < |actions|
    ensures Occurs([actions], actions[i])
  {
    assert actions[i] in [actions][0];
  }

  lemma ExplainedAgain(a: map<string, File>, b: map<string, File>, c: map<string, File>, turns: seq<seq<Action>>,
                       first: set<string>, second: set<string>)
    requires Explained(a, b, turns, first) && Explained(b, c, turns, second)
    ensures Explained(a, c, turns, first + second) && (second == {} ==> Explained(a, c, turns, first))
  {
    hide Occurs;
  }

  lemma OccursLonger(turns: seq<seq<Action>>, more: seq<seq<Action>>, a: Action)
    ensures Occurs(turns, a) || Occurs(more, a) ==> Occurs(turns + more, a)
  {
    if Occurs(turns, a) {
      var i :| 0 <= i < |turns| && a in turns[i];
      assert a in (turns + more)[i];
    } else if Occurs(more, a) {
      var i :| 0 <= i < |more| && a in more[i];
      assert a in (turns + more)[|turns| + i];
    }
  }

  lemma ExplainedLonger(a: map<string, File>, b: map<string, File>, turns: seq<seq<Action>>, more: seq<seq<Action>>,
                        evicted: set<string>)
    ensures Explained(a, b, turns, evicted) || Explained(a, b, more, evicted) ==> Explained(a, b, turns + more, evicted)
  {
    hide Occurs;
    forall x ensures Occurs(turns, x) || Occurs(more, x) ==> Occurs(turns + more, x) {
      OccursLonger(turns, more, x);
    }
    forall p | p in b && (exists id :: Occurs(turns, Publish(id, b[p])) || Occurs(more, Publish(id, b[p])))
      ensures exists id :: Occurs(turns + more, Publish(id, b[p]))
    {
      var id :| Occurs(turns, Publish(id, b[p])) || Occurs(more, Publish(id, b[p]));
      assert Occurs(turns + more, Publish(id, b[p]));
    }
  }

  lemma SinceTransitive(a: map<string, File>, s: seq<seq<Action>>, b: map<string, File>, t: seq<seq<Action>>,
                        c: map<string, File>, u: seq<seq<Action>>, first: set<string>, second: set<string>)
    requires Since(a, s, b, t, first) && Since(b, t, c, u, second)
    ensures Since(a, s, c, u, first + second) && (second == {} ==> Since(a, s, c, u, first))
  {
    hide Explained;
    var x, y := s[..|s| - |t|], t[..|t| - |u|];
    assert s[..|s| - |u|] == x + y;
    ExplainedLonger(a, b, x, y, first);
    ExplainedLonger(b, c, x, y, second);
    ExplainedAgain(a, b, c, x + y, first, second);
  }

  lemma SinceNow(a: map<string, File>, s: seq<seq<Action>>)
    ensures Since(a, s, a, s, {}) && forall turns :: Explained(a, a, turns, {})
  {
  }

  /** An eviction explains itself. */
  lemma SinceEvicted(a: map<string, File>, s: seq<seq<Action>>, path: string)
    ensures Since(a, s, a - {path}, s, {path})
  {
  }

  /** A path that is gone and that no running transfer owns stays gone. */
  lemma GoneStaysGone(g: Cache, h: Cache, evicted: set<string>)
    requires Shrunk(g, h) && evicted !! g.files.Keys && evicted !! ActivePaths(h)
    ensures evicted !! h.files.Keys
  {
    hide Charge, ActivePaths;
    forall p | p in h.files && p !in ActivePaths(h) ensures p in g.files {
      OutsideIff(h, p);
      assert p in Outside(g);
    }
  }

  // ----- how far eviction goes -----

  ghost function EvictedBytes(c: Cache, evicted: set<string>): nat {
    Total(Restrict(Outside(c), evicted))
  }

  predicate Enough(quota: nat, low: nat, incoming: nat, used: nat) {
    used <= low && incoming + used <= quota
  }

  /** Before the last eviction, that of the latest file evicted, usage was not low enough. */
  ghost predicate Needed(start: Cache, evicted: set<string>, quota: nat, low: nat, incoming: nat, used: nat) {
    evicted != {} ==>
      exists p :: p in evicted && p in Outside(start) && !Enough(quota, low, incoming, used + Outside(start)[p])
        && forall q :: q in evicted && q in start.files ==> !Earlier(AsCandidate(start, p), AsCandidate(start, q))
  }

  lemma EvictedMore(start: Cache, evicted: set<string>, path: string)
    requires path in Outside(start) && path !in evicted
    ensures EvictedBytes(start, evicted + {path}) == EvictedBytes(start, evicted) + Outside(start)[path]
  {
    hide Total;
    var m := Restrict(Outside(start), evicted);
    assert Restrict(Outside(start), evicted + {path}) == m[path := Outside(start)[path]];
    TotalInsert(m, path, Outside(start)[path]);
  }

  lemma EvictedNone(start: Cache)
    ensures EvictedBytes(start, {}) == 0
  {
    assert Restrict(Outside(start), {}) == map[];
    EmptyTotal(Restrict(Outside(start), {}));
  }

  lemma NothingNeeded(start: Cache, quota: nat, low: nat, incoming: nat, used: nat)
    ensures Needed(start, {}, quota, low, incoming, used)
  {
  }

  /** Files change who owns which path as little as they change the reservations. */
  lemma SameOwners(g: Cache, h: Cache)
    requires g.reservations == h.reservations
    ensures ActivePaths(g) == ActivePaths(h)
  {
  }

  lemma CandidateBytes(start: Cache, g: Cache, path: string)
    requires Shrunk(start, g) && path in Outside(g)
    ensures path in g.files && path in Outside(start) && Outside(start)[path] == g.files[path].bytes
    ensures path !in ActivePaths(g)
  {
    hide Charge;
  }

  /** The eviction at `i` was needed, and its file is later than all evicted before it. */
  lemma NeededNow(start: Cache, g: Cache, types: set<string>, order: seq<Candidate>, i: nat, stuck: set<string>,
                  evicted: set<string>, quota: nat, low: nat, incoming: nat, used: nat)
    requires Ordered(start, g, types, order) && i < |order| && Evicting(g, order, i, stuck, evicted, used)
    requires !Enough(quota, low, incoming, used)
    requires order[i].path in Outside(start) && Outside(start)[order[i].path] <= used
    ensures Needed(start, evicted + {order[i].path}, quota, low, incoming, used - Outside(start)[order[i].path])
  {
    hide Charge, Earlier;
    var path := order[i].path;
    assert order[i] in order;
    forall q | q in evicted + {path} && q in start.files
      ensures !Earlier(AsCandidate(start, path), AsCandidate(start, q))
    {
      EarlierOrder(order[i], order[i], order[i]);
      if q in evicted {
        var k :| 0 <= k < i && order[k].path == q;
        assert order[k] in order;
        EarlierOrder(order[k], order[i], order[i]);
      }
    }
  }

  // ----- a whole accounting -----

  predicate Pressed(quota: nat, counted: nat, incoming: nat, flag: bool) {
    counted >= quota || incoming > quota - counted || flag
  }

  /**
   Without pressure nothing is evicted and the flag stays; under pressure no more is evicted than was
   needed, and the flag says whether usage is still above the mark. Usage is what was counted less
   exactly the evicted bytes.
   */
  ghost predicate Settled(was: Cache, evicted: set<string>, quota: nat, low: nat, incoming: nat, types: set<string>,
                          counted: nat, used: nat, before: bool, after: bool) {
    && used + EvictedBytes(was, evicted) == counted <= Charge(was)
    && if Pressed(quota, counted, incoming, before)
       then after == (types != {} && used > low) && Needed(was, evicted, quota, low, incoming, used)
       else evicted == {} && after == before
  }

  /** What a reservation gets of the room there is. */
  function LimitOf(room: nat, incoming: nat, current: nat): nat {
    var wanted := if 0 < incoming < room then incoming else room;
    if 0 < current < wanted then current else wanted
  }

  lemma ActionKeys(c: Cache, a: Action)
    ensures Do(c, a).reservations.Keys == c.reservations.Keys
  {
  }

  lemma NothingEvicted(start: Cache, now: map<string, File>, types: set<string>, stuck: set<string>)
    ensures OnlyEvictable(start, types, {}) && OldestFirst(start, now, types, stuck, {})
  {
  }

  lemma EvictedKinds(start: Cache, types: set<string>, evicted: set<string>)
    requires OnlyEvictable(start, types, evicted) && evicted != {}
    ensures types != {}
  {
    var p :| p in evicted;
    assert Evictable(start, types, p);
  }

  /** The report holds of the cache as it was before finished reservations were forgotten. */
  lemma SameReport(was: Cache, start: Cache, now: map<string, File>, types: set<string>, stuck: set<string>,
                   evicted: set<string>)
    requires start.files == was.files && SameAccount(was, start)
    requires OnlyEvictable(start, types, evicted) && OldestFirst(start, now, types, stuck, evicted)
    ensures OnlyEvictable(was, types, evicted) && OldestFirst(was, now, types, stuck, evicted)
    ensures NoneLeft(start, now, types, stuck) ==> NoneLeft(was, now, types, stuck)
  {
    hide Outside, Charge, Good, Earlier;
    assert forall p :: Evictable(was, types, p) <==> Evictable(start, types, p);
    assert forall p :: p in was.files ==> AsCandidate(was, p) == AsCandidate(start, p);
  }

  lemma SameNeed(was: Cache, start: Cache, evicted: set<string>, quota: nat, low: nat, incoming: nat, used: nat)
    requires start.files == was.files && SameAccount(was, start)
    requires Needed(start, evicted, quota, low, incoming, used)
    ensures Needed(was, evicted, quota, low, incoming, used)
    ensures EvictedBytes(was, evicted) == EvictedBytes(start, evicted)
  {
    hide Charge, Good, Earlier, Total;
    assert forall p :: p in was.files ==> AsCandidate(was, p) == AsCandidate(start, p);
  }

  /** A free path stays free while others run: only its own reservation could publish there. */
  lemma StillFree(start: Cache, g: Cache, c: Cache, path: string)
    requires Free(start, path) && Shrunk(start, g) && Snapshot(g, c)
    ensures Free(c, path)
  {
    hide Charge;
    assert ActivePaths(g) == ActivePaths(start);
    forall i | Running(c, i) ensures c.reservations[i].path != path {
      assert Running(g, i) && g.reservations[i].path in ActivePaths(g);
    }
    OutsideUnlessActive(g, path);
  }

  lemma OutsideUnlessActive(g: Cache, path: string)
    ensures path in g.files ==> path in Outside(g) || path in ActivePaths(g)
  {
  }

  // ----- the cache and its admissions -----

  datatype Admission = Unlimited | Admitted(id: nat, limit: nat) | Paused | Cancelled | InvalidTarget

  class QuotaCache {
    const quota: nat
    var files: map<string, File>
    var reservations: map<nat, Reservation>
    var needsLowWater: bool
    /** Identifies the next reservation. */
    var next: nat
    /** What other goroutines will do at each point where they can run, and when the caller gives up. */
    var turns: seq<seq<Action>>
    var patience: nat

    ghost function View(): Cache
      reads this
    {
      Cache(files, reservations)
    }

    ghost predicate Valid()
      reads this
    {
      && quota <= MAX_UINT64 && Good(View())
      && (forall id :: id in reservations ==> id < next)
      && (quota > 0 ==> Charge(View()) <= quota)
    }

    /** The accounting that began with the reservations `snap` is still sound. */
    ghost predicate Counting(snap: map<nat, Reservation>)
      reads this
    {
      && Valid() && (forall id :: id in snap ==> id < next)
      && Good(Cache(files, snap)) && Snapshot(Cache(files, snap), View())
    }

    constructor (quota: nat, files: map<string, File>, turns: seq<seq<Action>>, patience: nat)
      requires quota <= MAX_UINT64 && (quota > 0 ==> Charge(Cache(files, map[])) <= quota)
      ensures Valid() && this.quota == quota && View() == Cache(files, map[]) && !needsLowWater
    {
      this.quota, this.files, this.turns, this.patience := quota, files, turns, patience;
      reservations, needsLowWater, next := map[], false, 0;
    }

    /** One action of another goroutine; one that is not possible now does nothing. */
    method Change(a: Action)
      modifies `files, `reservations
      ensures View() == Do(old(View()), a)
    {
      if Can(Cache(files, reservations), a) {
        match a
        case Publish(id, file) => files := files[reservations[id].path := file];
        case Finish(id) => reservations := reservations[id := reservations[id].(finished := true)];
        case Remove(path) => files := files - {path};
      }
    }

    /** Such an action leaves a running accounting sound. */
    method Perform(a: Action, ghost snap: map<nat, Reservation>)
      requires Counting(snap)
      modifies `files, `reservations
      ensures Counting(snap) && View() == Do(old(View()), a) && reservations.Keys == old(reservations.Keys)
      ensures Shrunk(Cache(old(files), snap), Cache(files, snap))
    {
      hide Good, Charge, Shrunk, Snapshot, Do;
      ActionCharge(View(), a);
      SnapshotAction(Cache(files, snap), View(), a);
      ActionKeys(View(), a);
      Change(a);
    }

    method Yield(ghost snap: map<nat, Reservation>)
      requires Counting(snap)
      modifies `files, `reservations, `turns
      ensures Counting(snap) && Shrunk(Cache(old(files), snap), Cache(files, snap))
      ensures reservations.Keys == old(reservations.Keys)
      ensures (turns == [] && old(turns) == [] && View() == old(View())) || |turns| < |old(turns)|
      ensures Since(old(files), old(turns), files, turns, {})
    {
      hide Good, Charge, Outside, Snapshot, Occurs, Shrunk, Explained, Do;
      SinceNow(files, turns);
      ShrunkNow(Cache(files, snap));
      if turns != [] {
        var actions := turns[0];
        turns := turns[1..];
        assert old(turns)[..1] == [actions];
        var i := 0;
        while i < |actions|
          invariant 0 <= i <= |actions| && turns == old(turns)[1..] && reservations.Keys == old(reservations.Keys)
          invariant Counting(snap) && Shrunk(Cache(old(files), snap), Cache(files, snap))
          invariant Explained(old(files), files, [actions], {})
        {
          ghost var before := Cache(files, snap);
          OneTurn(actions, i);
          ActionExplained(View(), actions[i], [actions]);
          Perform(actions[i], snap);
          ExplainedAgain(old(files), before.files, files, [actions], {}, {});
          ShrunkTransitive(Cache(old(files), snap), before, Cache(files, snap));
          i := i + 1;
        }
      }
    }

    /** Drops finished reservations and adds up the running ones. */
    method Tally() returns (used: nat, active: set<string>)
      requires Valid()
      modifies `reservations
      ensures Valid() && reservations == RunningOf(old(View()))
      ensures used == Total(Held(View())) && active == ActivePaths(View())
    {
      hide Good, Charge, Total;
      used, active := 0, {};
      ghost var start := View();
      var todo := reservations.Keys;
      ghost var done: set<nat> := {};
      assert Restrict(Held(start), done) == map[];
      EmptyTotal(Restrict(Held(start), done));
      while todo != {}
        invariant done + todo == start.reservations.Keys && done !! todo
        invariant reservations == Dropped(start, done)
        invariant used == Total(Restrict(Held(start), done)) && active == PathsOf(start, done)
      {
        var id :| id in todo;
        TallyNext(start, done, id);
        if reservations[id].finished {
          reservations := reservations - {id};
        } else {
          used, active := used + reservations[id].bytes, active + {reservations[id].path};
        }
        todo, done := todo - {id}, done + {id};
      }
      TallyEnd(start, done);
    }

    /** Walks the files that no running transfer owns: what they use, and which of them may be evicted. */
    method Scan(types: set<string>, active: set<string>, held: nat, ghost snap: map<nat, Reservation>)
      returns (ok: bool, used: nat, found: seq<Candidate>)
      requires Counting(snap) && active == ActivePaths(Cache(files, snap)) && held == Total(Held(Cache(files, snap)))
      modifies `files, `reservations, `turns, `patience
      ensures Counting(snap) && Shrunk(Cache(old(files), snap), Cache(files, snap))
      ensures reservations.Keys == old(reservations.Keys)
      ensures used <= Charge(Cache(old(files), snap)) && Since(old(files), old(turns), files, turns, {})
      ensures !ok ==> patience == 0
      ensures ok ==>
              Charge(Cache(files, snap)) <= used && Collected(Cache(old(files), snap), Cache(files, snap), types, found)
    {
      hide Good, Charge, Snapshot, Total, Held, Outside, Shrunk, Since;
      ghost var start := Cache(files, snap);
      ghost var seen: map<string, nat> := map[];
      var visited: set<string> := {};
      used, found, ok := held, [], false;
      ScanBegins(start, types);
      SinceNow(files, turns);
      while !(files.Keys <= visited)
        invariant Counting(snap) && Shrunk(start, Cache(files, snap)) && reservations.Keys == old(reservations.Keys)
        invariant Scanned(start, Cache(files, snap), types, visited, seen, found)
        invariant used == held + Total(seen) && Since(old(files), old(turns), files, turns, {})
        decreases patience
      {
        CountedWithinCharge(start, Cache(files, snap), types, visited, seen, found);
        if patience == 0 {
          return;
        }
        patience := patience - 1;
        ghost var before, ahead := Cache(files, snap), turns;
        Yield(snap);
        ghost var g := Cache(files, snap);
        SinceTransitive(old(files), old(turns), before.files, ahead, files, turns, {}, {});
        ShrunkTransitive(start, before, g);
        ScannedShrinks(start, before, g, types, visited, seen, found);
        if !(files.Keys <= visited) {
          var path :| path in files.Keys && path !in visited;
          OutsideIff(g, path);
          if path in active {
            ScannedSkips(start, g, types, visited, seen, found, path);
          } else {
            ScannedCounts(start, g, types, visited, seen, found, path);
            TotalInsert(seen, path, files[path].bytes);
            used := used + files[path].bytes;
            if files[path].kind in types {
              found := found + [Candidate(path, files[path].at)];
            }
            seen := seen[path := files[path].bytes];
          }
          visited := visited + {path};
        }
      }
      ok := true;
      CountedWithinCharge(start, Cache(files, snap), types, visited, seen, found);
      CountCovers(start, Cache(files, snap), types, visited, seen, found);
      ScanCollects(start, Cache(files, snap), types, visited, seen, found);
    }

    /** Removes candidates in order until usage is at the low-water mark and the incoming bytes fit. */
    method Evict(order: seq<Candidate>, incoming: nat, low: nat, counted: nat, types: set<string>, stuck: set<string>,
                 ghost start: Cache, ghost snap: map<nat, Reservation>) returns (used: nat, ghost evicted: set<string>)
      requires Counting(snap) && Ordered(start, Cache(files, snap), types, order) && Shrunk(start, Cache(files, snap))
      requires Charge(Cache(files, snap)) <= counted && low < quota
      modifies `files, `reservations, `turns, `patience
      ensures Counting(snap) && Shrunk(start, Cache(files, snap)) && reservations.Keys == old(reservations.Keys)
      ensures Charge(Cache(files, snap)) <= used <= counted
      ensures OnlyEvictable(start, types, evicted) && OldestFirst(start, files, types, stuck, evicted)
      ensures NoneLeft(start, files, types, stuck) || patience == 0 || (used <= low && incoming <= quota - used)
      ensures Since(old(files), old(turns), files, turns, evicted) && evicted !! files.Keys
      ensures used + EvictedBytes(start, evicted) == counted && Needed(start, evicted, quota, low, incoming, used)
    {
      hide Good, Charge, Snapshot, Outside, Shrunk, Ordered, Evictable, OldestFirst, OnlyEvictable, NoneLeft;
      hide Since, EvictedBytes, Needed, ActivePaths;
      used, evicted := counted, {};
      SinceNow(files, turns);
      EvictedNone(start);
      NothingNeeded(start, quota, low, incoming, used);
      var i := 0;
      while i < |order| && patience > 0 && !(used <= low && incoming <= quota - used)
        invariant Counting(snap) && Shrunk(start, Cache(files, snap)) && reservations.Keys == old(reservations.Keys)
        invariant Ordered(start, Cache(files, snap), types, order)
        invariant Evicting(Cache(files, snap), order, i, stuck, evicted, used) && used <= counted
        invariant Since(old(files), old(turns), files, turns, evicted) && evicted !! files.Keys
        invariant evicted !! ActivePaths(Cache(files, snap))
        invariant used + EvictedBytes(start, evicted) == counted && Needed(start, evicted, quota, low, incoming, used)
      {
        patience := patience - 1;
        ghost var before, ahead := Cache(files, snap), turns;
        Yield(snap);
        ghost var g := Cache(files, snap);
        SameOwners(before, g);
        GoneStaysGone(before, g, evicted);
        SinceTransitive(old(files), old(turns), before.files, ahead, files, turns, evicted, {});
        ShrunkTransitive(start, before, g);
        OrderedShrinks(start, before, g, types, order);
        EvictingShrinks(before, g, order, i, stuck, evicted, used);
        var path := order[i].path;
        CandidateState(start, g, types, order, i);
        if path in files && path !in stuck {
          var bytes := files[path].bytes;
          CandidateBytes(start, g, path);
          EvictedMore(start, evicted, path);
          SinceEvicted(files, turns, path);
          SinceTransitive(old(files), old(turns), files, turns, files - {path}, turns, evicted, {path});
          Perform(Remove(path), snap);
          ghost var h := Cache(files, snap);
          SameOwners(g, h);
          EvictingRemoves(g, h, order, i, stuck, evicted, used);
          NeededNow(start, g, types, order, i, stuck, evicted, quota, low, incoming, used);
          ShrunkTransitive(start, g, h);
          OrderedShrinks(start, g, h, types, order);
          used := used - (if used < bytes then used else bytes);
          evicted := evicted + {path};
        } else {
          EvictingSkips(g, order, i, stuck, evicted, used);
        }
        i := i + 1;
      }
      EvictionOrder(start, Cache(files, snap), types, order, i, stuck, evicted, used);
    }

    /** Sorts the candidates and evicts; `was` is the cache before finished reservations were forgotten. */
    method Relieve(found: seq<Candidate>, incoming: nat, low: nat, counted: nat, types: set<string>,
                   stuck: set<string>, ghost was: Cache, ghost start: Cache)
      returns (used: nat, ghost evicted: set<string>)
      requires Counting(start.reservations) && low < quota && start.files == was.files && SameAccount(was, start)
      requires Collected(start, Cache(files, start.reservations), types, found)
      requires Shrunk(start, Cache(files, start.reservations)) && Charge(Cache(files, start.reservations)) <= counted
      modifies `files, `reservations, `turns, `patience
      ensures Counting(start.reservations) && reservations.Keys == old(reservations.Keys)
      ensures Shrunk(start, Cache(files, start.reservations))
      ensures Charge(Cache(files, start.reservations)) <= used <= counted
      ensures OnlyEvictable(was, types, evicted) && OldestFirst(was, files, types, stuck, evicted)
      ensures NoneLeft(was, files, types, stuck) || patience == 0 || (used <= low && incoming <= quota - used)
      ensures Since(old(files), old(turns), files, turns, evicted) && evicted !! files.Keys
      ensures used + EvictedBytes(was, evicted) == counted && Needed(was, evicted, quota, low, incoming, used)
    {
      hide Good, Charge, Snapshot, Outside, Shrunk, Ordered, Evictable, OldestFirst, OnlyEvictable, NoneLeft,
        ActivePaths, Since, EvictedBytes, Needed, Distinct, Sorted, SameElements, SameAccount;
      ghost var snap := start.reservations;
      var order := Sort(found);
      SortingOrders(start, Cache(files, snap), types, found, order);
      used, evicted := Evict(order, incoming, low, counted, types, stuck, start, snap);
      SameReport(was, start, files, types, stuck, evicted);
      SameNeed(was, start, evicted, quota, low, incoming, used);
    }

    /** Counts usage and, under pressure, evicts; the result bounds the charge from above. */
    method Account(incoming: nat, types: set<string>, target: int, stuck: set<string>)
      returns (ok: bool, used: nat, ghost evicted: set<string>, ghost start: Cache, ghost counted: nat)
      requires Valid() && 1 <= target <= 99 && incoming <= quota && quota > 0
      modifies `files, `reservations, `turns, `patience, `needsLowWater
      ensures Counting(start.reservations) && reservations.Keys <= old(reservations.Keys)
      ensures start.files == old(files) && ActivePaths(start) == ActivePaths(old(View()))
      ensures Shrunk(start, Cache(files, start.reservations))
      ensures Since(old(files), old(turns), files, turns, evicted) && evicted !! files.Keys
      ensures OnlyEvictable(old(View()), types, evicted) && OldestFirst(old(View()), files, types, stuck, evicted)
      ensures evicted != {} ==>
              old(needsLowWater) || Charge(old(View())) + incoming > quota || Charge(old(View())) == quota
      ensures !ok ==> patience == 0 && evicted == {} && needsLowWater == old(needsLowWater)
      ensures ok ==>
                && Charge(Cache(files, start.reservations)) <= used <= quota
                && Settled(old(View()), evicted, quota, LowWater(quota, target), incoming, types, counted, used,
                           old(needsLowWater), needsLowWater)
                && (NoneLeft(old(View()), files, types, stuck) || patience == 0
                    || (used < quota && incoming <= quota - used && !needsLowWater))
    {
      hide Good, Charge, Snapshot, Total, Held, Outside, Shrunk, Collected, OldestFirst, OnlyEvictable, NoneLeft,
        ActivePaths, Since, EvictedBytes, Needed, LowWater;
      ghost var was := View();
      evicted := {};
      var held, active := Tally();
      start := View();
      ghost var snap := reservations;
      TallyKeeps(was, start);
      var found;
      ok, used, found := Scan(types, active, held, snap);
      counted := used;
      NothingEvicted(was, files, types, stuck);
      EvictedNone(was);
      if ok && (used >= quota || incoming > quota - used || needsLowWater) {
        var low := LowWater(quota, target);
        LowWaterIsFloor(quota, target);
        ghost var scanned, ahead := files, turns;
        used, evicted := Relieve(found, incoming, low, used, types, stuck, was, start);
        SinceTransitive(was.files, old(turns), scanned, ahead, files, turns, {}, evicted);
        assert {} + evicted == evicted;
        needsLowWater := types != {} && used > low;
      }
    }

    /**
     Reserves space for an automatic transfer to a free path, or says why not. Usage as counted and what is
     left of it after evictions decide; nothing else happens to the files.
     */
    method Acquire(path: string, incoming: nat, current: nat, types: set<string>, target: int, stuck: set<string>)
      returns (r: Admission, ghost evicted: set<string>, ghost counted: nat, ghost used: nat)
      requires Valid() && Free(View(), path)
      modifies `files, `reservations, `turns, `patience, `needsLowWater, `next
      ensures Valid()
      ensures r.Admitted? ==>
                && r.id == old(next) && r.id in reservations && reservations[r.id] == Reservation(path, r.limit, false)
                && 0 < r.limit && (current > 0 ==> r.limit <= current)
                && (incoming > 0 ==> r.limit <= incoming && (current == 0 ==> r.limit == incoming))
      ensures !r.Admitted? ==> reservations.Keys <= old(reservations.Keys)
      ensures Since(old(files), old(turns), files, turns, evicted) && evicted !! files.Keys
      ensures r.Cancelled? ==> patience == 0
      ensures r.Unlimited? <==> old(patience) > 0 && quota == 0
      ensures r.InvalidTarget? <==> old(patience) > 0 && quota > 0 && !(1 <= target <= 99)
      ensures r.Unlimited? || r.InvalidTarget? || incoming > quota ==> View() == old(View()) && turns == old(turns)
      ensures r.Admitted? || (r.Paused? && incoming <= quota) ==>
                && Settled(old(View()), evicted, quota, LowWater(quota, target), incoming, types, counted, used,
                           old(needsLowWater), needsLowWater)
                && Charge(View()) <= used + (if r.Admitted? then r.limit else 0) && used <= quota
                && (r.Paused? <==> used == quota || incoming > quota - used || needsLowWater)
                && (r.Admitted? ==> r.limit == LimitOf(quota - used, incoming, current))
      ensures r.Admitted? && (evicted != {} || (types != {} && old(needsLowWater))) ==>
                Charge(View()) <= LowWater(quota, target) + r.limit
      ensures evicted != {} ==>
              old(needsLowWater) || Charge(old(View())) + incoming > quota || Charge(old(View())) == quota
      ensures OnlyEvictable(old(View()), types, evicted)
      ensures OldestFirst(old(View()), files, types, stuck, evicted)
      ensures r.Paused? && incoming <= quota ==> NoneLeft(old(View()), files, types, stuck)
    {
      hide Good, Charge, Snapshot, Outside, Shrunk, OldestFirst, OnlyEvictable, NoneLeft, ActivePaths, LowWater,
        Since, EvictedBytes, Needed;
      evicted, counted, used := {}, 0, 0;
      ghost var was := View();
      NothingEvicted(was, files, types, stuck);
      SinceNow(files, turns);
      if patience == 0 {
        return Cancelled, evicted, counted, used;
      }
      if quota == 0 {
        needsLowWater := false;
        return Unlimited, evicted, counted, used;
      }
      if target < 1 || target > 99 {
        return InvalidTarget, evicted, counted, used;
      }
      if incoming > quota {
        return Paused, evicted, counted, used;
      }
      ghost var start;
      var ok, usage;
      ok, usage, evicted, start, counted := Account(incoming, types, target, stuck);
      used := usage;
      if evicted != {} {
        EvictedKinds(was, types, evicted);
      }
      if !ok || patience == 0 {
        return Cancelled, evicted, counted, used;
      }
      if usage >= quota || incoming > quota - usage || needsLowWater {
        SnapshotCharge(Cache(files, start.reservations), View());
        return Paused, evicted, counted, used;
      }
      var limit := quota - usage;
      if incoming > 0 && incoming < limit {
        limit := incoming;
      }
      if current > 0 && current < limit {
        limit := current;
      }
      var id := next;
      Reserve(path, limit, usage, start);
      return Admitted(id, limit), evicted, counted, used;
    }

    method Reserve(path: string, limit: nat, used: nat, ghost start: Cache)
      requires Counting(start.reservations) && Free(start, path) && Shrunk(start, Cache(files, start.reservations))
      requires Charge(Cache(files, start.reservations)) <= used && used + limit <= quota
      modifies `reservations, `next
      ensures Valid() && next == old(next) + 1 && Charge(View()) <= used + limit
      ensures reservations == old(reservations)[old(next) := Reservation(path, limit, false)]
    {
      hide Good, Charge, Outside, ActivePaths;
      SnapshotCharge(Cache(files, start.reservations), View());
      StillFree(start, Cache(files, start.reservations), View(), path);
      ReserveCharge(View(), next, path, limit);
      reservations := reservations[next := Reservation(path, limit, false)];
      next := next + 1;
    }
  }

  // ----- adding up reservations -----

  function RunningOf(c: Cache): map<nat, Reservation> {
    map id | id in c.reservations && !c.reservations[id].finished :: c.reservations[id]
  }

  /** The reservations once the finished ones among `done` are gone. */
  ghost function Dropped(c: Cache, done: set<nat>): map<nat, Reservation> {
    map id | id in c.reservations && !(id in done && c.reservations[id].finished) :: c.reservations[id]
  }

  ghost function PathsOf(c: Cache, done: set<nat>): set<string> {
    set id | id in done && Running(c, id) :: c.reservations[id].path
  }

  lemma TallyNext(c: Cache, done: set<nat>, id: nat)
    requires id in c.reservations && id !in done
    ensures var more, r := done + {id}, c.reservations[id];
            && id in Dropped(c, done) && Dropped(c, done)[id] == r
            && Dropped(c, more) == (if r.finished then Dropped(c, done) - {id} else Dropped(c, done))
            && Total(Restrict(Held(c), more)) == Total(Restrict(Held(c), done)) + (if r.finished then 0 else r.bytes)
            && PathsOf(c, more) == PathsOf(c, done) + (if r.finished then {} else {r.path})
  {
    hide Total;
    var more, r := done + {id}, c.reservations[id];
    assert Dropped(c, more) == if r.finished then Dropped(c, done) - {id} else Dropped(c, done);
    if r.finished {
      assert Restrict(Held(c), more) == Restrict(Held(c), done);
    } else {
      assert Restrict(Held(c), more) == Restrict(Held(c), done)[id := r.bytes];
      TotalInsert(Restrict(Held(c), done), id, r.bytes);
    }
  }

  lemma TallyEnd(c: Cache, done: set<nat>)
    requires done == c.reservations.Keys
    ensures Dropped(c, done) == RunningOf(c) && Restrict(Held(c), done) == Held(c) && PathsOf(c, done) == ActivePaths(c)
    ensures SameAccount(c, c.(reservations := RunningOf(c)))
  {
    hide Total;
    var d := c.(reservations := RunningOf(c));
    assert forall id :: Running(c, id) <==> Running(d, id);
    assert Held(d) == Held(c);
    SameActive(c, d);
  }

  lemma TallyKeeps(was: Cache, start: Cache)
    requires start == was.(reservations := RunningOf(was)) && Good(was)
    ensures SameAccount(was, start) && Good(start) && Snapshot(start, start) && Shrunk(start, start)
  {
    hide Good, Charge, Outside;
    TallyEnd(was, was.reservations.Keys);
  }

  /** Forgetting finished reservations changes no count. */
  ghost predicate SameAccount(c: Cache, d: Cache) {
    && Held(d) == Held(c) && ActivePaths(d) == ActivePaths(c) && Outside(d) == Outside(c)
    && Charge(d) == Charge(c) && (Good(c) ==> Good(d))
  }

  lemma SameActive(c: Cache, d: Cache)
    requires d == c.(reservations := RunningOf(c))
    ensures ActivePaths(d) == ActivePaths(c) && Outside(d) == Outside(c) && (Good(c) ==> Good(d))
  {
    assert forall id :: Running(c, id) <==> Running(d, id);
    forall p | p in ActivePaths(c) ensures p in ActivePaths(d) {
      var i :| Running(c, i) && c.reservations[i].path == p;
      assert Running(d, i) && d.reservations[i].path == p;
    }
    assert ActivePaths(d) == ActivePaths(c);
  }
}
