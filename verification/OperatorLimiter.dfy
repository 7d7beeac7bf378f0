/** The operator's token buckets, with time in seconds and exact arithmetic. */
module OperatorLimiter {
  import opened Sums

  datatype Bucket = Bucket(tokens: real, at: real)

  const MAX_PEERS: nat := 1024
  const IDLE_LIMIT: real := 600.0

  function Min(a: real, b: real): real {
    if a < b then a else b
  }

  /** What a bucket refills in some seconds. */
  function Gain(capacity: real, seconds: real): real {
    seconds * capacity / 60.0
  }

  /** Tokens after some time: refilled at the capacity per minute, never above it. */
  function Refilled(capacity: real, b: Bucket, now: real): real {
    Min(capacity, b.tokens + Gain(capacity, now - b.at))
  }

  /** What a peer can spend at a moment, whether or not it still has a bucket. */
  function Available(capacity: real, buckets: map<string, Bucket>, key: string, now: real): real {
    if key in buckets then Refilled(capacity, buckets[key], now) else capacity
  }

  function Ceil(x: real): int {
    -((-x).Floor)
  }

  lemma CeilBounds(x: real)
    ensures x <= Ceil(x) as real < x + 1.0
  {
  }

  /** How long a refused peer is told to wait. */
  function Delay(capacity: real, tokens: real): int
    requires capacity > 0.0
  {
    var d := Ceil((1.0 - tokens) * 60.0 / capacity);
    if d < 1 then 1 else d
  }

  lemma GainSum(capacity: real, s: real, t: real)
    ensures Gain(capacity, s + t) == Gain(capacity, s) + Gain(capacity, t)
  {
  }

  lemma GainNonNegative(capacity: real, seconds: real)
    requires seconds >= 0.0 && capacity > 0.0
    ensures Gain(capacity, seconds) >= 0.0
  {
  }

  lemma RefillGrows(capacity: real, b: Bucket, early: real, late: real)
    requires capacity > 0.0 && early <= late
    ensures Refilled(capacity, b, early) <= Refilled(capacity, b, late) <= Refilled(capacity, b, early) +
            Gain(capacity, late - early)
  {
    GainSum(capacity, early - b.at, late - early);
    GainNonNegative(capacity, late - early);
    hide Gain;
    assert late - b.at == (early - b.at) + (late - early);
  }

  /** Ten idle minutes fill any bucket, so forgetting it then changes nothing. */
  lemma IdleIsFull(capacity: real, b: Bucket, now: real)
    requires capacity > 0.0 && b.tokens >= 0.0 && now - b.at > IDLE_LIMIT
    ensures Refilled(capacity, b, now) == capacity
  {
    assert (now - b.at) * capacity >= 60.0 * capacity;
  }

  // ----- one request -----

  type Table = map<string, Bucket>

  function Pruned(buckets: Table, now: real): Table {
    map k | k in buckets && now - buckets[k].at <= IDLE_LIMIT :: buckets[k]
  }

  datatype Step = Step(buckets: Table, wait: int)

  /** `take`: a newcomer first makes the table forget idle peers, and is turned away if it is still full. */
  function Take(capacity: real, buckets: Table, key: string, now: real): Step
    requires capacity > 0.0
  {
    var base := if key in buckets then buckets else Pruned(buckets, now);
    var had := Available(capacity, buckets, key, now);
    if key !in buckets && |base| >= MAX_PEERS then Step(base, 60)
    else if had < 1.0 then Step(base[key := Bucket(had, now)], Delay(capacity, had))
    else Step(base[key := Bucket(had - 1.0, now)], 0)
  }

  ghost predicate WellFormed(capacity: real, buckets: Table, clock: real) {
    && capacity >= 1.0 && |buckets| <= MAX_PEERS
    && (forall k :: k in buckets ==> 0.0 <= buckets[k].tokens <= capacity && buckets[k].at <= clock)
  }

  /** Pruning is unobservable: at any later moment every peer has what it would have had. */
  lemma PruneIsUnobservable(capacity: real, buckets: Table, clock: real, now: real, key: string, later: real)
    requires WellFormed(capacity, buckets, clock) && clock <= now <= later
    ensures Available(capacity, Pruned(buckets, now), key, later) == Available(capacity, buckets, key, later)
  {
    if key in buckets && key !in Pruned(buckets, now) {
      IdleIsFull(capacity, buckets[key], later);
    }
  }

  lemma PrunedSize(buckets: Table, now: real)
    ensures |Pruned(buckets, now)| <= |buckets|
  {
    assert Pruned(buckets, now).Keys <= buckets.Keys;
    SubsetSize(Pruned(buckets, now).Keys, buckets.Keys);
  }

  lemma TakeKeepsTable(capacity: real, buckets: Table, clock: real, key: string, now: real)
    requires WellFormed(capacity, buckets, clock) && clock <= now
    ensures WellFormed(capacity, Take(capacity, buckets, key, now).buckets, now)
  {
    hide Gain, Delay, Available;
    PrunedSize(buckets, now);
    AvailableRange(capacity, buckets, clock, key, now);
    var base := if key in buckets then buckets else Pruned(buckets, now);
    var after := Take(capacity, buckets, key, now).buckets;
    assert forall k :: k in after && k != key ==> k in buckets && after[k] == buckets[k];
    if key in after {
      InsertedSize(base, key, after[key]);
    }
  }

  lemma AvailableRange(capacity: real, buckets: Table, clock: real, key: string, now: real)
    requires WellFormed(capacity, buckets, clock) && clock <= now
    ensures 0.0 <= Available(capacity, buckets, key, now) <= capacity
  {
    hide Gain;
    if key in buckets {
      GainNonNegative(capacity, now - buckets[key].at);
    }
  }

  lemma InsertedSize(buckets: Table, key: string, b: Bucket)
    ensures |buckets[key := b]| == |buckets| + if key in buckets then 0 else 1
  {
    assert buckets[key := b].Keys == buckets.Keys + {key};
  }

  predicate Admitted(capacity: real, buckets: Table, key: string, now: real)
    requires capacity > 0.0
  {
    Take(capacity, buckets, key, now).wait == 0
  }

  /** A request costs its peer one token if it is admitted, and nobody anything else. */
  lemma TakeCost(capacity: real, buckets: Table, clock: real, peer: string, now: real, key: string)
    requires WellFormed(capacity, buckets, clock) && clock <= now
    ensures Available(capacity, Take(capacity, buckets, peer, now).buckets, key, now) ==
            Available(capacity, buckets, key, now) -
            if peer == key && Admitted(capacity, buckets, peer, now) then 1.0 else 0.0
  {
    hide Gain, Delay;
    ZeroGain(capacity, now);
    PruneIsUnobservable(capacity, buckets, clock, now, key, now);
    DelayIsPositive(capacity, Available(capacity, buckets, peer, now));
  }

  lemma ZeroGain(capacity: real, now: real)
    ensures Gain(capacity, now - now) == 0.0
  {
  }

  lemma DelayIsPositive(capacity: real, tokens: real)
    requires capacity > 0.0
    ensures Delay(capacity, tokens) >= 1
  {
  }

  // ----- runs -----

  datatype Request = Request(key: string, now: real)

  predicate Ordered(requests: seq<Request>) {
    forall i, j :: 0 <= i < j < |requests| ==> requests[i].now <= requests[j].now
  }

  function AfterFrom(capacity: real, buckets: Table, requests: seq<Request>): Table
    requires capacity > 0.0
    decreases |requests|
  {
    if requests == [] then buckets
    else
      var n := |requests| - 1;
      Take(capacity, AfterFrom(capacity, buckets, requests[..n]), requests[n].key, requests[n].now).buckets
  }

  function After(capacity: real, requests: seq<Request>): Table
    requires capacity > 0.0
  {
    AfterFrom(capacity, map[], requests)
  }

  /** How many of a peer's requests from the `start`-th on were admitted. */
  function Admissions(capacity: real, requests: seq<Request>, start: nat, key: string): nat
    requires capacity > 0.0
    decreases |requests|
  {
    if |requests| <= start then 0
    else
      var n := |requests| - 1;
      var taken := requests[n].key == key && Admitted(capacity, After(capacity, requests[..n]), key, requests[n].now);
      Admissions(capacity, requests[..n], start, key) + if taken then 1 else 0
  }

  lemma {:induction false} AfterIsWellFormed(capacity: real, requests: seq<Request>, clock: real)
    requires capacity >= 1.0 && Ordered(requests) && (requests != [] ==> requests[|requests| - 1].now <= clock)
    ensures WellFormed(capacity, After(capacity, requests), clock)
    decreases |requests|
  {
    if requests != [] {
      var n := |requests| - 1;
      AfterIsWellFormed(capacity, requests[..n], requests[n].now);
      TakeKeepsTable(capacity, After(capacity, requests[..n]), requests[n].now, requests[n].key, requests[n].now);
    }
  }

  /** Tokens spent plus tokens left never exceed tokens had plus tokens refilled. */
  lemma {:induction false} TokensBalance(capacity: real, requests: seq<Request>, start: nat, key: string)
    requires capacity >= 1.0 && Ordered(requests) && start < |requests|
    ensures var first, last := requests[start].now, requests[|requests| - 1].now;
            Admissions(capacity, requests, start, key) as real +
              Available(capacity, After(capacity, requests), key, last) <=
            Available(capacity, After(capacity, requests[..start]), key, first) + Gain(capacity, last - first)
    decreases |requests|
  {
    hide Gain, Take, Available, WellFormed;
    var n := |requests| - 1;
    var before, r := requests[..n], requests[n];
    AfterIsWellFormed(capacity, before, r.now);
    TakeCost(capacity, After(capacity, before), r.now, r.key, r.now, key);
    if n == start {
      assert before == requests[..start];
      assert Admissions(capacity, before, start, key) == 0;
      ZeroGain(capacity, r.now);
    } else {
      TokensBalance(capacity, before, start, key);
      assert before[..start] == requests[..start];
      AvailableGrows(capacity, After(capacity, before), key, before[n - 1].now, r.now);
      GainSum(capacity, before[n - 1].now - requests[start].now, r.now - before[n - 1].now);
      assert r.now - requests[start].now == (before[n - 1].now - requests[start].now) + (r.now - before[n - 1].now);
    }
  }

  lemma AvailableGrows(capacity: real, buckets: Table, key: string, early: real, late: real)
    requires capacity > 0.0 && early <= late
    ensures Available(capacity, buckets, key, late) <= Available(capacity, buckets, key, early) +
            Gain(capacity, late - early)
  {
    GainNonNegative(capacity, late - early);
    hide Gain;
    if key in buckets {
      RefillGrows(capacity, buckets[key], early, late);
    }
  }

  /** In any window a peer gets at most the capacity plus what the window refills, pruning or not. */
  lemma WindowBound(capacity: real, requests: seq<Request>, start: nat, key: string)
    requires capacity >= 1.0 && Ordered(requests) && start < |requests|
    ensures Admissions(capacity, requests, start, key) as real <=
            capacity + Gain(capacity, requests[|requests| - 1].now - requests[start].now)
  {
    hide Gain, Take, After, Admissions;
    var first, last := requests[start].now, requests[|requests| - 1].now;
    TokensBalance(capacity, requests, start, key);
    AfterIsWellFormed(capacity, requests, last);
    var end := After(capacity, requests);
    if key in end {
      GainNonNegative(capacity, last - end[key].at);
    }
  }

  // ----- retries -----

  /** A bucket that other peers' requests leave in the table is as it was. */
  lemma OthersLeaveBucket(capacity: real, buckets: Table, key: string, peer: string, now: real)
    requires capacity > 0.0 && peer != key
    ensures var after := Take(capacity, buckets, peer, now).buckets;
            && (key in after <==> key in buckets && (peer in buckets || now - buckets[key].at <= IDLE_LIMIT))
            && (key in after ==> after[key] == buckets[key])
  {
  }

  /** Any number of other peers' requests change nothing else either, and forget no bucket within ten minutes. */
  lemma {:induction false} OthersLeaveBuckets(capacity: real, buckets: Table, key: string, others: seq<Request>)
    requires capacity > 0.0 && forall r :: r in others ==> r.key != key
    ensures var after := AfterFrom(capacity, buckets, others);
            && (key in after ==> key in buckets && after[key] == buckets[key])
            && (key in buckets && (forall r :: r in others ==> r.now - buckets[key].at <= IDLE_LIMIT) ==> key in after)
    decreases |others|
  {
    hide Take;
    if others != [] {
      var n := |others| - 1;
      OthersLeaveBuckets(capacity, buckets, key, others[..n]);
      OthersLeaveBucket(capacity, AfterFrom(capacity, buckets, others[..n]), key, others[n].key, others[n].now);
    }
  }

  /**
   A refused peer that waits as long as it was told is admitted, whatever other peers asked for in
   between, if and only if it still has its bucket or the table has room; it still has the bucket
   when the others asked within ten minutes of the refusal.
   */
  lemma RetryIsAdmittedIff(
      capacity: real, buckets: Table, clock: real, key: string, now: real, others: seq<Request>, later: real)
    requires WellFormed(capacity, buckets, clock) && clock <= now
    requires forall r :: r in others ==> r.key != key
    requires var wait := Take(capacity, buckets, key, now).wait; wait > 0 && now + wait as real <= later
    ensures var refused := Take(capacity, buckets, key, now).buckets;
            var after := AfterFrom(capacity, refused, others);
            && (Admitted(capacity, after, key, later) <==> key in after || |Pruned(after, later)| < MAX_PEERS)
            && (key in refused && (forall r :: r in others ==> r.now - now <= IDLE_LIMIT) ==> key in after)
  {
    hide Gain, Delay, AfterFrom;
    var refused := Take(capacity, buckets, key, now).buckets;
    OthersLeaveBuckets(capacity, refused, key, others);
    var had := Available(capacity, buckets, key, now);
    assert key in refused ==> refused[key] == Bucket(had, now);
    var after := AfterFrom(capacity, refused, others);
    if key in after {
      WaitRefills(capacity, had, later - now);
    }
    DelayIsPositive(capacity, Available(capacity, after, key, later));
  }

  /** The delay a refused peer is told is long enough for a token. */
  lemma WaitRefills(capacity: real, had: real, time: real)
    requires capacity >= 1.0 && Delay(capacity, had) as real <= time
    ensures had + Gain(capacity, time) >= 1.0
  {
    CeilBounds((1.0 - had) * 60.0 / capacity);
    Refills(capacity, had, time);
  }

  lemma Refills(capacity: real, had: real, time: real)
    requires capacity >= 1.0 && time >= (1.0 - had) * 60.0 / capacity
    ensures had + Gain(capacity, time) >= 1.0
  {
    var need := (1.0 - had) * 60.0 / capacity;
    assert need * capacity == (1.0 - had) * 60.0;
    assert time * capacity >= need * capacity;
  }

  class Limiter {
    var buckets: map<string, Bucket>
    const capacity: real
    /** The latest moment seen. */
    ghost var clock: real

    ghost predicate Valid()
      reads this
    {
      WellFormed(capacity, buckets, clock)
    }

    constructor (capacity: nat, ghost start: real)
      requires capacity >= 1
      ensures Valid() && this.capacity == capacity as real && buckets == map[] && clock == start
    {
      this.capacity := capacity as real;
      buckets := map[];
      clock := start;
    }

    method Prune(now: real)
      modifies `buckets
      ensures buckets == Pruned(old(buckets), now)
    {
      var todo := buckets.Keys;
      while todo != {}
        invariant todo <= buckets.Keys <= old(buckets.Keys)
        invariant forall k :: k in old(buckets) && k !in todo ==>
                  (k in buckets <==> now - old(buckets)[k].at <= IDLE_LIMIT)
        invariant forall k :: k in buckets ==> buckets[k] == old(buckets)[k]
      {
        var peer :| peer in todo;
        if now - buckets[peer].at > IDLE_LIMIT {
          buckets := buckets - {peer};
        }
        todo := todo - {peer};
      }
    }

    /** One request: zero admits it, anything else is how long to wait. */
    method TakeToken(key: string, now: real) returns (wait: int)
      requires Valid() && clock <= now
      modifies this
      ensures Valid() && clock == now && Step(buckets, wait) == Take(capacity, old(buckets), key, now)
    {
      hide Gain, Delay;
      ZeroGain(capacity, now);
      TakeKeepsTable(capacity, buckets, clock, key, now);
      clock := now;
      var bucket: Bucket;
      if key in buckets {
        bucket := buckets[key];
      } else {
        Prune(now);
        if |buckets| >= MAX_PEERS {
          return 60;
        }
        bucket := Bucket(capacity, now);
      }
      bucket := Bucket(Min(capacity, bucket.tokens + Gain(capacity, now - bucket.at)), now);
      if bucket.tokens < 1.0 {
        buckets := buckets[key := bucket];
        return Delay(capacity, bucket.tokens);
      }
      buckets := buckets[key := bucket.(tokens := bucket.tokens - 1.0)];
      return 0;
    }
  }
}
