/**
 Token buckets: the pacer that spaces outgoing bytes and the limiter that bounds handshakes per source.
 Times and amounts are real numbers.
 */
module TokenBuckets {
  import opened Octets

  const MINIMUM_BURST := 1500.0
  const BUCKETS := 4096
  const TICKS_PER_SECOND := 1000000000.0

  datatype Bucket = Bucket(capacity: real, rate: real, available: real, last: real)

  ghost predicate Inv(b: Bucket)
  {
    0.0 <= b.available <= b.capacity && b.rate >= 0.0
  }

  /** What flows in at a rate over a time. */
  function Flow(rate: real, time: real): (r: real)
  {
    rate * time
  }

  function Refilled(b: Bucket, now: real): (r: Bucket)
  {
    if now <= b.last then b
    else
      var grown := b.available + Flow(b.rate, now - b.last);
      b.(available := if b.capacity < grown then b.capacity else grown, last := now)
  }

  /** Takes the amount when it is there. With `escape`, an amount no full bucket could cover is let through and
      empties the bucket. */
  function Requested(b: Bucket, amount: real, now: real, escape: bool): (r: (Bucket, bool))
  {
    var b := Refilled(b, now);
    if escape && amount > b.capacity then (b.(available := 0.0), true)
    else if b.available < amount then (b, false)
    else (b.(available := b.available - amount), true)
  }

  /** An amount is let through exactly when what was left and what has flowed in since, up to the capacity, cover it, or
      by the escape; what is let through is taken out, and nothing else. */
  lemma AdmittedExactly(b: Bucket, amount: real, now: real, escape: bool)
    requires Inv(b)
    ensures var flowed := if now <= b.last then 0.0 else Flow(b.rate, now - b.last);
            var there := if b.available + flowed < b.capacity then b.available + flowed else b.capacity;
            var (r, ok) := Requested(b, amount, now, escape);
            && (ok <==> amount <= there || (escape && amount > b.capacity))
            && r.available == (if amount <= there then there - amount else if ok then 0.0 else there)
            && r.capacity == b.capacity && r.rate == b.rate && r.last == if now <= b.last then b.last else now
  {
    hide Flow;
    if now > b.last { NonNegative(b.rate, now - b.last); }
  }

  datatype Request = Request(amount: real, now: real)

  ghost predicate Ordered(requests: seq<Request>)
  {
    && (forall i :: 0 <= i < |requests| ==> requests[i].amount >= 0.0)
    && forall i, j :: 0 <= i < j < |requests| ==> requests[i].now <= requests[j].now
  }

  /** What a request counts for: nothing when refused or let through by the escape. */
  function Counted(b: Bucket, r: Request, escape: bool): (n: real)
  {
    if Requested(b, r.amount, r.now, escape).1 && !(escape && r.amount > b.capacity) then r.amount else 0.0
  }

  function After(b: Bucket, requests: seq<Request>, escape: bool): (r: Bucket)
    decreases |requests|
  {
    if |requests| == 0 then b
    else After(Requested(b, requests[0].amount, requests[0].now, escape).0, requests[1..], escape)
  }

  function Spent(b: Bucket, requests: seq<Request>, escape: bool): (n: real)
    decreases |requests|
  {
    if |requests| == 0 then 0.0
    else Counted(b, requests[0], escape)
         + Spent(Requested(b, requests[0].amount, requests[0].now, escape).0, requests[1..], escape)
  }

  lemma Distribute(rate: real, x: real, y: real, z: real)
    ensures Flow(rate, z - x) == Flow(rate, z - y) + Flow(rate, y - x)
  {
  }

  lemma NonNegative(rate: real, x: real)
    requires rate >= 0.0 && x >= 0.0
    ensures Flow(rate, x) >= 0.0
  {
  }

  /** One request: what it takes and what is left is no more than what was there and what has flowed in, nor
      more than the capacity. */
  lemma RequestBound(b: Bucket, r: Request, escape: bool)
    requires Inv(b) && r.amount >= 0.0 && b.last <= r.now
    ensures var c := Requested(b, r.amount, r.now, escape).0;
            && Inv(c) && c.last == r.now && c.capacity == b.capacity && c.rate == b.rate
            && Counted(b, r, escape) + c.available <= b.available + Flow(b.rate, r.now - b.last)
            && Counted(b, r, escape) + c.available <= b.capacity
  {
    hide Flow;
    NonNegative(b.rate, r.now - b.last);
    NoTime(b.rate);
  }

  lemma RefillKeepsInv(b: Bucket, now: real)
    requires Inv(b)
    ensures Inv(Refilled(b, now))
  {
    hide Flow;
    if now > b.last { NonNegative(b.rate, now - b.last); }
  }

  lemma {:induction false} RunBound(b: Bucket, requests: seq<Request>, escape: bool)
    requires Inv(b) && Ordered(requests) && |requests| > 0 && b.last <= requests[0].now
    ensures Spent(b, requests, escape) <= b.available + Flow(b.rate, requests[|requests| - 1].now - b.last)
    decreases |requests|
  {
    hide Requested, Counted, Flow;
    var r := requests[0];
    var c := Requested(b, r.amount, r.now, escape).0;
    RequestBound(b, r, escape);
    if |requests| > 1 {
      RunBound(c, requests[1..], escape);
      assert requests[1..][|requests| - 2] == requests[|requests| - 1];
      Distribute(b.rate, b.last, r.now, requests[|requests| - 1].now);
    }
  }

  /** Whatever has happened before, what is admitted between two requests is at most the capacity plus the rate
      times the time between them. */
  lemma AdmissionBound(b: Bucket, requests: seq<Request>, escape: bool)
    requires Inv(b) && Ordered(requests) && |requests| > 0 && b.last <= requests[0].now
    ensures Spent(b, requests, escape) <= b.capacity + Flow(b.rate, requests[|requests| - 1].now - requests[0].now)
  {
    hide Requested, Counted, Flow;
    var r := requests[0];
    var c := Requested(b, r.amount, r.now, escape).0;
    NoTime(b.rate);
    RequestBound(b, r, escape);
    if |requests| > 1 {
      RunBound(c, requests[1..], escape);
      assert requests[1..][|requests| - 2] == requests[|requests| - 1];
    }
  }

  lemma {:induction false} AfterIsSound(b: Bucket, requests: seq<Request>, escape: bool)
    requires Inv(b) && Ordered(requests) && (|requests| > 0 ==> b.last <= requests[0].now)
    ensures var c := After(b, requests, escape);
            && Inv(c) && c.capacity == b.capacity && c.rate == b.rate
            && c.last == if |requests| == 0 then b.last else requests[|requests| - 1].now
    decreases |requests|
  {
    hide Requested, Flow;
    if |requests| > 0 {
      RequestBound(b, requests[0], escape);
      AfterIsSound(Requested(b, requests[0].amount, requests[0].now, escape).0, requests[1..], escape);
    }
  }

  /** The bound holds for every window of a run. */
  lemma WindowBound(b: Bucket, requests: seq<Request>, i: nat, j: nat, escape: bool)
    requires Inv(b) && Ordered(requests) && i < j <= |requests| && b.last <= requests[0].now
    ensures Spent(After(b, requests[..i], escape), requests[i..j], escape)
         <= b.capacity + Flow(b.rate, requests[j - 1].now - requests[i].now)
  {
    hide After, Spent, Flow;
    var before, window := requests[..i], requests[i..j];
    assert Ordered(before) && Ordered(window);
    assert i > 0 ==> before[0] == requests[0] && before[i - 1] == requests[i - 1];
    AfterIsSound(b, before, escape);
    assert window[0] == requests[i] && window[|window| - 1] == requests[j - 1];
    AdmissionBound(After(b, before, escape), window, escape);
  }

  // ----- the delay until a packet may go -----

  function DelayFor(b: Bucket, amount: real, now: real): (d: real)
  {
    var b := Refilled(b, now);
    if amount > b.capacity || b.available >= amount || b.rate <= 0.0 then 0.0 else (amount - b.available) / b.rate
  }

  lemma DivideBack(n: real, rate: real)
    requires rate > 0.0
    ensures Flow(rate, n / rate) == n
  {
  }

  lemma Monotone(rate: real, x: real, y: real)
    requires rate > 0.0
    ensures x < y <==> Flow(rate, x) < Flow(rate, y)
  {
  }

  lemma NoTime(rate: real)
    ensures Flow(rate, 0.0) == 0.0
  {
  }

  /** The packet is admitted after exactly that delay, and at no time before it. */
  lemma DelayIsExact(b: Bucket, amount: real, now: real, later: real)
    requires Inv(b) && b.rate > 0.0 && 0.0 <= amount <= b.capacity && b.last <= now <= later
    ensures Requested(Refilled(b, now), amount, later, true).1 <==> now + DelayFor(b, amount, now) <= later
  {
    hide Flow;
    var c := Refilled(b, now);
    NonNegative(b.rate, now - b.last);
    NonNegative(b.rate, later - now);
    assert Inv(c) && c.last == now && c.rate == b.rate && c.capacity == b.capacity;
    if c.available < amount {
      var wait := (amount - c.available) / c.rate;
      DivideBack(amount - c.available, c.rate);
      Monotone(c.rate, later - now, wait);
      Monotone(c.rate, 0.0, wait);
      NoTime(c.rate);
      assert wait > 0.0;
      assert DelayFor(b, amount, now) == wait;
      assert later - now < wait <==> c.available + Flow(c.rate, later - now) < amount;
    }
  }

  /** A time cut down to whole ticks of the clock. */
  function InTicks(time: real): (r: real)
    ensures r <= time < r + 1.0 / TICKS_PER_SECOND
    ensures time >= 0.0 ==> r >= 0.0
  {
    (time * TICKS_PER_SECOND).Floor as real / TICKS_PER_SECOND
  }

  /** The delay is handed out in whole ticks of the clock. At the time it names the packet is admitted only if nothing
      was cut off; never before it, and always one tick after it. */
  lemma TruncatedDelay(b: Bucket, amount: real, now: real, later: real)
    requires Inv(b) && b.rate > 0.0 && 0.0 <= amount <= b.capacity && b.last <= now <= later
    ensures var exact := DelayFor(b, amount, now);
            var admitted := Requested(Refilled(b, now), amount, later, true).1;
            && (later < now + InTicks(exact) ==> !admitted)
            && (later == now + InTicks(exact) ==> (admitted <==> InTicks(exact) == exact))
            && (now + InTicks(exact) + 1.0 / TICKS_PER_SECOND <= later ==> admitted)
  {
    hide Flow, Inv, Requested, Refilled, DelayFor, InTicks;
    DelayIsExact(b, amount, now, later);
  }

  /** A third of a second is not a whole number of ticks: after the delay handed out the octet is still refused. */
  lemma DelayCanFallShort()
    ensures var b := Bucket(MINIMUM_BURST, 3.0, 0.0, 0.0);
            Inv(b) && !Requested(b, 1.0, InTicks(DelayFor(b, 1.0, 0.0)), true).1
  {
    var b := Bucket(MINIMUM_BURST, 3.0, 0.0, 0.0);
    assert DelayFor(b, 1.0, 0.0) == 1.0 / 3.0;
    assert (1.0 / 3.0 * TICKS_PER_SECOND).Floor == 333333333;
  }

  // ----- one bucket per group of sources -----

  /** A source is served by the bucket its address hashes to. */
  function IndexOf(hash: nat): (i: nat)
    ensures i < BUCKETS
  {
    hash % BUCKETS
  }

  datatype Limiter = Limiter(burst: real, rate: real, buckets: seq<Option<Bucket>>)

  ghost predicate LimiterInv(l: Limiter, now: real)
  {
    && l.burst >= 0.0 && l.rate >= 0.0 && |l.buckets| == BUCKETS
    && forall k :: 0 <= k < BUCKETS && l.buckets[k].Some? ==>
         var b := l.buckets[k].value;
         Inv(b) && b.capacity == l.burst && b.rate == l.rate && b.last <= now
  }

  /** A bucket is full when it is first used. */
  function BucketAt(l: Limiter, k: nat, now: real): (b: Bucket)
    requires k < |l.buckets|
  {
    match l.buckets[k]
    case None => Bucket(l.burst, l.rate, l.burst, now)
    case Some(b) => b
  }

  datatype Call = Call(hash: nat, now: real)

  function Asked(l: Limiter, call: Call): (r: (Limiter, bool))
    requires |l.buckets| == BUCKETS
    ensures |r.0.buckets| == BUCKETS
  {
    var k := IndexOf(call.hash);
    var (b, ok) := Requested(BucketAt(l, k, call.now), 1.0, call.now, false);
    (l.(buckets := l.buckets[k := Some(b)]), ok)
  }

  /** A call is allowed exactly when its source's bucket, full at first use, holds a whole token after what has flowed
      in since; it costs that one token, and no other bucket changes. */
  lemma AllowedExactly(l: Limiter, call: Call, before: real)
    requires LimiterInv(l, before) && before <= call.now
    ensures var (m, ok) := Asked(l, call);
            var k := call.hash % 4096;
            var there := match l.buckets[k]
                         case None => l.burst
                         case Some(b) =>
                           var grown := b.available + Flow(l.rate, call.now - b.last);
                           if grown < l.burst then grown else l.burst;
            && (ok <==> there >= 1.0) && m.buckets[k].Some?
            && m.buckets[k].value.available == there - (if ok then 1.0 else 0.0)
            && forall j :: 0 <= j < 4096 && j != k ==> m.buckets[j] == l.buckets[j]
  {
    hide Requested, Flow;
    var b := BucketAt(l, IndexOf(call.hash), call.now);
    assert Inv(b) && b.capacity == l.burst && b.rate == l.rate && b.last <= call.now;
    NoTime(l.rate);
    if call.now > b.last { NonNegative(b.rate, call.now - b.last); }
    AdmittedExactly(b, 1.0, call.now, false);
  }

  /** How many of the calls served by bucket `k` are allowed. */
  function AllowedBy(l: Limiter, calls: seq<Call>, k: nat): (n: nat)
    requires |l.buckets| == BUCKETS
    decreases |calls|
  {
    if |calls| == 0 then 0
    else (if IndexOf(calls[0].hash) == k && Asked(l, calls[0]).1 then 1 else 0)
         + AllowedBy(Asked(l, calls[0]).0, calls[1..], k)
  }

  /** How many of the calls from one source are allowed. */
  function AllowedFrom(l: Limiter, calls: seq<Call>, hash: nat): (n: nat)
    requires |l.buckets| == BUCKETS
    decreases |calls|
  {
    if |calls| == 0 then 0
    else (if calls[0].hash == hash && Asked(l, calls[0]).1 then 1 else 0)
         + AllowedFrom(Asked(l, calls[0]).0, calls[1..], hash)
  }

  ghost predicate CallsOrdered(calls: seq<Call>)
  {
    forall i, j :: 0 <= i < j < |calls| ==> calls[i].now <= calls[j].now
  }

  /** A call on bucket `k` takes from it what was there or has flowed in; other calls leave it alone. */
  lemma AskedBound(l: Limiter, call: Call, now: real)
    requires LimiterInv(l, now) && now <= call.now
    ensures var (m, ok) := Asked(l, call);
            var k := IndexOf(call.hash);
            var b := BucketAt(l, k, call.now);
            && LimiterInv(m, call.now) && m.burst == l.burst && m.rate == l.rate && m.buckets[k].Some?
            && m.buckets[k].value.last == call.now
            && (if ok then 1.0 else 0.0) + m.buckets[k].value.available <= b.available + Flow(l.rate, call.now - b.last)
            && (if ok then 1.0 else 0.0) + m.buckets[k].value.available <= l.burst
            && forall j :: 0 <= j < BUCKETS && j != k ==> m.buckets[j] == l.buckets[j]
  {
    hide Requested, Flow;
    var k := IndexOf(call.hash);
    var b := BucketAt(l, k, call.now);
    RequestBound(b, Request(1.0, call.now), false);
    CountedOne(b, call.now);
  }

  lemma CountedOne(b: Bucket, now: real)
    ensures Counted(b, Request(1.0, now), false) == if Requested(b, 1.0, now, false).1 then 1.0 else 0.0
  {
    hide Requested;
  }

  /** From a bucket in use no more is allowed than it holds and what flows in. */
  lemma {:induction false} InUseBound(l: Limiter, calls: seq<Call>, k: nat, now: real)
    requires LimiterInv(l, now) && CallsOrdered(calls) && k < BUCKETS && l.buckets[k].Some?
    requires |calls| > 0 && now <= calls[0].now
    ensures AllowedBy(l, calls, k) as real
         <= l.buckets[k].value.available + Flow(l.rate, calls[|calls| - 1].now - l.buckets[k].value.last)
    decreases |calls|
  {
    hide Asked, LimiterInv, Flow;
    LimiterFacts(l, now, k);
    var b, end := l.buckets[k].value, calls[|calls| - 1].now;
    var m := Asked(l, calls[0]).0;
    AskedBound(l, calls[0], now);
    Distribute(l.rate, b.last, calls[0].now, end);
    LimiterFacts(m, calls[0].now, k);
    NonNegative(l.rate, calls[0].now - b.last);
    if |calls| > 1 {
      assert calls[1..][|calls| - 2] == calls[|calls| - 1];
      InUseBound(m, calls[1..], k, calls[0].now);
    }
  }

  lemma LimiterFacts(l: Limiter, now: real, k: nat)
    requires LimiterInv(l, now) && k < BUCKETS
    ensures l.burst >= 0.0 && l.rate >= 0.0 && |l.buckets| == BUCKETS
    ensures l.buckets[k].Some? ==> l.buckets[k].value.last <= now && l.buckets[k].value.available >= 0.0
  {
  }

  /** Through one bucket, between any two calls, no more is allowed than the burst plus the rate times the time
      between them. */
  lemma {:induction false} BucketBound(l: Limiter, calls: seq<Call>, k: nat, now: real)
    requires LimiterInv(l, now) && CallsOrdered(calls) && k < BUCKETS && |calls| > 0 && now <= calls[0].now
    ensures AllowedBy(l, calls, k) as real <= l.burst + Flow(l.rate, calls[|calls| - 1].now - calls[0].now)
    decreases |calls|
  {
    hide Asked, LimiterInv, Flow;
    LimiterFacts(l, now, k);
    var m := Asked(l, calls[0]).0;
    AskedBound(l, calls[0], now);
    LimiterFacts(m, calls[0].now, k);
    NoTime(l.rate);
    if |calls| > 1 { RestBound(l, calls, k, now); }
  }

  lemma AllowedStep(l: Limiter, calls: seq<Call>, k: nat)
    requires |l.buckets| == BUCKETS && |calls| > 0
    ensures AllowedBy(l, calls, k) as real
         == (if IndexOf(calls[0].hash) == k && Asked(l, calls[0]).1 then 1.0 else 0.0)
            + AllowedBy(Asked(l, calls[0]).0, calls[1..], k) as real
  {
    hide Asked;
  }

  lemma RestBound(l: Limiter, calls: seq<Call>, k: nat, now: real)
    requires LimiterInv(l, now) && CallsOrdered(calls) && k < BUCKETS && |calls| > 1 && now <= calls[0].now
    ensures AllowedBy(l, calls, k) as real <= l.burst + Flow(l.rate, calls[|calls| - 1].now - calls[0].now)
    decreases |calls|, 0
  {
    hide Asked, LimiterInv, AllowedBy, BucketAt, IndexOf, Flow;
    LimiterFacts(l, now, k);
    AskedBound(l, calls[0], now);
    AllowedStep(l, calls, k);
    var m, rest, end := Asked(l, calls[0]).0, calls[1..], calls[|calls| - 1].now;
    assert rest[|rest| - 1] == calls[|calls| - 1] && CallsOrdered(rest);
    if IndexOf(calls[0].hash) == k {
      InUseBound(m, rest, k, calls[0].now);
    } else {
      BucketBound(m, rest, k, calls[0].now);
      Distribute(l.rate, calls[0].now, rest[0].now, end);
      NonNegative(l.rate, rest[0].now - calls[0].now);
    }
  }

  lemma {:induction false} SourceWithinBucket(l: Limiter, calls: seq<Call>, hash: nat)
    requires |l.buckets| == BUCKETS
    ensures AllowedFrom(l, calls, hash) <= AllowedBy(l, calls, IndexOf(hash))
    decreases |calls|
  {
    hide Asked;
    if |calls| > 0 { SourceWithinBucket(Asked(l, calls[0]).0, calls[1..], hash); }
  }

  /** The bound carries over to each source. */
  lemma SourceBound(l: Limiter, calls: seq<Call>, hash: nat, now: real)
    requires LimiterInv(l, now) && CallsOrdered(calls) && |calls| > 0 && now <= calls[0].now
    ensures AllowedFrom(l, calls, hash) as real <= l.burst + Flow(l.rate, calls[|calls| - 1].now - calls[0].now)
  {
    SourceWithinBucket(l, calls, hash);
    BucketBound(l, calls, IndexOf(hash), now);
  }

  // ----- the classes -----

  class Pacer {
    var rate: real
    const capacity: real
    var available: real
    var last: real
    const enabled: bool
    var pacedBytes: nat
    var deferred: nat

    ghost function Model(): (b: Bucket)
      reads this
    {
      Bucket(capacity, rate, available, last)
    }

    ghost predicate Valid()
      reads this
    {
      enabled ==> Inv(Model()) && rate > 0.0
    }

    constructor (rate: real, burst: nat, now: real)
      ensures Valid() && (enabled <==> rate > 0.0) && available == capacity && last == now && this.rate == rate
      ensures capacity == if burst as real < MINIMUM_BURST then MINIMUM_BURST else burst as real
    {
      this.rate := rate;
      var size := if burst as real < MINIMUM_BURST then MINIMUM_BURST else burst as real;
      capacity, available, last := size, size, now;
      enabled := rate > 0.0;
      pacedBytes, deferred := 0, 0;
    }

    method Refill(now: real)
      requires Valid()
      modifies this`available, this`last
      ensures Model() == Refilled(old(Model()), now)
    {
      if now <= last { return; }
      var grown := available + Flow(rate, now - last);
      available := if capacity < grown then capacity else grown;
      last := now;
    }

    method Allow(bytes: nat, now: real) returns (ok: bool)
      requires Valid()
      modifies this
      ensures Valid() && rate == old(rate)
      ensures !enabled ==> ok && Model() == old(Model())
      ensures enabled ==> (Model(), ok) == Requested(old(Model()), bytes as real, now, true)
      ensures pacedBytes == old(pacedBytes) + if enabled && ok then bytes else 0
      ensures deferred == old(deferred) + if ok then 0 else 1
    {
      if !enabled { return true; }
      RefillKeepsInv(Model(), now);
      Refill(now);
      var needed := bytes as real;
      if needed > capacity {
        available := 0.0;
        pacedBytes := pacedBytes + bytes;
        return true;
      }
      if available < needed {
        deferred := deferred + 1;
        return false;
      }
      available := available - needed;
      pacedBytes := pacedBytes + bytes;
      return true;
    }

    method DelayUntil(bytes: nat, now: real) returns (delay: real)
      requires Valid()
      modifies this`available, this`last
      ensures Valid()
      ensures !enabled ==> delay == 0.0 && Model() == old(Model())
      ensures enabled ==>
                Model() == Refilled(old(Model()), now) && delay == InTicks(DelayFor(old(Model()), bytes as real, now))
    {
      if !enabled { return 0.0; }
      RefillKeepsInv(Model(), now);
      Refill(now);
      var needed := bytes as real;
      if needed > capacity || available >= needed { return 0.0; }
      if rate <= 0.0 { return 0.0; }
      return InTicks((needed - available) / rate);
    }
  }

  class SourceRateLimiter {
    const burst: real
    const perSecond: real
    var buckets: seq<Option<Bucket>>
    var allowed: nat
    var rejected: nat

    ghost function Model(): (l: Limiter)
      reads this
    {
      Limiter(burst, perSecond, buckets)
    }

    constructor (burst: real, perSecond: real)
      requires burst >= 0.0 && perSecond >= 0.0
      ensures forall now: real :: LimiterInv(Model(), now)
      ensures allowed == rejected == 0
    {
      this.burst, this.perSecond := burst, perSecond;
      buckets := seq(BUCKETS, _ => None);
      allowed, rejected := 0, 0;
    }

    method Allow(hash: nat, now: real, ghost before: real) returns (ok: bool)
      requires LimiterInv(Model(), before) && before <= now
      modifies this
      ensures LimiterInv(Model(), now)
      ensures (Model(), ok) == Asked(old(Model()), Call(hash, now))
      ensures allowed + rejected == old(allowed + rejected) + 1 && allowed == old(allowed) + if ok then 1 else 0
    {
      hide Requested, LimiterInv;
      AskedBound(Model(), Call(hash, now), before);
      SizeIs(Model(), before);
      var k := IndexOf(hash);
      var bucket := if buckets[k].None? then Bucket(burst, perSecond, burst, now) else buckets[k].value;
      var (left, granted) := Requested(bucket, 1.0, now, false);
      buckets := buckets[k := Some(left)];
      if granted {
        allowed := allowed + 1;
        return true;
      }
      rejected := rejected + 1;
      return false;
    }
  }

  lemma SizeIs(l: Limiter, now: real)
    requires LimiterInv(l, now)
    ensures |l.buckets| == BUCKETS
  {
  }
}
