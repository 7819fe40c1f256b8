// Two-tier rate limiting: a local token bucket per gateway and key, then a counter in Redis that
// all gateways share and that lives for one window.
module RateLimit {
  import opened Sets
  import opened Text

  // ---------- Token bucket ----------

  datatype Bucket = Bucket(capacity: int, tokens: real, lastRefill: real)

  function Full(capacity: int, now: real): Bucket {
    Bucket(capacity, capacity as real, now)
  }

  // What a bucket can gain in a stretch of time.
  function Gain(capacity: int, span: real): real {
    span * capacity as real
  }

  function Refilled(b: Bucket, now: real): real {
    var grown := b.tokens + Gain(b.capacity, now - b.lastRefill);
    if grown < b.capacity as real then grown else b.capacity as real
  }

  predicate Allows(b: Bucket, now: real) {
    Refilled(b, now) >= 1.0
  }

  function After(b: Bucket, now: real): Bucket {
    Bucket(b.capacity, if Allows(b, now) then Refilled(b, now) - 1.0 else Refilled(b, now), now)
  }

  class TokenBucket {
    var capacity: int
    var tokens: real
    var lastRefill: real

    function Value(): Bucket
      reads this
    {
      Bucket(capacity, tokens, lastRefill)
    }

    constructor (capacity: int, now: real)
      ensures Value() == Full(capacity, now)
    {
      this.capacity, tokens, lastRefill := capacity, capacity as real, now;
    }

    method Allow(now: real) returns (ok: bool)
      modifies this
      ensures ok == Allows(old(Value()), now)
      ensures Value() == After(old(Value()), now)
    {
      var elapsed := now - lastRefill;
      var grown := tokens + elapsed * capacity as real;
      tokens := if grown < capacity as real then grown else capacity as real;
      lastRefill := now;
      if tokens >= 1.0 {
        tokens := tokens - 1.0;
        return true;
      }
      return false;
    }
  }

  // The buckets of one gateway. A missing bucket starts with the default capacity of 10 and is
  // replaced at once when the tenant's rate differs, so the default never shows.
  class Gateway {
    var buckets: map<string, Bucket>

    method LocalTier(key: string, rps: int, now: real) returns (ok: bool)
      modifies this
      ensures var b := if key in old(buckets) && old(buckets)[key].capacity == rps then old(buckets)[key]
              else Full(rps, now);
              ok == Allows(b, now) && buckets == old(buckets)[key := After(b, now)]
    {
      if key !in buckets {
        buckets := buckets[key := Full(10, now)];
      }
      if buckets[key].capacity != rps {
        buckets := buckets[key := Full(rps, now)];
      }
      ok := Allows(buckets[key], now);
      buckets := buckets[key := After(buckets[key], now)];
    }
  }

  // ---------- Runs of one bucket ----------

  // Call times that never go back.
  ghost predicate Ordered(from: real, times: seq<real>)
    decreases |times|
  {
    times == [] || (from <= times[0] && Ordered(times[0], times[1..]))
  }

  ghost function Left(b: Bucket, times: seq<real>): Bucket
    decreases |times|
  {
    if times == [] then b else Left(After(b, times[0]), times[1..])
  }

  ghost function Count(b: Bucket, times: seq<real>): nat
    decreases |times|
  {
    if times == [] then 0
    else (if Allows(b, times[0]) then 1 else 0) + Count(After(b, times[0]), times[1..])
  }

  ghost predicate Sane(b: Bucket) {
    0.0 <= b.tokens <= b.capacity as real
  }

  lemma AfterSane(b: Bucket, now: real)
    requires Sane(b) && b.lastRefill <= now
    ensures Sane(After(b, now))
  {
    GainPositive(b.capacity, now - b.lastRefill);
  }

  lemma GainPositive(capacity: int, span: real)
    requires capacity >= 0 && span >= 0.0
    ensures Gain(capacity, span) >= 0.0
  {
  }

  lemma {:induction false} LeftSane(b: Bucket, times: seq<real>)
    requires Sane(b) && Ordered(b.lastRefill, times)
    ensures Sane(Left(b, times)) && Left(b, times).capacity == b.capacity
    decreases |times|
  {
    if times != [] {
      AfterSane(b, times[0]);
      LeftSane(After(b, times[0]), times[1..]);
    }
  }

  // Tokens are conserved: what was spent and what is left never exceed what was there and what
  // the elapsed time can have added.
  lemma {:induction false} Conservation(b: Bucket, times: seq<real>)
    requires Sane(b) && Ordered(b.lastRefill, times)
    ensures Count(b, times) as real + Left(b, times).tokens
            <= b.tokens + Gain(b.capacity, Left(b, times).lastRefill - b.lastRefill)
    decreases |times|
  {
    if times != [] {
      var next := After(b, times[0]);
      AfterSane(b, times[0]);
      Conservation(next, times[1..]);
      GainAdds(b.capacity, times[0] - b.lastRefill, Left(b, times).lastRefill - times[0]);
    }
  }

  lemma GainAdds(capacity: int, a: real, b: real)
    ensures Gain(capacity, a) + Gain(capacity, b) == Gain(capacity, a + b)
  {
  }

  lemma {:induction false} LastRefill(b: Bucket, times: seq<real>)
    requires times != []
    ensures Left(b, times).lastRefill == times[|times| - 1]
    decreases |times|
  {
    if |times| > 1 { LastRefill(After(b, times[0]), times[1..]); }
  }

  // What a bucket may let through in a stretch of time: its capacity, and its rate over the stretch.
  function Allowance(capacity: int, span: real): (a: real)
    ensures a == capacity as real + Gain(capacity, span)
  {
    capacity as real * (1.0 + span)
  }

  lemma StretchBound(b: Bucket, stretch: seq<real>)
    requires Sane(b) && stretch != [] && Ordered(b.lastRefill, stretch)
    ensures Count(b, stretch) as real <= Allowance(b.capacity, stretch[|stretch| - 1] - stretch[0])
  {
    var next, rest := After(b, stretch[0]), stretch[1..];
    AfterSane(b, stretch[0]);
    LastRefill(b, stretch);
    RestBound(next, rest, stretch[|stretch| - 1] - stretch[0]);
  }

  // The calls after the first, when the first left tokens to a bucket that was at most full.
  lemma RestBound(next: Bucket, rest: seq<real>, span: real)
    requires Sane(next) && Ordered(next.lastRefill, rest)
    requires span == Left(next, rest).lastRefill - next.lastRefill
    ensures next.tokens + 1.0 <= next.capacity as real ==>
              1.0 + Count(next, rest) as real <= Allowance(next.capacity, span)
    ensures Count(next, rest) as real <= Allowance(next.capacity, span)
  {
    Conservation(next, rest);
    LeftSane(next, rest);
  }

  // In any run of a bucket, over any stretch of consecutive calls, the number allowed is at most
  // capacity * (1 + T), where T is the time between the first and the last of them.
  lemma RateBound(capacity: nat, born: real, earlier: seq<real>, stretch: seq<real>)
    requires Ordered(born, earlier) && stretch != []
    requires Ordered(Left(Full(capacity, born), earlier).lastRefill, stretch)
    ensures Count(Left(Full(capacity, born), earlier), stretch) as real
            <= Allowance(capacity, stretch[|stretch| - 1] - stretch[0])
  {
    LeftSane(Full(capacity, born), earlier);
    StretchBound(Left(Full(capacity, born), earlier), stretch);
  }

  // A capacity below one lets nothing through.
  lemma {:induction false} NoCapacity(b: Bucket, times: seq<real>)
    requires b.capacity <= 0
    ensures Count(b, times) == 0
    decreases |times|
  {
    if times != [] { NoCapacity(After(b, times[0]), times[1..]); }
  }

  ghost predicate Spaced(times: seq<real>, gap: real) {
    forall i :: 0 <= i < |times| - 1 ==> times[i + 1] - times[i] >= gap
  }

  lemma GapRefills(capacity: int, span: real)
    requires capacity >= 1 && span >= 1.0 / capacity as real
    ensures Gain(capacity, span) >= 1.0
  {
    var c := capacity as real;
    assert span * c >= (1.0 / c) * c == 1.0;
  }

  lemma {:induction false} SpacedFrom(b: Bucket, times: seq<real>)
    requires b.capacity >= 1 && Sane(b) && Ordered(b.lastRefill, times)
    requires Spaced(times, 1.0 / b.capacity as real)
    requires times != [] ==> b.tokens >= 1.0 || times[0] - b.lastRefill >= 1.0 / b.capacity as real
    ensures Count(b, times) == |times|
    decreases |times|
  {
    if times != [] {
      var dt := times[0] - b.lastRefill;
      if b.tokens < 1.0 { GapRefills(b.capacity, dt); }
      GainPositive(b.capacity, dt);
      assert Allows(b, times[0]);
      AfterSane(b, times[0]);
      SpacedFrom(After(b, times[0]), times[1..]);
    }
  }

  // Requests at least 1/capacity apart are never refused by a fresh bucket.
  lemma SpacedNeverRefused(capacity: nat, born: real, times: seq<real>)
    requires capacity >= 1 && Ordered(born, times) && Spaced(times, 1.0 / capacity as real)
    ensures Count(Full(capacity, born), times) == |times|
  {
    SpacedFrom(Full(capacity, born), times);
  }

  // ---------- The cluster ----------

  // A request reaches a gateway, spends a local token, increments the shared counter, sets the
  // expiry if it created the counter, and is decided. (life, n) is the value n it was handed in the
  // counter's life number `life`.
  datatype Phase =
    | Refused
    | Passed
    | Counted(life: nat, n: nat)
    | Armed(life: nat, n: nat)
    | Rejected(life: nat, n: nat)
    | Forwarded(life: nat, n: nat)

  datatype Slot = Slot(gateway: nat, key: string)

  // `turn` is the request's place among the calls of its slot's bucket.
  datatype Request = Request(slot: Slot, turn: nat, phase: Phase)

  // The rate configured for the tenant of a key.
  type Rates = string -> int

  datatype Counter = Counter(life: nat, count: nat, expiring: bool)

  // A bucket together with the time it was created and the times it was asked.
  datatype Local = Local(bucket: Bucket, born: real, calls: seq<real>)

  datatype Cluster = Cluster(
    clock: real, locals: map<Slot, Local>, counters: map<string, Counter>, lives: nat, requests: map<nat, Request>)

  const EMPTY := Cluster(0.0, map[], map[], 0, map[])

  datatype Step =
    | Arrive(id: nat, slot: Slot, now: real)
    | Incr(id: nat)
    | Expire(id: nat)
    | Decide(id: nat)
    | KeyGone(key: string)

  // The bucket of a slot: created when missing, replaced when the configured rate has changed.
  function LocalAt(s: Cluster, slot: Slot, rps: int, now: real): Local {
    if slot in s.locals && s.locals[slot].bucket.capacity == rps then s.locals[slot]
    else Local(Full(rps, now), now, [])
  }

  // The keys of both tiers tell tenants and users apart: a tenant id, a UUID, holds no colon.
  lemma KeysApart(prefix: string, tenant: string, user: string, tenant': string, user': string)
    requires ':' !in tenant && ':' !in tenant'
    ensures prefix + (tenant + ":" + user) == prefix + (tenant' + ":" + user') <==> tenant == tenant' && user == user'
  {
    var a, b := tenant + ":" + user, tenant' + ":" + user';
    assert (prefix + a)[|prefix|..] == a && (prefix + b)[|prefix|..] == b;
    ColonSplits(tenant, user, tenant', user');
  }

  ghost predicate Enabled(s: Cluster, step: Step) {
    match step
    case Arrive(id, _, now) => id !in s.requests && s.clock <= now
    case Incr(id) => id in s.requests && s.requests[id].phase.Passed?
    case Expire(id) => id in s.requests && s.requests[id].phase.Counted? && s.requests[id].phase.n == 1
    case Decide(id) =>
      id in s.requests
      && (s.requests[id].phase.Armed? || (s.requests[id].phase.Counted? && s.requests[id].phase.n != 1))
    case KeyGone(key) => key in s.counters && s.counters[key].expiring
  }

  ghost function Next(s: Cluster, rates: Rates, step: Step): Cluster
    requires Enabled(s, step)
  {
    match step
    case Arrive(id, slot, now) =>
      var l := LocalAt(s, slot, rates(slot.key), now);
      s.(clock := now,
         locals := s.locals[slot := Local(After(l.bucket, now), l.born, l.calls + [now])],
         requests := s.requests[id := Request(slot, |l.calls|, if Allows(l.bucket, now) then Passed else Refused)])
    case Incr(id) =>
      var r := s.requests[id];
      var c := if r.slot.key in s.counters then s.counters[r.slot.key].(count := s.counters[r.slot.key].count + 1)
               else Counter(s.lives, 1, false);
      s.(counters := s.counters[r.slot.key := c],
         lives := if r.slot.key in s.counters then s.lives else s.lives + 1,
         requests := s.requests[id := r.(phase := Counted(c.life, c.count))])
    case Expire(id) =>
      var r := s.requests[id];
      s.(counters := if r.slot.key in s.counters
                     then s.counters[r.slot.key := s.counters[r.slot.key].(expiring := true)] else s.counters,
         requests := s.requests[id := r.(phase := Armed(r.phase.life, r.phase.n))])
    case Decide(id) =>
      var r := s.requests[id];
      s.(requests := s.requests[id := r.(phase :=
           if r.phase.n > rates(r.slot.key) then Rejected(r.phase.life, r.phase.n)
              else Forwarded(r.phase.life, r.phase.n))])
    case KeyGone(key) => s.(counters := s.counters - {key})
  }

  ghost predicate Legal(s: Cluster, rates: Rates, steps: seq<Step>)
    decreases |steps|
  {
    steps == [] || (Enabled(s, steps[0]) && Legal(Next(s, rates, steps[0]), rates, steps[1..]))
  }

  ghost function Run(s: Cluster, rates: Rates, steps: seq<Step>): Cluster
    requires Legal(s, rates, steps)
    decreases |steps|
  {
    if steps == [] then s else Run(Next(s, rates, steps[0]), rates, steps[1..])
  }

  // ---------- Invariants of the shared counter ----------

  predicate Holds(p: Phase) {
    p.Counted? || p.Armed? || p.Rejected? || p.Forwarded?
  }

  ghost predicate TicketOk(s: Cluster, id: nat)
    requires id in s.requests
  {
    var r := s.requests[id];
    Holds(r.phase) ==>
      && r.phase.life < s.lives && 1 <= r.phase.n
      && (forall key :: key in s.counters && s.counters[key].life == r.phase.life ==>
            key == r.slot.key && r.phase.n <= s.counters[key].count)
  }

  ghost predicate Distinct(s: Cluster, id: nat, id': nat)
    requires id in s.requests && id' in s.requests
  {
    var r, r' := s.requests[id], s.requests[id'];
    id != id' && Holds(r.phase) && Holds(r'.phase) && r.phase.life == r'.phase.life ==>
      r.slot.key == r'.slot.key && r.phase.n != r'.phase.n
  }

  ghost predicate CounterInv(s: Cluster, rates: Rates) {
    && (forall key :: key in s.counters ==> s.counters[key].life < s.lives && 1 <= s.counters[key].count)
    && (forall key, key' :: key in s.counters && key' in s.counters && s.counters[key].life == s.counters[key'].life ==>
          key == key')
    && (forall id :: id in s.requests ==> TicketOk(s, id))
    && (forall id, id' :: id in s.requests && id' in s.requests ==> Distinct(s, id, id'))
    && (forall id :: id in s.requests && s.requests[id].phase.Forwarded? ==>
          s.requests[id].phase.n <= rates(s.requests[id].slot.key))
  }

  // A counter that will not expire is about to get its expiry from the request that created it.
  ghost predicate WillExpire(s: Cluster) {
    forall key :: key in s.counters && !s.counters[key].expiring ==>
      exists id :: id in s.requests && s.requests[id].slot.key == key
                   && s.requests[id].phase == Counted(s.counters[key].life, 1)
  }

  lemma IncrKept(s: Cluster, rates: Rates, step: Step)
    requires CounterInv(s, rates) && Enabled(s, step) && step.Incr?
    ensures CounterInv(Next(s, rates, step), rates)
  {
    var t, key := Next(s, rates, step), s.requests[step.id].slot.key;
    forall id | id in t.requests
      ensures TicketOk(t, id)
    {
      assert TicketOk(s, id);
    }
    forall id, id' | id in t.requests && id' in t.requests
      ensures Distinct(t, id, id')
    {
      assert Distinct(s, id, id') && TicketOk(s, id) && TicketOk(s, id');
    }
  }

  lemma CounterKept(s: Cluster, rates: Rates, step: Step)
    requires CounterInv(s, rates) && Enabled(s, step)
    ensures CounterInv(Next(s, rates, step), rates)
  {
    if step.Incr? {
      IncrKept(s, rates, step);
    } else {
      var t := Next(s, rates, step);
      forall id | id in t.requests
        ensures TicketOk(t, id)
      {
        if id in s.requests { assert TicketOk(s, id); }
      }
      forall id, id' | id in t.requests && id' in t.requests
        ensures Distinct(t, id, id')
      {
        if id in s.requests && id' in s.requests { assert Distinct(s, id, id'); }
      }
    }
  }

  lemma ExpiryKept(s: Cluster, rates: Rates, step: Step)
    requires CounterInv(s, rates) && WillExpire(s) && Enabled(s, step)
    ensures WillExpire(Next(s, rates, step))
  {
    var t := Next(s, rates, step);
    forall key | key in t.counters && !t.counters[key].expiring
      ensures exists id :: id in t.requests && t.requests[id].slot.key == key
                           && t.requests[id].phase == Counted(t.counters[key].life, 1)
    {
      if key in s.counters && !s.counters[key].expiring {
        var id :| id in s.requests && s.requests[id].slot.key == key
                  && s.requests[id].phase == Counted(s.counters[key].life, 1);
        assert t.requests[id] == s.requests[id];
      } else {
        assert step.Incr? && t.requests[step.id].slot.key == key;
      }
    }
  }

  // ---------- The numbers of one life ----------

  // Who was counted in a life.
  ghost function CountedIn(s: Cluster, life: nat): set<nat> {
    set id | id in s.requests && Holds(s.requests[id].phase) && s.requests[id].phase.life == life
  }

  ghost predicate HasNumber(s: Cluster, life: nat, n: nat) {
    exists id :: id in CountedIn(s, life) && s.requests[id].phase.n == n
  }

  // Every smaller number has been handed out too.
  ghost predicate Preceded(s: Cluster, id: nat)
    requires id in s.requests
  {
    var p := s.requests[id].phase;
    Holds(p) && p.n > 1 ==> HasNumber(s, p.life, p.n - 1)
  }

  // A counter shows the last number it handed out.
  ghost predicate ShowsLast(s: Cluster, key: string)
    requires key in s.counters
  {
    HasNumber(s, s.counters[key].life, s.counters[key].count)
  }

  ghost predicate NumbersInv(s: Cluster, rates: Rates) {
    && (forall id :: id in s.requests ==> Preceded(s, id))
    && (forall key :: key in s.counters ==> ShowsLast(s, key))
    && (forall id :: id in s.requests && s.requests[id].phase.Rejected? ==>
          s.requests[id].phase.n > rates(s.requests[id].slot.key))
  }

  // No step takes a number back.
  lemma NumbersStay(s: Cluster, rates: Rates, step: Step, life: nat, n: nat)
    requires Enabled(s, step) && HasNumber(s, life, n)
    ensures HasNumber(Next(s, rates, step), life, n)
  {
    var id :| id in CountedIn(s, life) && s.requests[id].phase.n == n;
    assert id in CountedIn(Next(s, rates, step), life) && Next(s, rates, step).requests[id].phase.n == n;
  }

  lemma NewNumber(s: Cluster, rates: Rates, id: nat)
    requires NumbersInv(s, rates) && Enabled(s, Incr(id))
    ensures var t, key := Next(s, rates, Incr(id)), s.requests[id].slot.key;
            Preceded(t, id) && ShowsLast(t, key)
  {
    var t, key := Next(s, rates, Incr(id)), s.requests[id].slot.key;
    if key in s.counters {
      assert ShowsLast(s, key);
      NumbersStay(s, rates, Incr(id), s.counters[key].life, s.counters[key].count);
    }
    assert id in CountedIn(t, t.counters[key].life);
  }

  lemma NumbersKept(s: Cluster, rates: Rates, step: Step)
    requires NumbersInv(s, rates) && Enabled(s, step)
    ensures NumbersInv(Next(s, rates, step), rates)
  {
    var t := Next(s, rates, step);
    if step.Incr? { NewNumber(s, rates, step.id); }
    forall id | id in t.requests
      ensures Preceded(t, id)
    {
      if id in s.requests && !(step.Incr? && step.id == id) {
        assert Preceded(s, id);
        var p := s.requests[id].phase;
        if Holds(p) && p.n > 1 { NumbersStay(s, rates, step, p.life, p.n - 1); }
      }
    }
    forall key | key in t.counters
      ensures ShowsLast(t, key)
    {
      if !(step.Incr? && s.requests[step.id].slot.key == key) {
        assert ShowsLast(s, key);
        NumbersStay(s, rates, step, s.counters[key].life, s.counters[key].count);
      }
    }
  }

  // ---------- Invariants of the local tier ----------

  ghost predicate LocalOk(s: Cluster, rates: Rates, slot: Slot)
    requires slot in s.locals
  {
    var l := s.locals[slot];
    l.calls != [] && RunOf(l, rates(slot.key), s.clock)
  }

  // A bucket is the result of the calls it was asked, at times that did not go back.
  ghost predicate RunOf(l: Local, capacity: int, clock: real) {
    Ordered(l.born, l.calls) && l.bucket == Left(Full(capacity, l.born), l.calls) && l.bucket.lastRefill <= clock
  }

  // A request was refused exactly when the bucket, as the earlier calls had left it, did not allow it.
  ghost predicate TurnOk(s: Cluster, rates: Rates, id: nat)
    requires id in s.requests
  {
    var r := s.requests[id];
    && r.slot in s.locals && r.turn < |s.locals[r.slot].calls|
    && (r.phase.Refused? <==> !AllowedAt(s.locals[r.slot], rates(r.slot.key), r.turn))
  }

  ghost predicate AllowedAt(l: Local, capacity: int, turn: nat)
    requires turn < |l.calls|
  {
    Allows(Left(Full(capacity, l.born), l.calls[..turn]), l.calls[turn])
  }

  predicate SameCall(r: Request, r': Request) {
    r.slot == r'.slot && r.turn == r'.turn
  }

  ghost predicate LocalInv(s: Cluster, rates: Rates) {
    && (forall slot :: slot in s.locals ==> LocalOk(s, rates, slot))
    && (forall id :: id in s.requests ==> TurnOk(s, rates, id))
    && (forall id, id' :: id in s.requests && id' in s.requests && SameCall(s.requests[id], s.requests[id']) ==>
          id == id')
  }

  lemma {:induction false} OneMore(b: Bucket, times: seq<real>, now: real)
    ensures Left(b, times + [now]) == After(Left(b, times), now)
    ensures Count(b, times + [now]) == Count(b, times) + (if Allows(Left(b, times), now) then 1 else 0)
    decreases |times|
  {
    if times == [] {
      assert [] + [now] == [now];
    } else {
      assert (times + [now])[1..] == times[1..] + [now];
      OneMore(After(b, times[0]), times[1..], now);
    }
  }

  lemma {:induction false} OrderedMore(from: real, times: seq<real>, now: real)
    requires Ordered(from, times) && (if times == [] then from else times[|times| - 1]) <= now
    ensures Ordered(from, times + [now])
    decreases |times|
  {
    if times == [] {
      assert [] + [now] == [now];
    } else {
      assert (times + [now])[1..] == times[1..] + [now];
      OrderedMore(times[0], times[1..], now);
    }
  }

  lemma {:induction false} CapacityKept(b: Bucket, times: seq<real>)
    ensures Left(b, times).capacity == b.capacity
    decreases |times|
  {
    if times != [] { CapacityKept(After(b, times[0]), times[1..]); }
  }

  lemma LocalAtRuns(s: Cluster, rates: Rates, slot: Slot, now: real)
    requires LocalInv(s, rates) && s.clock <= now
    ensures var l := LocalAt(s, slot, rates(slot.key), now);
            RunOf(l, rates(slot.key), now) && (if slot in s.locals then l == s.locals[slot] else l.calls == [])
  {
    if slot in s.locals {
      assert LocalOk(s, rates, slot);
      CapacityKept(Full(rates(slot.key), s.locals[slot].born), s.locals[slot].calls);
    }
  }

  lemma OneMoreRuns(l: Local, capacity: int, now: real)
    requires RunOf(l, capacity, now)
    ensures RunOf(Local(After(l.bucket, now), l.born, l.calls + [now]), capacity, now)
  {
    OneMore(Full(capacity, l.born), l.calls, now);
    if l.calls != [] { LastRefill(Full(capacity, l.born), l.calls); }
    OrderedMore(l.born, l.calls, now);
  }

  lemma SlotArrived(s: Cluster, rates: Rates, step: Step)
    requires LocalInv(s, rates) && Enabled(s, step) && step.Arrive?
    ensures var t := Next(s, rates, step); LocalOk(t, rates, step.slot) && TurnOk(t, rates, step.id)
    ensures step.slot in s.locals ==>
              s.locals[step.slot].calls <= Next(s, rates, step).locals[step.slot].calls
              && s.locals[step.slot].born == Next(s, rates, step).locals[step.slot].born
  {
    LocalAtRuns(s, rates, step.slot, step.now);
    var l := LocalAt(s, step.slot, rates(step.slot.key), step.now);
    OneMoreRuns(l, rates(step.slot.key), step.now);
    assert (l.calls + [step.now])[..|l.calls|] == l.calls;
  }

  lemma SameTurn(l: Local, l': Local, capacity: int, turn: nat)
    requires turn < |l.calls| && l.calls <= l'.calls && l.born == l'.born
    ensures AllowedAt(l, capacity, turn) == AllowedAt(l', capacity, turn)
  {
    assert l.calls[..turn] == l'.calls[..turn];
  }

  lemma TurnStays(s: Cluster, rates: Rates, step: Step, id: nat)
    requires LocalInv(s, rates) && Enabled(s, step) && step.Arrive? && id in s.requests
    ensures TurnOk(Next(s, rates, step), rates, id)
  {
    var r := s.requests[id];
    assert TurnOk(s, rates, id);
    SlotArrived(s, rates, step);
    SameTurn(s.locals[r.slot], Next(s, rates, step).locals[r.slot], rates(r.slot.key), r.turn);
  }

  lemma NewTurn(s: Cluster, rates: Rates, step: Step)
    requires LocalInv(s, rates) && Enabled(s, step) && step.Arrive?
    ensures forall id :: id in s.requests ==> !SameCall(s.requests[id], Next(s, rates, step).requests[step.id])
  {
    LocalAtRuns(s, rates, step.slot, step.now);
    forall id | id in s.requests
      ensures !SameCall(s.requests[id], Next(s, rates, step).requests[step.id])
    {
      assert TurnOk(s, rates, id);
    }
  }

  lemma ArriveKept(s: Cluster, rates: Rates, step: Step)
    requires LocalInv(s, rates) && Enabled(s, step) && step.Arrive?
    ensures LocalInv(Next(s, rates, step), rates)
  {
    var t := Next(s, rates, step);
    SlotArrived(s, rates, step);
    forall slot | slot in t.locals && slot != step.slot
      ensures LocalOk(t, rates, slot)
    {
      assert LocalOk(s, rates, slot);
    }
    forall id | id in t.requests && id != step.id
      ensures TurnOk(t, rates, id)
    {
      TurnStays(s, rates, step, id);
    }
    NewTurn(s, rates, step);
  }

  // Past the local tier a request stays with its slot and its turn.
  lemma LocalKept(s: Cluster, rates: Rates, step: Step)
    requires LocalInv(s, rates) && Enabled(s, step)
    ensures LocalInv(Next(s, rates, step), rates)
  {
    if step.Arrive? {
      ArriveKept(s, rates, step);
    } else {
      var t := Next(s, rates, step);
      forall slot | slot in t.locals
        ensures LocalOk(t, rates, slot)
      {
        assert LocalOk(s, rates, slot);
      }
      forall id | id in t.requests
        ensures TurnOk(t, rates, id)
      {
        assert TurnOk(s, rates, id);
      }
    }
  }

  // ---------- Bounds for every run ----------

  lemma {:induction false} RunKept(s: Cluster, rates: Rates, steps: seq<Step>)
    requires Legal(s, rates, steps) && CounterInv(s, rates) && WillExpire(s) && LocalInv(s, rates)
    ensures var t := Run(s, rates, steps); CounterInv(t, rates) && WillExpire(t) && LocalInv(t, rates)
    decreases |steps|
  {
    if steps != [] {
      CounterKept(s, rates, steps[0]);
      ExpiryKept(s, rates, steps[0]);
      LocalKept(s, rates, steps[0]);
      RunKept(Next(s, rates, steps[0]), rates, steps[1..]);
    }
  }

  ghost function ForwardedIn(s: Cluster, key: string, life: nat): set<nat> {
    set id | id in s.requests && s.requests[id].slot.key == key && s.requests[id].phase.Forwarded?
             && s.requests[id].phase.life == life
  }

  ghost function ForwardedBy(s: Cluster, slot: Slot): set<nat> {
    set id | id in s.requests && s.requests[id].phase.Forwarded? && s.requests[id].slot == slot
  }

  // Distinct numbers between 1 and k: at most k of them.
  lemma {:induction false} Pigeonhole(ids: set<nat>, number: map<nat, nat>, k: nat)
    requires forall id :: id in ids ==> id in number && 1 <= number[id] <= k
    requires forall id, id' :: id in ids && id' in ids && id != id' ==> number[id] != number[id']
    ensures |ids| <= k
  {
    if k == 0 {
      assert ids == {};
    } else if id :| id in ids && number[id] == k {
      Pigeonhole(ids - {id}, number, k - 1);
    } else {
      Pigeonhole(ids, number, k - 1);
    }
  }

  lemma ForwardedBound(s: Cluster, rates: Rates, key: string, life: nat)
    requires CounterInv(s, rates)
    ensures |ForwardedIn(s, key, life)| <= if rates(key) < 0 then 0 else rates(key)
  {
    var ids := ForwardedIn(s, key, life);
    var number := map id | id in ids :: s.requests[id].phase.n;
    forall id, id' | id in ids && id' in ids && id != id'
      ensures number[id] != number[id']
    {
      assert Distinct(s, id, id');
    }
    forall id | id in ids ensures number[id] >= 1 { assert TicketOk(s, id); }
    Pigeonhole(ids, number, if rates(key) < 0 then 0 else rates(key));
  }

  // Any number of gateways together forward at most user_rps requests of a tenant and user in one
  // life of the shared counter - none when the rate is not positive - and every counter that exists
  // either has its expiry or is about to get it from the request that created it.
  lemma WindowBound(rates: Rates, steps: seq<Step>, key: string, life: nat)
    requires Legal(EMPTY, rates, steps)
    ensures |ForwardedIn(Run(EMPTY, rates, steps), key, life)| <= if rates(key) < 0 then 0 else rates(key)
    ensures WillExpire(Run(EMPTY, rates, steps))
  {
    RunKept(EMPTY, rates, steps);
    ForwardedBound(Run(EMPTY, rates, steps), rates, key, life);
  }

  // ---------- The second tier rejects no one too early ----------

  lemma {:induction false} RunNumbers(s: Cluster, rates: Rates, steps: seq<Step>)
    requires Legal(s, rates, steps) && NumbersInv(s, rates)
    ensures NumbersInv(Run(s, rates, steps), rates)
    decreases |steps|
  {
    if steps != [] {
      NumbersKept(s, rates, steps[0]);
      RunNumbers(Next(s, rates, steps[0]), rates, steps[1..]);
    }
  }

  function Least(a: int, b: int): int {
    if a < b then a else b
  }

  // The requests and the numbers they hold.
  ghost function Below(ids: set<nat>, number: map<nat, nat>, k: nat): set<nat>
    requires ids <= number.Keys
  {
    set id | id in ids && number[id] <= k
  }

  ghost predicate Held(ids: set<nat>, number: map<nat, nat>, n: nat)
    requires ids <= number.Keys
  {
    exists id :: id in ids && number[id] == n
  }

  // Different positive numbers, and with each of them every smaller one.
  ghost predicate Numbered(ids: set<nat>, number: map<nat, nat>) {
    && ids <= number.Keys
    && (forall id :: id in ids ==> 1 <= number[id])
    && (forall id, k :: id in ids && 1 <= k <= number[id] ==> Held(ids, number, k))
    && (forall id, id' :: id in ids && id' in ids && number[id] == number[id'] ==> id == id')
  }

  // One number more: one request more, or none is left.
  lemma OneNumber(ids: set<nat>, number: map<nat, nat>, k: nat)
    requires Numbered(ids, number)
    ensures var upTo, next := Below(ids, number, k), Below(ids, number, k + 1);
            if Held(ids, number, k + 1) then |next| == |upTo| + 1 else next == upTo == ids
  {
    var upTo, next := Below(ids, number, k), Below(ids, number, k + 1);
    if Held(ids, number, k + 1) {
      var id :| id in ids && number[id] == k + 1;
      assert next == upTo + {id};
    } else {
      forall x | x in ids
        ensures x in upTo
      {
      }
    }
  }

  // The numbers are 1, 2, 3 and so on: those up to k are held by k requests, or by all.
  lemma {:induction false} NumbersCount(ids: set<nat>, number: map<nat, nat>, k: nat)
    requires Numbered(ids, number)
    ensures |Below(ids, number, k)| == Least(k, |ids|)
    ensures Held(ids, number, k) ==> k <= |ids|
  {
    SubsetSize(Below(ids, number, k), ids);
    if k == 0 {
      assert Below(ids, number, 0) == {};
    } else {
      OneNumber(ids, number, k - 1);
      NumbersCount(ids, number, k - 1);
    }
  }

  ghost function NumberOf(s: Cluster, life: nat): map<nat, nat> {
    map id | id in CountedIn(s, life) :: s.requests[id].phase.n
  }

  lemma SmallerNumbers(s: Cluster, rates: Rates, life: nat, n: nat, k: nat)
    requires NumbersInv(s, rates) && HasNumber(s, life, n) && 1 <= k <= n
    ensures HasNumber(s, life, k)
  {
    var m := n;
    while m > k
      invariant k <= m && HasNumber(s, life, m)
    {
      var id :| id in CountedIn(s, life) && s.requests[id].phase.n == m;
      assert Preceded(s, id);
      m := m - 1;
    }
  }

  lemma NumberHeld(s: Cluster, life: nat, k: nat)
    requires HasNumber(s, life, k)
    ensures Held(CountedIn(s, life), NumberOf(s, life), k)
  {
    var id :| id in CountedIn(s, life) && s.requests[id].phase.n == k;
    assert NumberOf(s, life)[id] == k;
  }

  lemma LifeNumbered(s: Cluster, rates: Rates, life: nat)
    requires CounterInv(s, rates) && NumbersInv(s, rates)
    ensures Numbered(CountedIn(s, life), NumberOf(s, life))
  {
    var ids, number := CountedIn(s, life), NumberOf(s, life);
    forall id | id in ids
      ensures 1 <= number[id]
    {
      assert TicketOk(s, id);
    }
    forall id, k | id in ids && 1 <= k <= number[id]
      ensures Held(ids, number, k)
    {
      assert HasNumber(s, life, number[id]);
      SmallerNumbers(s, rates, life, number[id], k);
      NumberHeld(s, life, k);
    }
    forall id, id' | id in ids && id' in ids && number[id] == number[id']
      ensures id == id'
    {
      assert Distinct(s, id, id');
    }
  }

  // The requests counted in a life with a smaller number than n.
  ghost function Earlier(s: Cluster, life: nat, n: nat): set<nat> {
    set id | id in CountedIn(s, life) && s.requests[id].phase.n < n
  }

  lemma EarlierCount(s: Cluster, life: nat, id: nat)
    requires Numbered(CountedIn(s, life), NumberOf(s, life)) && id in CountedIn(s, life)
    ensures |Earlier(s, life, s.requests[id].phase.n)| == s.requests[id].phase.n - 1
  {
    var ids, number, n := CountedIn(s, life), NumberOf(s, life), s.requests[id].phase.n;
    assert number[id] == n;
    NumbersCount(ids, number, n);
    NumbersCount(ids, number, n - 1);
    assert Earlier(s, life, n) == Below(ids, number, n - 1);
  }

  // A request is counted behind all that were counted before it in the life, and in the life of the
  // counter there is.
  lemma CountedLast(rates: Rates, steps: seq<Step>, id: nat)
    requires Legal(EMPTY, rates, steps) && Enabled(Run(EMPTY, rates, steps), Incr(id))
    ensures var s := Run(EMPTY, rates, steps); var t, key := Next(s, rates, Incr(id)), s.requests[id].slot.key;
            var p := t.requests[id].phase;
            && p.Counted? && Earlier(t, p.life, p.n) == CountedIn(s, p.life)
            && (if key in s.counters then p.life == s.counters[key].life else CountedIn(s, p.life) == {})
  {
    RunKept(EMPTY, rates, steps);
    NextNumber(Run(EMPTY, rates, steps), rates, id);
  }

  lemma NextNumber(s: Cluster, rates: Rates, id: nat)
    requires CounterInv(s, rates) && Enabled(s, Incr(id))
    ensures var t, key := Next(s, rates, Incr(id)), s.requests[id].slot.key;
            var p := t.requests[id].phase;
            && p.Counted? && Earlier(t, p.life, p.n) == CountedIn(s, p.life)
            && (if key in s.counters then p.life == s.counters[key].life else CountedIn(s, p.life) == {})
  {
    var t := Next(s, rates, Incr(id));
    var p := t.requests[id].phase;
    forall x
      ensures x in Earlier(t, p.life, p.n) <==> x in CountedIn(s, p.life)
    {
      if x in CountedIn(s, p.life) { assert TicketOk(s, x); }
    }
  }

  // Once decided, a request is forwarded exactly when fewer than user_rps requests, all of its key,
  // were counted before it in the same life, and otherwise rejected.
  lemma ForwardedIff(rates: Rates, steps: seq<Step>, id: nat)
    requires Legal(EMPTY, rates, steps) && id in Run(EMPTY, rates, steps).requests
    requires var p := Run(EMPTY, rates, steps).requests[id].phase; p.Forwarded? || p.Rejected?
    ensures var s := Run(EMPTY, rates, steps); var r := s.requests[id];
            var earlier := Earlier(s, r.phase.life, r.phase.n);
            && (r.phase.Forwarded? <==> |earlier| < rates(r.slot.key))
            && (forall x :: x in earlier ==> x != id && s.requests[x].slot.key == r.slot.key)
  {
    RunKept(EMPTY, rates, steps);
    RunNumbers(EMPTY, rates, steps);
    var s := Run(EMPTY, rates, steps);
    var r := s.requests[id];
    LifeNumbered(s, rates, r.phase.life);
    EarlierCount(s, r.phase.life, id);
    OneKey(s, rates, id);
  }

  ghost predicate AllDecided(s: Cluster, life: nat) {
    forall id :: id in CountedIn(s, life) ==> s.requests[id].phase.Forwarded? || s.requests[id].phase.Rejected?
  }

  ghost function CountedFor(s: Cluster, key: string, life: nat): set<nat> {
    set id | id in CountedIn(s, life) && s.requests[id].slot.key == key
  }

  // When everyone counted in a life has its answer, user_rps of them have been forwarded, or all if
  // they are fewer.
  lemma ExactlyRps(rates: Rates, steps: seq<Step>, key: string, life: nat)
    requires Legal(EMPTY, rates, steps) && AllDecided(Run(EMPTY, rates, steps), life)
    ensures var s := Run(EMPTY, rates, steps);
            |ForwardedIn(s, key, life)| == Least(if rates(key) < 0 then 0 else rates(key), |CountedFor(s, key, life)|)
  {
    RunKept(EMPTY, rates, steps);
    RunNumbers(EMPTY, rates, steps);
    ForwardedCount(Run(EMPTY, rates, steps), rates, key, life);
  }

  lemma ForwardedCount(s: Cluster, rates: Rates, key: string, life: nat)
    requires CounterInv(s, rates) && NumbersInv(s, rates) && AllDecided(s, life)
    ensures |ForwardedIn(s, key, life)| == Least(if rates(key) < 0 then 0 else rates(key), |CountedFor(s, key, life)|)
  {
    var k := if rates(key) < 0 then 0 else rates(key);
    if id :| id in CountedFor(s, key, life) {
      OneKey(s, rates, id);
      assert CountedFor(s, key, life) == CountedIn(s, life);
      LifeNumbered(s, rates, life);
      ForwardedAre(s, rates, key, life, k);
      NumbersCount(CountedIn(s, life), NumberOf(s, life), k);
    } else {
      assert ForwardedIn(s, key, life) <= CountedFor(s, key, life);
      assert ForwardedIn(s, key, life) == {};
    }
  }

  lemma OneKey(s: Cluster, rates: Rates, id: nat)
    requires CounterInv(s, rates) && id in s.requests && Holds(s.requests[id].phase)
    ensures forall x :: x in CountedIn(s, s.requests[id].phase.life) ==>
              s.requests[x].slot.key == s.requests[id].slot.key
  {
    forall x | x in CountedIn(s, s.requests[id].phase.life)
      ensures s.requests[x].slot.key == s.requests[id].slot.key
    {
      assert Distinct(s, x, id);
    }
  }

  lemma ForwardedAre(s: Cluster, rates: Rates, key: string, life: nat, k: nat)
    requires CounterInv(s, rates) && NumbersInv(s, rates) && AllDecided(s, life)
    requires k == if rates(key) < 0 then 0 else rates(key)
    requires CountedFor(s, key, life) == CountedIn(s, life)
    ensures ForwardedIn(s, key, life) == Below(CountedIn(s, life), NumberOf(s, life), k)
  {
    forall id | id in CountedIn(s, life)
      ensures id in ForwardedIn(s, key, life) <==> s.requests[id].phase.n <= k
    {
      assert id in CountedFor(s, key, life) && TicketOk(s, id);
    }
    forall id ensures id in ForwardedIn(s, key, life) ==> id in CountedIn(s, life) {}
  }

  // ---------- The first tier refuses no one too early ----------

  lemma {:induction false} AllAllowed(b: Bucket, times: seq<real>, i: nat)
    requires i < |times| && Count(b, times) == |times|
    ensures Allows(Left(b, times[..i]), times[i])
    decreases |times|
  {
    CountAtMost(After(b, times[0]), times[1..]);
    if i > 0 {
      AllAllowed(After(b, times[0]), times[1..], i - 1);
      assert times[..i][1..] == times[1..][..i - 1];
    }
  }

  lemma {:induction false} CountAtMost(b: Bucket, times: seq<real>)
    ensures Count(b, times) <= |times|
    decreases |times|
  {
    if times != [] { CountAtMost(After(b, times[0]), times[1..]); }
  }

  // A gateway asked for a key at intervals of at least 1/user_rps refuses none of the requests.
  lemma SpacedPassLocal(rates: Rates, steps: seq<Step>, slot: Slot, id: nat)
    requires Legal(EMPTY, rates, steps) && slot in Run(EMPTY, rates, steps).locals && rates(slot.key) >= 1
    requires Spaced(Run(EMPTY, rates, steps).locals[slot].calls, 1.0 / rates(slot.key) as real)
    requires id in Run(EMPTY, rates, steps).requests && Run(EMPTY, rates, steps).requests[id].slot == slot
    ensures !Run(EMPTY, rates, steps).requests[id].phase.Refused?
  {
    RunKept(EMPTY, rates, steps);
    var s := Run(EMPTY, rates, steps);
    var l := s.locals[slot];
    assert LocalOk(s, rates, slot) && TurnOk(s, rates, id);
    SpacedNeverRefused(rates(slot.key), l.born, l.calls);
    AllAllowed(Full(rates(slot.key), l.born), l.calls, s.requests[id].turn);
  }

  // The requests of a slot, from its call number i up to number j, that spent a local token.
  ghost function SpendersIn(s: Cluster, slot: Slot, i: nat, j: nat): set<nat> {
    set id | id in s.requests && s.requests[id].slot == slot && i <= s.requests[id].turn < j
       && !s.requests[id].phase.Refused?
  }

  // How many of a bucket's calls, from number i up to number j, it allowed.
  ghost function AllowedIn(l: Local, capacity: int, i: nat, j: nat): nat
    requires i <= j <= |l.calls|
  {
    Count(Left(Full(capacity, l.born), l.calls[..i]), l.calls[i..j])
  }

  lemma LastCall(l: Local, capacity: int, i: nat, j: nat)
    requires i <= j < |l.calls|
    ensures AllowedIn(l, capacity, i, j + 1)
            == AllowedIn(l, capacity, i, j) + if AllowedAt(l, capacity, j) then 1 else 0
  {
    var b, times := Full(capacity, l.born), l.calls;
    assert times[i..j + 1] == times[i..j] + [times[j]];
    OneMore(Left(b, times[..i]), times[i..j], times[j]);
    assert times[..j] == times[..i] + times[i..j];
    LeftConcat(b, times[..i], times[i..j]);
  }

  lemma {:induction false} LeftConcat(b: Bucket, before: seq<real>, times: seq<real>)
    ensures Left(b, before + times) == Left(Left(b, before), times)
    decreases |before|
  {
    if before == [] {
      assert before + times == times;
    } else {
      assert (before + times)[1..] == before[1..] + times;
      LeftConcat(After(b, before[0]), before[1..], times);
    }
  }

  lemma {:induction false} OrderedSlice(from: real, before: seq<real>, times: seq<real>)
    requires Ordered(from, before + times)
    ensures Ordered(from, before) && Ordered(if before == [] then from else before[|before| - 1], times)
    decreases |before|
  {
    if before == [] {
      assert before + times == times;
    } else {
      assert (before + times)[1..] == before[1..] + times;
      OrderedSlice(before[0], before[1..], times);
    }
  }

  lemma LastSpender(s: Cluster, rates: Rates, slot: Slot, i: nat, j: nat)
    requires LocalInv(s, rates) && slot in s.locals && i <= j < |s.locals[slot].calls|
    ensures |SpendersIn(s, slot, i, j + 1)|
            <= |SpendersIn(s, slot, i, j)| + if AllowedAt(s.locals[slot], rates(slot.key), j) then 1 else 0
  {
    var all, others := SpendersIn(s, slot, i, j + 1), SpendersIn(s, slot, i, j);
    if id :| id in all && s.requests[id].turn == j {
      assert TurnOk(s, rates, id);
      forall x | x in all && x != id ensures x in others {
        assert SameCall(s.requests[x], s.requests[id]) ==> x == id;
      }
      assert all == others + {id};
    } else {
      assert all == others;
    }
  }

  // The spenders of a stretch are no more than the bucket allowed in it.
  lemma SpendersCounted(s: Cluster, rates: Rates, slot: Slot, i: nat, j: nat)
    requires LocalInv(s, rates) && slot in s.locals && i <= j <= |s.locals[slot].calls|
    ensures |SpendersIn(s, slot, i, j)| <= AllowedIn(s.locals[slot], rates(slot.key), i, j)
  {
    assert SpendersIn(s, slot, i, i) == {};
    for k := i to j
      invariant |SpendersIn(s, slot, i, k)| <= AllowedIn(s.locals[slot], rates(slot.key), i, k)
    {
      LastCall(s.locals[slot], rates(slot.key), i, k);
      LastSpender(s, rates, slot, i, k);
    }
  }

  lemma StretchOrdered(l: Local, capacity: nat, i: nat, j: nat)
    requires Ordered(l.born, l.calls) && i < j <= |l.calls|
    ensures Ordered(l.born, l.calls[..i])
    ensures Ordered(Left(Full(capacity, l.born), l.calls[..i]).lastRefill, l.calls[i..j])
  {
    var earlier, stretch := l.calls[..i], l.calls[i..j];
    assert l.calls == (earlier + stretch) + l.calls[j..];
    OrderedSlice(l.born, earlier + stretch, l.calls[j..]);
    OrderedSlice(l.born, earlier, stretch);
    if earlier != [] { LastRefill(Full(capacity, l.born), earlier); }
  }

  lemma StretchOfCalls(l: Local, capacity: nat, clock: real, i: nat, j: nat)
    requires RunOf(l, capacity, clock) && i < j <= |l.calls|
    ensures AllowedIn(l, capacity, i, j) as real <= Allowance(capacity, l.calls[j - 1] - l.calls[i])
  {
    StretchOrdered(l, capacity, i, j);
    RateBound(capacity, l.born, l.calls[..i], l.calls[i..j]);
  }

  // Every forwarded request has spent a local token, so each gateway on its own forwards at most
  // user_rps * (1 + T) requests of a key in any stretch of calls, T being the time from the first to
  // the last of them, whatever happens to the shared counter.
  lemma GatewayBound(rates: Rates, steps: seq<Step>, slot: Slot, i: nat, j: nat)
    requires Legal(EMPTY, rates, steps) && rates(slot.key) >= 0
    requires slot in Run(EMPTY, rates, steps).locals && i < j <= |Run(EMPTY, rates, steps).locals[slot].calls|
    ensures var s := Run(EMPTY, rates, steps); var calls := s.locals[slot].calls;
            && ForwardedBy(s, slot) <= SpendersIn(s, slot, 0, |calls|)
            && |ForwardedBy(s, slot) * SpendersIn(s, slot, i, j)| as real
                  <= Allowance(rates(slot.key), calls[j - 1] - calls[i])
  {
    RunKept(EMPTY, rates, steps);
    LocalBound(Run(EMPTY, rates, steps), rates, slot, i, j);
  }

  lemma LocalBound(s: Cluster, rates: Rates, slot: Slot, i: nat, j: nat)
    requires LocalInv(s, rates) && rates(slot.key) >= 0 && slot in s.locals && i < j <= |s.locals[slot].calls|
    ensures var calls := s.locals[slot].calls;
            && ForwardedBy(s, slot) <= SpendersIn(s, slot, 0, |calls|)
            && |ForwardedBy(s, slot) * SpendersIn(s, slot, i, j)| as real
                  <= Allowance(rates(slot.key), calls[j - 1] - calls[i])
  {
    forall id | id in ForwardedBy(s, slot)
      ensures id in SpendersIn(s, slot, 0, |s.locals[slot].calls|)
    {
      assert TurnOk(s, rates, id);
    }
    assert LocalOk(s, rates, slot);
    SpendersCounted(s, rates, slot, i, j);
    StretchOfCalls(s.locals[slot], rates(slot.key), s.clock, i, j);
    SubsetSize(ForwardedBy(s, slot) * SpendersIn(s, slot, i, j), SpendersIn(s, slot, i, j));
  }
}
