/**
 The connection limiter of src/rate-limiter/connection-rate-limiter.ts: a token bucket for each IP
 and one for each /24, both charged by every check. Tokens are reals, the clock counts
 milliseconds. Eviction of old buckets is not part of this model.
 */
module RateLimiting {
  import opened Common
  import opened Text

  datatype BucketPolicy = BucketPolicy(capacity: real, refillPerSecond: real)

  datatype Bucket = Bucket(tokens: real, updatedAt: int)

  datatype BucketResult = BucketResult(allowed: bool, remaining: real, resetTime: int, retryAfterSeconds: int)

  datatype RateLimitResult = RateLimitResult(
    allowed: bool,
    remaining: int,
    resetTime: int,
    retryAfterSeconds: int,
    ip: string,
    subnet: string
  )

  // --- arithmetic ---

  function Ceil(x: real): (n: int)
    ensures x <= n as real < x + 1.0
  {
    -((-x).Floor)
  }

  function Min(a: int, b: int): int { if a < b then a else b }

  function Capacity(policy: BucketPolicy): (c: real)
    ensures c >= 1.0
  {
    if policy.capacity > 1.0 then policy.capacity else 1.0
  }

  function Rate(policy: BucketPolicy): (r: real)
    ensures r >= 0.001
  {
    if policy.refillPerSecond > 0.001 then policy.refillPerSecond else 0.001
  }

  /** Tokens restored in `ms` milliseconds. */
  function Gain(policy: BucketPolicy, ms: int): real {
    ms as real / 1000.0 * Rate(policy)
  }

  lemma Distributes(x: real, y: real, r: real)
    ensures (x + y) * r == x * r + y * r
  {
  }

  lemma GainAdds(policy: BucketPolicy, a: int, b: int)
    ensures Gain(policy, a + b) == Gain(policy, a) + Gain(policy, b)
  {
    hide Rate;
    assert (a + b) as real / 1000.0 == a as real / 1000.0 + b as real / 1000.0;
    Distributes(a as real / 1000.0, b as real / 1000.0, Rate(policy));
  }

  lemma GainGrows(policy: BucketPolicy, a: int, b: int)
    requires a <= b
    ensures Gain(policy, a) <= Gain(policy, b)
  {
    hide Rate;
    Scaled(b as real / 1000.0, a as real / 1000.0, Rate(policy));
  }

  // --- one bucket ---

  /** The tokens a key has at `now`: a key without a bucket has a full one. */
  function Available(buckets: map<string, Bucket>, key: string, policy: BucketPolicy, now: int): real {
    if key in buckets
    then
      var refilled := buckets[key].tokens + Gain(policy, Max(0, now - buckets[key].updatedAt));
      if refilled < Capacity(policy) then refilled else Capacity(policy)
    else Capacity(policy)
  }

  function Spent(tokens: real): real {
    if tokens >= 1.0 then tokens - 1.0 else tokens
  }

  function ResultOf(tokens: real, policy: BucketPolicy, now: int): BucketResult {
    var remaining := Spent(tokens);
    BucketResult(tokens >= 1.0, remaining,
                 now + Ceil((Capacity(policy) - remaining) / Rate(policy) * 1000.0),
                 if tokens >= 1.0 then 0 else Max(1, Ceil((1.0 - remaining) / Rate(policy))))
  }

  function Charged(buckets: map<string, Bucket>, key: string, policy: BucketPolicy, now: int): map<string, Bucket> {
    buckets[key := Bucket(Spent(Available(buckets, key, policy, now)), now)]
  }

  // --- subnets ---

  function ToSubnet(ip: string): string {
    var parts := Split(ip, '.');
    if |parts| == 4 then Join(parts[..3], '.') else ip
  }

  lemma SubnetOfQuad(a: string, b: string, c: string, d: string)
    requires forall p | p in [a, b, c, d] :: '.' !in p
    ensures ToSubnet(Quad(a, b, c, d)) == Join([a, b, c], '.')
  {
    assert a in [a, b, c, d] && b in [a, b, c, d] && c in [a, b, c, d] && d in [a, b, c, d];
    QuadParts(a, b, c, d);
    assert [a, b, c, d][..3] == [a, b, c];
  }

  /** Two dotted quads share a subnet bucket exactly when their first three parts agree. */
  lemma SameSubnetIff(a: string, b: string, c: string, d: string, a': string, b': string, c': string, d': string)
    requires forall p | p in [a, b, c, d] :: '.' !in p
    requires forall p | p in [a', b', c', d'] :: '.' !in p
    ensures ToSubnet(Quad(a, b, c, d)) == ToSubnet(Quad(a', b', c', d')) <==> a == a' && b == b' && c == c'
  {
    SubnetOfQuad(a, b, c, d);
    SubnetOfQuad(a', b', c', d');
    var p, q := [a, b, c], [a', b', c'];
    if Join(p, '.') == Join(q, '.') {
      assert forall x | x in p :: x in [a, b, c, d];
      assert forall x | x in q :: x in [a', b', c', d'];
      JoinInjective(p, q, '.');
      assert p[0] == q[0] && p[1] == q[1] && p[2] == q[2];
    }
  }

  // --- the limiter ---

  datatype Policies = Policies(ip: BucketPolicy, subnet: BucketPolicy)

  datatype Limiter = Limiter(ip: map<string, Bucket>, subnet: map<string, Bucket>)

  const FRESH: Limiter := Limiter(map[], map[])

  predicate Allows(ps: Policies, s: Limiter, ip: string, now: int) {
    Available(s.ip, ip, ps.ip, now) >= 1.0 && Available(s.subnet, ToSubnet(ip), ps.subnet, now) >= 1.0
  }

  function Checked(ps: Policies, s: Limiter, ip: string, now: int): Limiter {
    Limiter(Charged(s.ip, ip, ps.ip, now), Charged(s.subnet, ToSubnet(ip), ps.subnet, now))
  }

  function Answer(ps: Policies, s: Limiter, ip: string, now: int): RateLimitResult {
    var i := ResultOf(Available(s.ip, ip, ps.ip, now), ps.ip, now);
    var n := ResultOf(Available(s.subnet, ToSubnet(ip), ps.subnet, now), ps.subnet, now);
    RateLimitResult(i.allowed && n.allowed,
                    Min(i.remaining.Floor, n.remaining.Floor),
                    Max(i.resetTime, n.resetTime),
                    if i.allowed && n.allowed then 0 else Max(i.retryAfterSeconds, n.retryAfterSeconds),
                    ip, ToSubnet(ip))
  }

  class ConnectionRateLimiter {
    const policies: Policies
    var ipBuckets: map<string, Bucket>
    var subnetBuckets: map<string, Bucket>
    var allowedTotal: nat
    var blockedTotal: nat

    function State(): Limiter reads this { Limiter(ipBuckets, subnetBuckets) }

    constructor (ipPolicy: BucketPolicy, subnetPolicy: BucketPolicy)
      ensures policies == Policies(ipPolicy, subnetPolicy) && State() == FRESH && allowedTotal == blockedTotal == 0
    {
      policies := Policies(ipPolicy, subnetPolicy);
      ipBuckets := map[];
      subnetBuckets := map[];
      allowedTotal := 0;
      blockedTotal := 0;
    }

    method ConsumeBucket(buckets: map<string, Bucket>, key: string, policy: BucketPolicy, now: int)
      returns (buckets': map<string, Bucket>, r: BucketResult)
      ensures buckets' == Charged(buckets, key, policy, now)
      ensures r == ResultOf(Available(buckets, key, policy, now), policy, now)
    {
      var capacity, refillPerSecond := Capacity(policy), Rate(policy);
      var existing := Get(buckets, key, Bucket(capacity, now));
      NoGain(policy);
      var elapsedSeconds := Max(0, now - existing.updatedAt) as real / 1000.0;
      assert elapsedSeconds * refillPerSecond == Gain(policy, Max(0, now - existing.updatedAt));
      hide Gain, Rate, Capacity, Ceil;
      var tokens := existing.tokens + elapsedSeconds * refillPerSecond;
      if tokens > capacity {
        tokens := capacity;
      }
      assert tokens == Available(buckets, key, policy, now);
      var allowed := tokens >= 1.0;
      var remaining := if allowed then tokens - 1.0 else tokens;
      var resetInMs := Ceil((capacity - remaining) / refillPerSecond * 1000.0);
      var retryAfterSeconds := 0;
      if !allowed {
        retryAfterSeconds := Max(1, Ceil((1.0 - remaining) / refillPerSecond));
      }
      buckets' := buckets[key := Bucket(remaining, now)];
      r := BucketResult(allowed, remaining, now + resetInMs, retryAfterSeconds);
    }

    method Check(ip: string, now: int) returns (r: RateLimitResult)
      modifies this
      ensures State() == Checked(policies, old(State()), ip, now)
      ensures r == Answer(policies, old(State()), ip, now)
      ensures r.allowed == Allows(policies, old(State()), ip, now)
      ensures if r.allowed then r.retryAfterSeconds == 0 else r.retryAfterSeconds >= 1
      ensures allowedTotal == old(allowedTotal) + if r.allowed then 1 else 0
      ensures blockedTotal == old(blockedTotal) + if r.allowed then 0 else 1
    {
      var subnet := ToSubnet(ip);
      var buckets, ipResult := ConsumeBucket(ipBuckets, ip, policies.ip, now);
      ipBuckets := buckets;
      var subnetResult;
      buckets, subnetResult := ConsumeBucket(subnetBuckets, subnet, policies.subnet, now);
      subnetBuckets := buckets;
      var allowed := ipResult.allowed && subnetResult.allowed;
      if allowed {
        allowedTotal := allowedTotal + 1;
      } else {
        blockedTotal := blockedTotal + 1;
      }
      r := RateLimitResult(allowed,
                           Min(ipResult.remaining.Floor, subnetResult.remaining.Floor),
                           Max(ipResult.resetTime, subnetResult.resetTime),
                           if allowed then 0 else Max(ipResult.retryAfterSeconds, subnetResult.retryAfterSeconds),
                           ip, subnet);
    }
  }

  // --- one family of buckets over a whole run ---

  datatype Touch = Touch(key: string, now: int)

  function Charges(policy: BucketPolicy, touches: seq<Touch>): map<string, Bucket> {
    if touches == [] then map[]
    else
      var last := touches[|touches| - 1];
      Charged(Charges(policy, touches[..|touches| - 1]), last.key, policy, last.now)
  }

  /** How many of the touches `from`, … of a key found a token. */
  function Admitted(policy: BucketPolicy, touches: seq<Touch>, from: nat, key: string): nat {
    if |touches| <= from then 0
    else
      var front, last := touches[..|touches| - 1], touches[|touches| - 1];
      var here := last.key == key && Available(Charges(policy, front), key, policy, last.now) >= 1.0;
      Admitted(policy, front, from, key) + if here then 1 else 0
  }

  function LastTime(touches: seq<Touch>, default: int): int {
    if touches == [] then default else touches[|touches| - 1].now
  }

  /** The clock never goes back. */
  predicate InOrder(touches: seq<Touch>) {
    touches != [] ==>
      var front, now := touches[..|touches| - 1], touches[|touches| - 1].now;
      InOrder(front) && LastTime(front, now) <= now
  }

  /** Buckets are between empty and full, and not from the future. */
  predicate Sane(buckets: map<string, Bucket>, policy: BucketPolicy, now: int) {
    forall k | k in buckets :: 0.0 <= buckets[k].tokens <= Capacity(policy) && buckets[k].updatedAt <= now
  }

  lemma NoGain(policy: BucketPolicy)
    ensures Gain(policy, 0) == 0.0
  {
  }

  lemma AvailableBounds(buckets: map<string, Bucket>, key: string, policy: BucketPolicy, now: int)
    requires Sane(buckets, policy, now)
    ensures 0.0 <= Available(buckets, key, policy, now) <= Capacity(policy)
  {
    hide Gain;
    NoGain(policy);
    GainGrows(policy, 0, Max(0, if key in buckets then now - buckets[key].updatedAt else 0));
  }

  /** Time passing restores at most `Gain`. */
  lemma AvailableLater(buckets: map<string, Bucket>, key: string, policy: BucketPolicy, now: int, later: int)
    requires Sane(buckets, policy, now) && now <= later
    ensures Available(buckets, key, policy, later) <= Available(buckets, key, policy, now) + Gain(policy, later - now)
    ensures Sane(buckets, policy, later)
  {
    hide Gain;
    NoGain(policy);
    GainGrows(policy, 0, later - now);
    if key in buckets {
      GainAdds(policy, now - buckets[key].updatedAt, later - now);
    }
  }

  /** A check pays one token for what it admits, and touches no other key. */
  lemma ChargedAvailable(buckets: map<string, Bucket>, key: string, charged: string, policy: BucketPolicy, now: int)
    requires Sane(buckets, policy, now)
    ensures var after := Charged(buckets, charged, policy, now);
            && Sane(after, policy, now)
            && Available(after, key, policy, now) ==
               if key == charged then Spent(Available(buckets, key, policy, now))
               else Available(buckets, key, policy, now)
  {
    hide Gain;
    AvailableBounds(buckets, charged, policy, now);
    NoGain(policy);
  }

  lemma {:induction false} ChargesSane(policy: BucketPolicy, touches: seq<Touch>, now: int)
    requires InOrder(touches) && LastTime(touches, now) <= now
    ensures Sane(Charges(policy, touches), policy, now)
  {
    if touches != [] {
      hide Charged, Available;
      var front, last := touches[..|touches| - 1], touches[|touches| - 1];
      ChargesSane(policy, front, last.now);
      ChargedAvailable(Charges(policy, front), last.key, last.key, policy, last.now);
      AvailableLater(Charges(policy, touches), last.key, policy, last.now, now);
    }
  }

  /** The potential argument: what was admitted plus what is left never exceeds a full bucket plus the refill. */
  lemma {:induction false} Potential(policy: BucketPolicy, touches: seq<Touch>, from: nat, key: string)
    requires InOrder(touches) && from < |touches|
    ensures var now := touches[|touches| - 1].now;
            Admitted(policy, touches, from, key) as real + Available(Charges(policy, touches), key, policy, now)
            <= Capacity(policy) + Gain(policy, now - touches[from].now)
  {
    hide Charged, Available, Gain, Capacity, Sane;
    var front, last := touches[..|touches| - 1], touches[|touches| - 1];
    var before := Charges(policy, front);
    ChargesSane(policy, front, last.now);
    ChargedAvailable(before, key, last.key, policy, last.now);
    AvailableBounds(before, key, policy, last.now);
    if from < |front| {
      var t := front[|front| - 1].now;
      assert LastTime(front, t) == t <= last.now;
      Potential(policy, front, from, key);
      ChargesSane(policy, front, t);
      AvailableLater(before, key, policy, t, last.now);
      GainAdds(policy, t - touches[from].now, last.now - t);
    } else {
      assert Admitted(policy, front, from, key) == 0;
      NoGain(policy);
    }
  }

  lemma AdmittedBound(policy: BucketPolicy, touches: seq<Touch>, from: nat, key: string)
    requires InOrder(touches) && from < |touches|
    ensures Admitted(policy, touches, from, key) as real <=
            Capacity(policy) + Gain(policy, touches[|touches| - 1].now - touches[from].now)
  {
    hide Available, Charges, Gain, Capacity, Sane, Admitted;
    Potential(policy, touches, from, key);
    ChargesSane(policy, touches, touches[|touches| - 1].now);
    AvailableBounds(Charges(policy, touches), key, policy, touches[|touches| - 1].now);
  }

  // --- the limiter over a whole run ---

  datatype Check = Check(ip: string, now: int)

  function Run(ps: Policies, checks: seq<Check>): Limiter {
    if checks == [] then FRESH
    else
      var last := checks[|checks| - 1];
      Checked(ps, Run(ps, checks[..|checks| - 1]), last.ip, last.now)
  }

  /** How many of the checks `from`, … were allowed and satisfy `which`. */
  function Allowed(ps: Policies, checks: seq<Check>, from: nat, which: string -> bool): nat {
    if |checks| <= from then 0
    else
      var front, last := checks[..|checks| - 1], checks[|checks| - 1];
      Allowed(ps, front, from, which) + if which(last.ip) && Allows(ps, Run(ps, front), last.ip, last.now) then 1 else 0
  }

  function IpTouches(checks: seq<Check>): (touches: seq<Touch>)
    ensures |touches| == |checks|
    ensures forall i | 0 <= i < |checks| :: touches[i] == Touch(checks[i].ip, checks[i].now)
  {
    seq(|checks|, i requires 0 <= i < |checks| => Touch(checks[i].ip, checks[i].now))
  }

  function SubnetTouches(checks: seq<Check>): (touches: seq<Touch>)
    ensures |touches| == |checks|
    ensures forall i | 0 <= i < |checks| :: touches[i] == Touch(ToSubnet(checks[i].ip), checks[i].now)
  {
    seq(|checks|, i requires 0 <= i < |checks| => Touch(ToSubnet(checks[i].ip), checks[i].now))
  }

  /** The clock never goes back. */
  predicate Clocked(checks: seq<Check>) {
    InOrder(IpTouches(checks))
  }

  lemma FrontTouches(checks: seq<Check>)
    requires checks != []
    ensures IpTouches(checks)[..|checks| - 1] == IpTouches(checks[..|checks| - 1])
    ensures SubnetTouches(checks)[..|checks| - 1] == SubnetTouches(checks[..|checks| - 1])
  {
  }

  lemma {:induction false} SameClock(checks: seq<Check>)
    requires Clocked(checks)
    ensures InOrder(SubnetTouches(checks))
  {
    hide ToSubnet;
    if checks != [] {
      FrontTouches(checks);
      SameClock(checks[..|checks| - 1]);
    }
  }

  /** The two families are charged independently, whatever the other one answers. */
  lemma {:induction false} RunIsCharges(ps: Policies, checks: seq<Check>)
    ensures Run(ps, checks) == Limiter(Charges(ps.ip, IpTouches(checks)), Charges(ps.subnet, SubnetTouches(checks)))
  {
    hide Charged, ToSubnet;
    if checks != [] {
      FrontTouches(checks);
      RunIsCharges(ps, checks[..|checks| - 1]);
    }
  }

  lemma {:induction false} AllowedIsAdmitted(ps: Policies, checks: seq<Check>, from: nat, ip: string)
    ensures Allowed(ps, checks, from, x => x == ip) <= Admitted(ps.ip, IpTouches(checks), from, ip)
    ensures Allowed(ps, checks, from, x => ToSubnet(x) == ToSubnet(ip)) <=
            Admitted(ps.subnet, SubnetTouches(checks), from, ToSubnet(ip))
  {
    hide Charges, ToSubnet, Available, Run;
    if |checks| > from {
      var front := checks[..|checks| - 1];
      FrontTouches(checks);
      AllowedIsAdmitted(ps, front, from, ip);
      RunIsCharges(ps, front);
    }
  }

  /**
   In any stretch of checks from time s to time t, at most capacity + refill * (t - s) / 1000
   connections are allowed from each IP, and from each /24, at once.
   */
  lemma StretchIsBounded(ps: Policies, checks: seq<Check>, from: nat, ip: string)
    requires Clocked(checks) && from < |checks|
    ensures var ms := checks[|checks| - 1].now - checks[from].now;
            && Allowed(ps, checks, from, x => x == ip) as real <= Capacity(ps.ip) + ms as real / 1000.0 * Rate(ps.ip)
            && Allowed(ps, checks, from, x => ToSubnet(x) == ToSubnet(ip)) as real
               <= Capacity(ps.subnet) + ms as real / 1000.0 * Rate(ps.subnet)
  {
    hide Allowed, Admitted, Capacity, ToSubnet, InOrder, Gain, Rate;
    var ms := checks[|checks| - 1].now - checks[from].now;
    SameClock(checks);
    AllowedIsAdmitted(ps, checks, from, ip);
    AdmittedBound(ps.ip, IpTouches(checks), from, ip);
    AdmittedBound(ps.subnet, SubnetTouches(checks), from, ToSubnet(ip));
    GainIs(ps.ip, ms);
    GainIs(ps.subnet, ms);
    AtMost(Allowed(ps, checks, from, x => x == ip), Admitted(ps.ip, IpTouches(checks), from, ip),
           Capacity(ps.ip) + Gain(ps.ip, ms));
    AtMost(Allowed(ps, checks, from, x => ToSubnet(x) == ToSubnet(ip)),
           Admitted(ps.subnet, SubnetTouches(checks), from, ToSubnet(ip)), Capacity(ps.subnet) + Gain(ps.subnet, ms));
  }

  lemma GainIs(policy: BucketPolicy, ms: int)
    ensures Gain(policy, ms) == ms as real / 1000.0 * Rate(policy)
  {
  }

  lemma AtMost(allowed: nat, admitted: nat, bound: real)
    requires allowed <= admitted && admitted as real <= bound
    ensures allowed as real <= bound
  {
  }

  // --- retrying ---

  /** The tokens of a bucket found with `tokens` at a check, `ms` later with no other check on it. */
  function Refilled(policy: BucketPolicy, tokens: real, ms: int): real {
    if Spent(tokens) + Gain(policy, ms) < Capacity(policy) then Spent(tokens) + Gain(policy, ms) else Capacity(policy)
  }

  lemma AfterWaiting(buckets: map<string, Bucket>, key: string, policy: BucketPolicy, now: int,
      later: map<string, Bucket>, ms: nat)
    requires key in later && later[key] == Charged(buckets, key, policy, now)[key]
    ensures Available(later, key, policy, now + ms) == Refilled(policy, Available(buckets, key, policy, now), ms)
  {
  }

  lemma CeilIff(n: int, x: real)
    ensures n as real >= x <==> n >= Ceil(x)
  {
  }

  lemma Scaled(x: real, y: real, r: real)
    requires r > 0.0
    ensures x >= y <==> x * r >= y * r
  {
    if x >= y {
      assert (x - y) * r >= 0.0;
    } else {
      assert (y - x) * r > 0.0;
    }
  }

  lemma Quotient(need: real, r: real)
    requires r > 0.0
    ensures need / r * r == need
  {
  }

  /** How long `need` tokens take. */
  lemma GainReaches(policy: BucketPolicy, need: real, ms: int)
    ensures Gain(policy, ms) >= need <==> ms as real >= need / Rate(policy) * 1000.0
  {
    hide Rate;
    var r := Rate(policy);
    Quotient(need, r);
    Scaled(ms as real / 1000.0, need / r, r);
  }

  lemma CeilCovers(policy: BucketPolicy, need: real, seconds: int)
    ensures Gain(policy, 1000 * seconds) >= need <==> seconds >= Ceil(need / Rate(policy))
  {
    hide Ceil, Rate, Gain;
    GainReaches(policy, need, 1000 * seconds);
    CeilIff(seconds, need / Rate(policy));
  }

  /**
   A bucket that refused admits after its own wait, and no earlier whole number of seconds above the
   one second floor.
   */
  lemma RefusedBucket(policy: BucketPolicy, tokens: real, now: int, seconds: nat)
    requires tokens < 1.0
    ensures var own := ResultOf(tokens, policy, now).retryAfterSeconds;
            && own >= 1
            && (seconds >= own ==> Refilled(policy, tokens, 1000 * seconds) >= 1.0)
            && (0 < seconds < own ==> Refilled(policy, tokens, 1000 * seconds) < 1.0)
  {
    hide Gain;
    CeilCovers(policy, 1.0 - tokens, seconds);
  }

  /** The bucket admitted: what it kept plus the refill of the wait. */
  predicate StillHolds(policy: BucketPolicy, tokens: real, seconds: nat) {
    tokens < 1.0 || tokens - 1.0 + Gain(policy, 1000 * seconds) >= 1.0
  }

  /**
   After a refused check, wait exactly the seconds it announced, with no other check on the two
   buckets in between (checks on other buckets are free). The retry is allowed exactly when each
   bucket that had admitted the first attempt, and was charged for it, holds a token again by then.
   */
  lemma RetryAllowedIff(ps: Policies, s: Limiter, ip: string, now: int, later: Limiter)
    requires !Allows(ps, s, ip, now)
    requires ip in later.ip && later.ip[ip] == Checked(ps, s, ip, now).ip[ip]
    requires ToSubnet(ip) in later.subnet && later.subnet[ToSubnet(ip)] == Checked(ps, s, ip, now).subnet[ToSubnet(ip)]
    ensures var wait := Answer(ps, s, ip, now).retryAfterSeconds;
            && wait >= 1
            && (Allows(ps, later, ip, now + 1000 * wait) <==>
                && StillHolds(ps.ip, Available(s.ip, ip, ps.ip, now), wait)
                && StillHolds(ps.subnet, Available(s.subnet, ToSubnet(ip), ps.subnet, now), wait))
  {
    hide Available, Gain, ToSubnet, Ceil;
    var i, n := Available(s.ip, ip, ps.ip, now), Available(s.subnet, ToSubnet(ip), ps.subnet, now);
    var wait := Answer(ps, s, ip, now).retryAfterSeconds;
    if i < 1.0 {
      RefusedBucket(ps.ip, i, now, 0);
    }
    if n < 1.0 {
      RefusedBucket(ps.subnet, n, now, 0);
    }
    assert wait >= 1;
    if i < 1.0 {
      RefusedBucket(ps.ip, i, now, wait);
    }
    if n < 1.0 {
      RefusedBucket(ps.subnet, n, now, wait);
    }
    AfterWaiting(s.ip, ip, ps.ip, now, later.ip, 1000 * wait);
    AfterWaiting(s.subnet, ToSubnet(ip), ps.subnet, now, later.subnet, 1000 * wait);
  }

  /** With both refill rates at least one per second the announced wait is always enough. */
  lemma RetryIsAllowed(ps: Policies, s: Limiter, ip: string, now: int, later: Limiter)
    requires !Allows(ps, s, ip, now)
    requires ps.ip.refillPerSecond >= 1.0 && ps.subnet.refillPerSecond >= 1.0
    requires ip in later.ip && later.ip[ip] == Checked(ps, s, ip, now).ip[ip]
    requires ToSubnet(ip) in later.subnet && later.subnet[ToSubnet(ip)] == Checked(ps, s, ip, now).subnet[ToSubnet(ip)]
    ensures Allows(ps, later, ip, now + 1000 * Answer(ps, s, ip, now).retryAfterSeconds)
  {
    RetryAllowedIff(ps, s, ip, now, later);
    var wait := Answer(ps, s, ip, now).retryAfterSeconds;
    hide Available, ToSubnet, Answer, Allows, Checked;
    FastRefill(ps.ip, Available(s.ip, ip, ps.ip, now), wait);
    FastRefill(ps.subnet, Available(s.subnet, ToSubnet(ip), ps.subnet, now), wait);
  }

  lemma FastRefill(policy: BucketPolicy, tokens: real, wait: nat)
    requires policy.refillPerSecond >= 1.0 && wait >= 1
    ensures StillHolds(policy, tokens, wait)
  {
    if tokens >= 1.0 {
      CeilCovers(policy, 1.0, wait);
      assert 1.0 / Rate(policy) <= 1.0;
    }
  }

  // --- the reset time ---

  /** At the announced reset time both buckets are full again, and one millisecond before they are not. */
  lemma ResetMeansFull(ps: Policies, s: Limiter, ip: string, now: int, later: Limiter, ms: nat)
    requires ip in later.ip && later.ip[ip] == Checked(ps, s, ip, now).ip[ip]
    requires ToSubnet(ip) in later.subnet && later.subnet[ToSubnet(ip)] == Checked(ps, s, ip, now).subnet[ToSubnet(ip)]
    ensures (&& Available(later.ip, ip, ps.ip, now + ms) == Capacity(ps.ip)
             && Available(later.subnet, ToSubnet(ip), ps.subnet, now + ms) == Capacity(ps.subnet))
            <==> now + ms >= Answer(ps, s, ip, now).resetTime
  {
    hide Available, Gain, ToSubnet, Ceil, Capacity;
    var i, n := Available(s.ip, ip, ps.ip, now), Available(s.subnet, ToSubnet(ip), ps.subnet, now);
    AfterWaiting(s.ip, ip, ps.ip, now, later.ip, ms);
    AfterWaiting(s.subnet, ToSubnet(ip), ps.subnet, now, later.subnet, ms);
    FullAgain(ps.ip, i, now, ms);
    FullAgain(ps.subnet, n, now, ms);
  }

  lemma FullAgain(policy: BucketPolicy, tokens: real, now: int, ms: nat)
    ensures Refilled(policy, tokens, ms) == Capacity(policy) <==> now + ms >= ResultOf(tokens, policy, now).resetTime
  {
    hide Ceil, Capacity;
    var need := Capacity(policy) - Spent(tokens);
    GainReaches(policy, need, ms);
    CeilIff(ms, need / Rate(policy) * 1000.0);
  }
}
