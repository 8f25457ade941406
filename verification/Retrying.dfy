/**
 Which configurations of the connection limiter (src/rate-limiter/connection-rate-limiter.ts)
 announce waits a client can rely on. A refused check still charges the bucket that admitted, so a
 bucket that refills too slowly can refuse the retry.
 */
module Retrying {
  import opened Common
  import opened Text
  import opened RateLimiting

  /** The checks so far are in clock order and none is later than `now`. */
  predicate Before(checks: seq<Check>, now: int) {
    Clocked(checks) && LastTime(IpTouches(checks), now) <= now
  }

  /** The limiter after `checks` refuses `ip`, and refuses again when the announced seconds are over. */
  predicate RefusedTwice(ps: Policies, checks: seq<Check>, ip: string, now: int) {
    var s := Run(ps, checks);
    && !Allows(ps, s, ip, now)
    && !Allows(ps, Checked(ps, s, ip, now), ip, now + 1000 * Answer(ps, s, ip, now).retryAfterSeconds)
  }

  /** In no run does a client that waits the announced seconds meet a second refusal. */
  ghost predicate WaitsSuffice(ps: Policies) {
    forall checks: seq<Check>, ip: string, now: int | Before(checks, now) :: !RefusedTwice(ps, checks, ip, now)
  }

  // --- two addresses of one subnet ---

  const FIRST := Quad("10", "0", "0", "1")
  const SECOND := Quad("10", "0", "0", "2")
  const SUBNET := Join(["10", "0", "0"], '.')

  lemma Neighbours()
    ensures FIRST != SECOND && ToSubnet(FIRST) == SUBNET && ToSubnet(SECOND) == SUBNET
  {
    hide ToSubnet;
    SubnetOfQuad("10", "0", "0", "1");
    SubnetOfQuad("10", "0", "0", "2");
    QuadParts("10", "0", "0", "1");
    QuadParts("10", "0", "0", "2");
    assert "1" != "2";
    assert ["10", "0", "0", "1"][3] == "1" && ["10", "0", "0", "2"][3] == "2";
  }

  /** What the second address has left at `now`. */
  function Own(ps: Policies, checks: seq<Check>, now: int): real {
    Available(Run(ps, checks).ip, SECOND, ps.ip, now)
  }

  /** What their subnet has left at `now`. */
  function Shared(ps: Policies, checks: seq<Check>, now: int): real {
    Available(Run(ps, checks).subnet, SUBNET, ps.subnet, now)
  }

  // --- how the two change ---

  function AtMostFull(policy: BucketPolicy, tokens: real): real {
    if tokens < Capacity(policy) then tokens else Capacity(policy)
  }

  lemma RunSane(ps: Policies, checks: seq<Check>, now: int)
    requires Before(checks, now)
    ensures Sane(Run(ps, checks).ip, ps.ip, now) && Sane(Run(ps, checks).subnet, ps.subnet, now)
  {
    hide Charges, ToSubnet, Sane;
    RunIsCharges(ps, checks);
    SameClock(checks);
    ChargesSane(ps.ip, IpTouches(checks), now);
    ChargesSane(ps.subnet, SubnetTouches(checks), now);
  }

  /** A bucket left alone fills up at its rate. */
  lemma Fills(buckets: map<string, Bucket>, key: string, policy: BucketPolicy, now: int, later: int)
    requires Sane(buckets, policy, now) && now <= later
    ensures Available(buckets, key, policy, later) ==
            AtMostFull(policy, Available(buckets, key, policy, now) + Gain(policy, later - now))
  {
    hide Gain, Capacity;
    NoGain(policy);
    GainGrows(policy, 0, later - now);
    if key in buckets {
      GainAdds(policy, now - buckets[key].updatedAt, later - now);
    }
  }

  lemma Waited(ps: Policies, checks: seq<Check>, now: int, later: int)
    requires Before(checks, now) && now <= later
    ensures Before(checks, later)
    ensures Own(ps, checks, later) == AtMostFull(ps.ip, Own(ps, checks, now) + Gain(ps.ip, later - now))
    ensures Shared(ps, checks, later) == AtMostFull(ps.subnet, Shared(ps, checks, now) + Gain(ps.subnet, later - now))
  {
    hide Available, Gain, Capacity, Sane, AtMostFull, Run, SECOND, SUBNET;
    RunSane(ps, checks, now);
    Fills(Run(ps, checks).ip, SECOND, ps.ip, now, later);
    Fills(Run(ps, checks).subnet, SUBNET, ps.subnet, now, later);
  }

  lemma OneMore(ps: Policies, checks: seq<Check>, ip: string, now: int)
    requires Before(checks, now) && (ip == FIRST || ip == SECOND)
    ensures var more := checks + [Check(ip, now)];
            && Before(more, now)
            && Own(ps, more, now) == (if ip == SECOND then Spent(Own(ps, checks, now)) else Own(ps, checks, now))
            && Shared(ps, more, now) == Spent(Shared(ps, checks, now))
  {
    hide Available, Capacity, Sane, Charged, FIRST, SECOND, SUBNET, ToSubnet;
    var more := checks + [Check(ip, now)];
    assert more[..|checks|] == checks;
    FrontTouches(more);
    Neighbours();
    RunSane(ps, checks, now);
    ChargedAvailable(Run(ps, checks).ip, SECOND, ip, ps.ip, now);
    ChargedAvailable(Run(ps, checks).subnet, SUBNET, SUBNET, ps.subnet, now);
  }

  // --- repeating a check ---

  function Again(checks: seq<Check>, ip: string, now: int, n: nat): seq<Check> {
    if n == 0 then checks else Again(checks, ip, now, n - 1) + [Check(ip, now)]
  }

  /** `n` tokens taken, or as many as there are. */
  function Drained(tokens: real, n: nat): real {
    if n <= tokens.Floor then tokens - n as real else tokens - tokens.Floor as real
  }

  lemma {:induction false} Repeated(ps: Policies, checks: seq<Check>, ip: string, now: int, n: nat)
    requires Before(checks, now) && (ip == FIRST || ip == SECOND)
    requires Own(ps, checks, now) >= 0.0 && Shared(ps, checks, now) >= 0.0
    ensures var more := Again(checks, ip, now, n);
            && Before(more, now)
            && Own(ps, more, now) == (if ip == SECOND then Drained(Own(ps, checks, now), n) else Own(ps, checks, now))
            && Shared(ps, more, now) == Drained(Shared(ps, checks, now), n)
  {
    hide Own, Shared, Before, FIRST, SECOND;
    if n > 0 {
      Repeated(ps, checks, ip, now, n - 1);
      OneMore(ps, Again(checks, ip, now, n - 1), ip, now);
      TakeOne(Own(ps, checks, now), n);
      TakeOne(Shared(ps, checks, now), n);
    }
  }

  lemma TakeOne(tokens: real, n: nat)
    requires tokens >= 0.0 && n > 0
    ensures Drained(tokens, n) == Spent(Drained(tokens, n - 1))
  {
  }

  lemma NotNegative(ps: Policies, checks: seq<Check>, now: int)
    requires Before(checks, now)
    ensures 0.0 <= Own(ps, checks, now) <= Capacity(ps.ip)
    ensures 0.0 <= Shared(ps, checks, now) <= Capacity(ps.subnet)
  {
    hide Available, Capacity, Sane, Run, SECOND, SUBNET;
    RunSane(ps, checks, now);
    AvailableBounds(Run(ps, checks).ip, SECOND, ps.ip, now);
    AvailableBounds(Run(ps, checks).subnet, SUBNET, ps.subnet, now);
  }

  // --- a second refusal ---

  lemma OneSecond(policy: BucketPolicy)
    ensures Gain(policy, 1000) == Rate(policy)
  {
    hide Rate;
    assert 1000 as real / 1000.0 == 1.0;
  }

  /** A bucket one second short of a token announces one second. */
  lemma AnnouncesOne(policy: BucketPolicy, tokens: real, now: int)
    requires 1.0 - Rate(policy) <= tokens < 1.0
    ensures ResultOf(tokens, policy, now).retryAfterSeconds == 1
  {
    hide Rate, Gain, Ceil;
    CeilCovers(policy, 1.0 - tokens, 1);
    OneSecond(policy);
  }

  /** One bucket refuses and asks for one second; the other one admits and has not refilled by then. */
  lemma SecondRefusal(ps: Policies, checks: seq<Check>, now: int)
    requires Before(checks, now)
    requires var own, shared := Own(ps, checks, now), Shared(ps, checks, now);
             || (1.0 - Rate(ps.subnet) <= shared < 1.0 <= own < 2.0 - Rate(ps.ip))
             || (1.0 - Rate(ps.ip) <= own < 1.0 <= shared < 2.0 - Rate(ps.subnet))
    ensures !WaitsSuffice(ps)
  {
    hide Available, Rate, Gain, Ceil, ToSubnet, FIRST, SECOND, SUBNET, Before, Charged;
    Neighbours();
    var s := Run(ps, checks);
    var later := Checked(ps, s, SECOND, now);
    assert SECOND in later.ip && SUBNET in later.subnet by {
      Present(s.ip, SECOND, ps.ip, now);
      Present(s.subnet, SUBNET, ps.subnet, now);
    }
    hide Run;
    OneSecond(ps.ip);
    OneSecond(ps.subnet);
    if Own(ps, checks, now) < 1.0 {
      AnnouncesOne(ps.ip, Own(ps, checks, now), now);
    } else {
      AnnouncesOne(ps.subnet, Shared(ps, checks, now), now);
    }
    assert Answer(ps, s, SECOND, now).retryAfterSeconds == 1;
    RetryAllowedIff(ps, s, SECOND, now, later);
    assert RefusedTwice(ps, checks, SECOND, now);
  }

  lemma Present(buckets: map<string, Bucket>, key: string, policy: BucketPolicy, now: int)
    ensures key in Charged(buckets, key, policy, now)
  {
  }

  // --- a slow IP bucket ---

  /**
   Once a second the first address takes all the subnet has left; in the rounds from `start` on the
   second address then takes one of its own tokens.
   */
  function Rounds(start: nat, all: nat, n: nat): seq<Check> {
    if n == 0 then []
    else
      var emptied := Again(Rounds(start, all, n - 1), FIRST, 1000 * (n - 1), all);
      if start < n then Again(emptied, SECOND, 1000 * (n - 1), 1) else emptied
  }

  function Times(n: nat, r: real): real {
    n as real * r
  }

  lemma OneMoreTime(n: nat, r: real)
    ensures Times(0, r) == 0.0
    ensures Times(n + 1, r) == Times(n, r) + r
    ensures r >= 0.0 ==> Times(n, r) >= 0.0
  {
    assert (n + 1) as real == n as real + 1.0;
    Distributes(n as real, 1.0, r);
    if r > 0.0 {
      Scaled(n as real, 0.0, r);
    }
  }

  function Fraction(x: real): (f: real)
    ensures 0.0 <= f < 1.0
  {
    x - x.Floor as real
  }

  /** The subnet's tokens when round `n` begins. */
  function SharedAt(policy: BucketPolicy, n: nat): (tokens: real)
    ensures 0.0 <= tokens <= Capacity(policy)
  {
    if n == 0 then Capacity(policy)
    else AtMostFull(policy, Fraction(SharedAt(policy, n - 1)) + Rate(policy))
  }

  /** The second address's tokens when round `n` begins. */
  function OwnAt(policy: BucketPolicy, start: nat, n: nat): real {
    if n <= start then Capacity(policy) else Capacity(policy) - Times(n - start, 1.0 - Rate(policy))
  }

  lemma FreshStart(ps: Policies)
    ensures Before([], 0) && Own(ps, [], 0) == Capacity(ps.ip) && Shared(ps, [], 0) == Capacity(ps.subnet)
  {
  }

  lemma NextSecond(ps: Policies, checks: seq<Check>, now: int)
    requires Before(checks, now)
    ensures Before(checks, now + 1000)
    ensures Own(ps, checks, now + 1000) == AtMostFull(ps.ip, Own(ps, checks, now) + Rate(ps.ip))
    ensures Shared(ps, checks, now + 1000) == AtMostFull(ps.subnet, Shared(ps, checks, now) + Rate(ps.subnet))
  {
    hide Own, Shared, AtMostFull, Rate, Gain;
    Waited(ps, checks, now, now + 1000);
    OneSecond(ps.ip);
    OneSecond(ps.subnet);
  }

  /** Taking one token and waiting a second costs 1 - rate, as long as the bucket does not fill up. */
  lemma OwnStep(policy: BucketPolicy, start: nat, n: nat)
    requires Rate(policy) < 1.0
    requires n >= start ==> KeepsWhole(policy, n - start)
    ensures OwnAt(policy, start, n) >= 1.0
    ensures AtMostFull(policy, (if start < n + 1 then OwnAt(policy, start, n) - 1.0 else OwnAt(policy, start, n))
                       + Rate(policy))
            == OwnAt(policy, start, n + 1)
  {
    hide Rate, Capacity, Times;
    assert Rate(policy) >= 0.001 && Capacity(policy) >= 1.0;
    if n >= start {
      OneMoreTime(n - start, 1.0 - Rate(policy));
    }
  }

  /** `n` rounds of taking a token and waiting a second keep all whole tokens of a full bucket. */
  predicate KeepsWhole(policy: BucketPolicy, n: nat) {
    Times(n, 1.0 - Rate(policy)) <= Fraction(Capacity(policy))
  }

  lemma {:induction false} RoundsAre(ps: Policies, start: nat, all: nat, n: nat)
    requires Rate(ps.ip) < 1.0 && all >= Capacity(ps.subnet).Floor
    requires n > start ==> KeepsWhole(ps.ip, n - 1 - start)
    ensures var checks := Rounds(start, all, n);
            && Before(checks, 1000 * n)
            && Own(ps, checks, 1000 * n) == OwnAt(ps.ip, start, n)
            && Shared(ps, checks, 1000 * n) == SharedAt(ps.subnet, n)
  {
    hide Own, Shared, Before, Rate, Capacity, OwnAt, AtMostFull, FIRST, SECOND, KeepsWhole, SharedAt;
    if n == 0 {
      FreshStart(ps);
      AtStart(ps, start);
    } else {
      var before, now := Rounds(start, all, n - 1), 1000 * (n - 1);
      if n - 1 > start {
        FewerRounds(ps.ip, n - 2 - start);
      }
      RoundsAre(ps, start, all, n - 1);
      OwnStep(ps.ip, start, n - 1);
      OneRound(ps, before, now, all, start < n);
      SharedStep(ps.subnet, n);
    }
  }

  lemma OneRound(ps: Policies, before: seq<Check>, now: int, all: nat, both: bool)
    requires Before(before, now) && all >= Capacity(ps.subnet).Floor && Own(ps, before, now) >= 1.0
    ensures var own, shared := Own(ps, before, now), Shared(ps, before, now);
            var emptied := Again(before, FIRST, now, all);
            var after := if both then Again(emptied, SECOND, now, 1) else emptied;
            && Before(after, now + 1000)
            && Own(ps, after, now + 1000) == AtMostFull(ps.ip, (if both then own - 1.0 else own) + Rate(ps.ip))
            && Shared(ps, after, now + 1000) == AtMostFull(ps.subnet, Fraction(shared) + Rate(ps.subnet))
  {
    hide Own, Shared, Before, Rate, Capacity, AtMostFull, FIRST, SECOND, Drained, Fraction, Again;
    var own, shared := Own(ps, before, now), Shared(ps, before, now);
    Neighbours();
    NotNegative(ps, before, now);
    Repeated(ps, before, FIRST, now, all);
    DrainsAll(shared, Capacity(ps.subnet), all);
    var emptied := Again(before, FIRST, now, all);
    if both {
      Repeated(ps, emptied, SECOND, now, 1);
      DrainsOne(own);
      DrainsAll(Fraction(shared), Capacity(ps.subnet), 1);
      FractionTwice(shared);
      NextSecond(ps, Again(emptied, SECOND, now, 1), now);
    } else {
      NextSecond(ps, emptied, now);
    }
  }

  lemma FractionTwice(x: real)
    ensures Fraction(Fraction(x)) == Fraction(x)
  {
  }

  lemma SharedStep(policy: BucketPolicy, n: nat)
    requires n > 0
    ensures SharedAt(policy, n) == AtMostFull(policy, Fraction(SharedAt(policy, n - 1)) + Rate(policy))
  {
  }

  lemma AtStart(ps: Policies, start: nat)
    ensures OwnAt(ps.ip, start, 0) == Capacity(ps.ip) && OwnAt(ps.subnet, start, 0) == Capacity(ps.subnet)
    ensures SharedAt(ps.subnet, 0) == Capacity(ps.subnet)
  {
  }

  lemma DrainsAll(tokens: real, capacity: real, n: nat)
    requires 0.0 <= tokens <= capacity && (n >= capacity.Floor || tokens < 1.0)
    ensures Drained(tokens, n) == Fraction(tokens) && 0.0 <= Fraction(tokens) < 1.0
  {
  }

  lemma DrainsOne(tokens: real)
    requires tokens >= 1.0
    ensures Drained(tokens, 1) == tokens - 1.0
  {
  }

  lemma DrainsTo(tokens: real, whole: nat, n: nat)
    requires n <= whole && whole as real <= tokens
    ensures Drained(tokens, n) == tokens - n as real
  {
  }

  /** After as many steps as fit, the tokens are less than one step above the whole ones. */
  lemma OwnIsClose(policy: BucketPolicy, start: nat, n: nat)
    requires Rate(policy) < 1.0 && KeepsWhole(policy, n) && !KeepsWhole(policy, n + 1)
    ensures var whole := Capacity(policy).Floor as real;
            whole <= OwnAt(policy, start, start + n) < whole + 1.0 - Rate(policy)
  {
    hide Rate, Capacity, Times, Fraction;
    OneMoreTime(n, 1.0 - Rate(policy));
    assert Fraction(Capacity(policy)) == Capacity(policy) - Capacity(policy).Floor as real by {
      FractionIs(Capacity(policy));
    }
  }

  lemma FractionIs(x: real)
    ensures Fraction(x) == x - x.Floor as real
  {
  }

  lemma FewerRounds(policy: BucketPolicy, n: nat)
    requires Rate(policy) < 1.0 && KeepsWhole(policy, n + 1)
    ensures KeepsWhole(policy, n)
  {
    hide Rate, Capacity, Times, Fraction;
    OneMoreTime(n, 1.0 - Rate(policy));
  }

  /** Below one token the subnet fills up by its rate a second. */
  lemma {:induction false} SharedRises(policy: BucketPolicy, k: nat, m: nat)
    requires Fraction(SharedAt(policy, k)) + Times(m, Rate(policy)) < 1.0
    ensures Fraction(SharedAt(policy, k + m)) == Fraction(SharedAt(policy, k)) + Times(m, Rate(policy))
  {
    hide Rate, Capacity, SharedAt, Fraction, Times;
    if m > 0 {
      OneMoreTime(m - 1, Rate(policy));
      SharedRises(policy, k, m - 1);
      RisesOnce(policy, k + m - 1);
    } else {
      OneMoreTime(0, Rate(policy));
    }
  }

  lemma RisesOnce(policy: BucketPolicy, n: nat)
    requires Fraction(SharedAt(policy, n)) + Rate(policy) < 1.0
    ensures Fraction(SharedAt(policy, n + 1)) == Fraction(SharedAt(policy, n)) + Rate(policy)
  {
    hide Rate, Capacity;
  }

  lemma HowMany(room: real, step: real) returns (n: nat)
    requires room >= 0.0 && step > 0.0
    ensures Times(n, step) <= room < Times(n, step) + step
  {
    Quotient(room, step);
    var steps := room / step;
    Scaled(steps, 0.0, step);
    n := steps.Floor;
    OneMoreTime(n, step);
    Between(n, steps, step);
  }

  lemma Between(n: nat, x: real, r: real)
    requires n as real <= x < (n + 1) as real && r > 0.0
    ensures Times(n, r) <= x * r < Times(n + 1, r)
  {
    Scaled(x, n as real, r);
    Scaled(x, (n + 1) as real, r);
  }

  /** How many rounds keep all whole tokens of a full bucket. */
  lemma WholeSteps(policy: BucketPolicy) returns (n: nat)
    requires Rate(policy) < 1.0
    ensures KeepsWhole(policy, n) && !KeepsWhole(policy, n + 1)
    ensures n > 0 ==> KeepsWhole(policy, n - 1)
  {
    hide Rate, Capacity, Fraction, Times;
    n := HowMany(Fraction(Capacity(policy)), 1.0 - Rate(policy));
    OneMoreTime(n, 1.0 - Rate(policy));
    if n > 0 {
      FewerRounds(policy, n - 1);
    }
  }

  /**
   An IP bucket that refills by less than one token a second makes some announced wait too short,
   whatever the two capacities and whatever the refill of the subnet.
   */
  lemma SlowIp(ps: Policies)
    requires Rate(ps.ip) < 1.0
    ensures !WaitsSuffice(ps)
  {
    hide Own, Shared, Before, WaitsSuffice, Rate, Capacity, FIRST, SECOND, SharedAt, Rounds, KeepsWhole, OwnAt, Times;
    var all, own := Capacity(ps.subnet).Floor, Capacity(ps.ip).Floor - 1;
    var k := WholeSteps(ps.ip);
    DrainsAll(SharedAt(ps.subnet, k), Capacity(ps.subnet), all);
    var m := LastBelowOne(ps.subnet, Fraction(SharedAt(ps.subnet, k)));
    SharedRises(ps.subnet, k, m);
    OwnIsClose(ps.ip, m, k);
    var n := m + k;
    var checks, now := Rounds(m, all, n), 1000 * n;
    RoundsAre(ps, m, all, n);
    ghost var left := Fraction(SharedAt(ps.subnet, n));
    hide Fraction;
    assert 1.0 - Rate(ps.subnet) <= left < 1.0;
    EmptyBoth(ps, checks, now, all, own);
  }

  /** The first address takes all the subnet has, and the second all it has itself but for one token. */
  lemma EmptyBoth(ps: Policies, checks: seq<Check>, now: int, all: nat, own: nat)
    requires Before(checks, now) && all >= Capacity(ps.subnet).Floor
    requires 1.0 - Rate(ps.subnet) <= Fraction(Shared(ps, checks, now))
    requires (own + 1) as real <= Own(ps, checks, now) < (own + 2) as real - Rate(ps.ip)
    ensures !WaitsSuffice(ps)
  {
    hide Own, Shared, Before, WaitsSuffice, Rate, Capacity, FIRST, SECOND, Drained, Fraction;
    Neighbours();
    NotNegative(ps, checks, now);
    var had := Shared(ps, checks, now);
    Repeated(ps, checks, FIRST, now, all);
    DrainsAll(had, Capacity(ps.subnet), all);
    var emptied := Again(checks, FIRST, now, all);
    Repeated(ps, emptied, SECOND, now, own);
    DrainsAll(Fraction(had), Capacity(ps.subnet), own);
    FractionTwice(had);
    DrainsTo(Own(ps, checks, now), own + 1, own);
    SecondRefusal(ps, Again(emptied, SECOND, now, own), now);
  }

  lemma LastBelowOne(policy: BucketPolicy, tokens: real) returns (m: nat)
    requires 0.0 <= tokens < 1.0
    ensures 1.0 - Rate(policy) <= tokens + Times(m, Rate(policy)) < 1.0
  {
    hide Rate, Times;
    assert Rate(policy) >= 0.001;
    m := HowMany(1.0 - tokens, Rate(policy));
    OneMoreTime(0, Rate(policy));
    if Times(m, Rate(policy)) == 1.0 - tokens {
      m := m - 1;
      OneMoreTime(m, Rate(policy));
    }
  }

  // --- a slow subnet bucket ---

  /** The first address takes one token of the subnet a second. */
  function Sips(n: nat): seq<Check> {
    if n == 0 then [] else Again(Sips(n - 1), FIRST, 1000 * (n - 1), 1)
  }

  lemma {:induction false} SipsAre(ps: Policies, n: nat)
    requires Rate(ps.subnet) < 1.0
    requires n > 0 ==> KeepsWhole(ps.subnet, n - 1)
    ensures Before(Sips(n), 1000 * n)
    ensures Own(ps, Sips(n), 1000 * n) == Capacity(ps.ip)
    ensures Shared(ps, Sips(n), 1000 * n) == OwnAt(ps.subnet, 0, n)
  {
    hide Own, Shared, Before, Rate, Capacity, OwnAt, FIRST, SECOND;
    if n == 0 {
      FreshStart(ps);
      AtStart(ps, 0);
    } else {
      if n > 1 {
        FewerRounds(ps.subnet, n - 2);
      }
      SipsAre(ps, n - 1);
      OwnStep(ps.subnet, 0, n - 1);
      NotNegative(ps, Sips(n - 1), 1000 * (n - 1));
      Neighbours();
      Repeated(ps, Sips(n - 1), FIRST, 1000 * (n - 1), 1);
      NextSecond(ps, Sips(n), 1000 * (n - 1));
      assert Rate(ps.ip) >= 0.001;
    }
  }

  /**
   A subnet bucket that refills by less than one token a second makes some announced wait too short
   when it holds at least one whole connection more than the bucket of one IP.
   */
  lemma SlowSubnet(ps: Policies)
    requires Rate(ps.subnet) < 1.0 <= Rate(ps.ip)
    requires Capacity(ps.ip).Floor < Capacity(ps.subnet).Floor
    ensures !WaitsSuffice(ps)
  {
    hide Own, Shared, Before, WaitsSuffice, Rate, Capacity, FIRST, SECOND, Sips, KeepsWhole, OwnAt;
    var k := WholeSteps(ps.subnet);
    SipsAre(ps, k);
    var now, own := 1000 * k, Capacity(ps.ip).Floor;
    var rest := Capacity(ps.subnet).Floor - own - 1;
    OwnIsClose(ps.subnet, 0, k);
    DrainsTo(OwnAt(ps.subnet, 0, k), Capacity(ps.subnet).Floor, own);
    DrainsTo(OwnAt(ps.subnet, 0, k) - own as real, Capacity(ps.subnet).Floor - own, rest);
    DrainsAll(Capacity(ps.ip), Capacity(ps.ip), own);
    Repeated(ps, Sips(k), SECOND, now, own);
    var emptied := Again(Sips(k), SECOND, now, own);
    Repeated(ps, emptied, FIRST, now, rest);
    hide Drained, Fraction;
    Neighbours();
    SecondRefusal(ps, Again(emptied, FIRST, now, rest), now);
  }

  /**
   The announced waits suffice in every run exactly when both buckets refill by at least one token a
   second, for every two capacities of which the subnet's holds a whole connection more.
   */
  lemma WaitsSufficeIff(ps: Policies)
    requires Capacity(ps.ip).Floor < Capacity(ps.subnet).Floor
    ensures WaitsSuffice(ps) <==> ps.ip.refillPerSecond >= 1.0 && ps.subnet.refillPerSecond >= 1.0
  {
    hide WaitsSuffice, Capacity;
    if Rate(ps.ip) < 1.0 {
      SlowIp(ps);
    } else if Rate(ps.subnet) < 1.0 {
      SlowSubnet(ps);
    } else {
      FastRefillSuffices(ps);
    }
  }

  lemma FastRefillSuffices(ps: Policies)
    requires ps.ip.refillPerSecond >= 1.0 && ps.subnet.refillPerSecond >= 1.0
    ensures WaitsSuffice(ps)
  {
    hide Before, Allows, Answer, ToSubnet, Run, Available;
    forall checks: seq<Check>, ip: string, now: int | Before(checks, now) ensures !RefusedTwice(ps, checks, ip, now) {
      var s := Run(ps, checks);
      if !Allows(ps, s, ip, now) {
        RetryIsAllowed(ps, s, ip, now, Checked(ps, s, ip, now));
      }
    }
  }

  // --- what remains ---

  /** The limiter after `n` more checks by one address at one moment. */
  function CheckedTimes(ps: Policies, s: Limiter, ip: string, now: int, n: nat): Limiter {
    if n == 0 then s else Checked(ps, CheckedTimes(ps, s, ip, now, n - 1), ip, now)
  }

  lemma {:induction false} LeftAfter(ps: Policies, s: Limiter, ip: string, now: int, n: nat)
    requires Sane(s.ip, ps.ip, now) && Sane(s.subnet, ps.subnet, now)
    ensures var t, net := CheckedTimes(ps, s, ip, now, n), ToSubnet(ip);
            && Sane(t.ip, ps.ip, now) && Sane(t.subnet, ps.subnet, now)
            && Available(t.ip, ip, ps.ip, now) == Drained(Available(s.ip, ip, ps.ip, now), n)
            && Available(t.subnet, net, ps.subnet, now) == Drained(Available(s.subnet, net, ps.subnet, now), n)
  {
    hide Available, Sane, Charged, ToSubnet;
    AvailableBounds(s.ip, ip, ps.ip, now);
    AvailableBounds(s.subnet, ToSubnet(ip), ps.subnet, now);
    if n > 0 {
      LeftAfter(ps, s, ip, now, n - 1);
      var t := CheckedTimes(ps, s, ip, now, n - 1);
      ChargedAvailable(t.ip, ip, ip, ps.ip, now);
      ChargedAvailable(t.subnet, ToSubnet(ip), ToSubnet(ip), ps.subnet, now);
      TakeOne(Available(s.ip, ip, ps.ip, now), n);
      TakeOne(Available(s.subnet, ToSubnet(ip), ps.subnet, now), n);
    }
  }

  /** The answered `remaining` is exactly how many more checks of the address are allowed at that moment. */
  lemma RemainingIsExact(ps: Policies, s: Limiter, ip: string, now: int, n: nat)
    requires Sane(s.ip, ps.ip, now) && Sane(s.subnet, ps.subnet, now)
    ensures Allows(ps, CheckedTimes(ps, Checked(ps, s, ip, now), ip, now, n), ip, now)
            <==> n < Answer(ps, s, ip, now).remaining
  {
    hide Available, Sane, Charged, ToSubnet, CheckedTimes;
    var after := Checked(ps, s, ip, now);
    ChargedAvailable(s.ip, ip, ip, ps.ip, now);
    ChargedAvailable(s.subnet, ToSubnet(ip), ToSubnet(ip), ps.subnet, now);
    AvailableBounds(after.ip, ip, ps.ip, now);
    AvailableBounds(after.subnet, ToSubnet(ip), ps.subnet, now);
    LeftAfter(ps, after, ip, now, n);
    StillOne(Available(after.ip, ip, ps.ip, now), n);
    StillOne(Available(after.subnet, ToSubnet(ip), ps.subnet, now), n);
  }

  lemma StillOne(tokens: real, n: nat)
    requires tokens >= 0.0
    ensures Drained(tokens, n) >= 1.0 <==> n < tokens.Floor
  {
  }

  /**
   A new limiter allows an address its first connection and, at one moment, exactly as many as both
   capacities hold: the (n + 1)-th is allowed if and only if n is 0 or n + 1 is within both.
   */
  lemma BurstIsExact(ps: Policies, ip: string, now: int, n: nat)
    ensures Allows(ps, CheckedTimes(ps, FRESH, ip, now, n), ip, now)
            <==> n == 0 || ((n + 1) as real <= ps.ip.capacity && (n + 1) as real <= ps.subnet.capacity)
  {
    hide ToSubnet, CheckedTimes, Charged;
    LeftAfter(ps, FRESH, ip, now, n);
    StillOne(Capacity(ps.ip), n);
    StillOne(Capacity(ps.subnet), n);
  }

  /**
   A bucket that a check has left with some tokens refills by the policy's rate, at least one token in
   1000 seconds, up to its capacity, at least one token.
   */
  lemma RefillIsExact(buckets: map<string, Bucket>, key: string, policy: BucketPolicy, ms: nat)
    requires key in buckets
    ensures var rate := if policy.refillPerSecond >= 0.001 then policy.refillPerSecond else 0.001;
            var full := if policy.capacity >= 1.0 then policy.capacity else 1.0;
            var refilled := buckets[key].tokens + ms as real / 1000.0 * rate;
            Available(buckets, key, policy, buckets[key].updatedAt + ms) == if refilled <= full then refilled else full
  {
  }
}
