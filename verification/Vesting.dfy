/**
 The vesting arithmetic of src/utils/highPrecisionMath.js. Decimal numbers are reals; sums,
 differences and products are exact, and a quotient keeps `places` decimal places, the rest cut off.
 Inputs that are no finite number are not part of this model.
 */
module Vesting {
  import Decimal

  function Pow10(places: nat): (r: real)
    ensures r >= 1.0
  {
    Decimal.Pow10(places) as real
  }

  /** So many units in the last decimal place. */
  function Units(n: int, places: nat): real {
    n as real / Pow10(places)
  }

  function InUnits(x: real, places: nat): real {
    x * Pow10(places)
  }

  /** A number cut off, towards zero, after its last decimal place. */
  function Cut(x: real, places: nat): real {
    if x >= 0.0 then Units(InUnits(x, places).Floor, places) else Units(-InUnits(-x, places).Floor, places)
  }

  function DividedBy(x: real, y: real, places: nat): real
    requires y != 0.0
  {
    Cut(x / y, places)
  }

  function Max(x: real, y: real): real { if x >= y then x else y }

  // --- the functions of the file ---

  function VestedAmount(places: nat, allocation: real, duration: real, elapsed: real): real {
    if duration == 0.0 then allocation
    else if elapsed <= 0.0 then 0.0
    else if elapsed >= duration then allocation
    else DividedBy(elapsed * allocation, duration, places)
  }

  function StaticClaimable(places: nat, allocation: real, duration: real, elapsed: real, claimed: real): real {
    Max(VestedAmount(places, allocation, duration, elapsed) - claimed, 0.0)
  }

  function ProportionalShare(places: nat, userVested: real, totalVested: real, actualBalance: real): real {
    if totalVested == 0.0 then 0.0 else DividedBy(userVested * actualBalance, totalVested, places)
  }

  function DynamicClaimable(places: nat, userVested: real, totalVested: real, actualBalance: real,
      claimed: real): real {
    Max(ProportionalShare(places, userVested, totalVested, actualBalance) - claimed, 0.0)
  }

  function Sum(values: seq<real>): real {
    if values == [] then 0.0 else Sum(values[..|values| - 1]) + values[|values| - 1]
  }

  // --- cutting ---

  lemma TimesGrows(x: real, y: real, r: real)
    requires r > 0.0
    ensures x <= y <==> x * r <= y * r
  {
    if x <= y {
      assert (y - x) * r >= 0.0;
    } else {
      assert (x - y) * r > 0.0;
    }
  }

  lemma Quotient(x: real, r: real)
    requires r > 0.0
    ensures x / r * r == x && x * r / r == x
  {
  }

  lemma OverGrows(x: real, y: real, r: real)
    requires r > 0.0
    ensures x <= y <==> x / r <= y / r
  {
    var u, v := x / r, y / r;
    Quotient(x, r);
    Quotient(y, r);
    TimesGrows(u, v, r);
  }

  lemma UnitsAtMost(n: int, x: real, places: nat)
    ensures Units(n, places) <= x <==> n as real <= InUnits(x, places)
  {
    var p := Pow10(places);
    hide Pow10;
    Quotient(n as real, p);
    TimesGrows(n as real / p, x, p);
  }

  lemma UnitsOrder(m: int, n: int, places: nat)
    ensures m <= n <==> Units(m, places) <= Units(n, places)
  {
    hide Pow10;
    OverGrows(m as real, n as real, Pow10(places));
  }

  lemma UnitsAdd(m: int, n: int, places: nat)
    ensures Units(m + n, places) == Units(m, places) + Units(n, places)
    ensures Units(0, places) == 0.0
  {
    hide Pow10;
    var p := Pow10(places);
    assert (m + n) as real == m as real + n as real;
    assert (m as real + n as real) / p == m as real / p + n as real / p;
  }

  lemma InUnitsGrows(x: real, y: real, places: nat)
    requires x <= y
    ensures InUnits(x, places) <= InUnits(y, places) && InUnits(0.0, places) == 0.0
  {
    hide Pow10;
    TimesGrows(x, y, Pow10(places));
  }

  lemma CutBounds(x: real, places: nat)
    requires x >= 0.0
    ensures 0.0 <= Cut(x, places) <= x < Cut(x, places) + Units(1, places)
  {
    hide Units, InUnits;
    var n := InUnits(x, places).Floor;
    InUnitsGrows(0.0, x, places);
    UnitsAtMost(n, x, places);
    UnitsAtMost(n + 1, x, places);
    UnitsAdd(n, 1, places);
    UnitsOrder(0, n, places);
    UnitsAdd(0, 0, places);
  }

  lemma CutGrows(x: real, y: real, places: nat)
    requires 0.0 <= x <= y
    ensures Cut(x, places) <= Cut(y, places)
  {
    hide Units, InUnits;
    InUnitsGrows(x, y, places);
    UnitsOrder(InUnits(x, places).Floor, InUnits(y, places).Floor, places);
  }

  /** A whole number of units in the last place. */
  ghost predicate Whole(x: real, places: nat) {
    exists n: int :: x == Units(n, places)
  }

  // --- vesting ---

  /** For every schedule and time the vested amount lies between nothing and the allocation. */
  lemma VestedBounds(places: nat, allocation: real, duration: real, elapsed: real)
    requires allocation >= 0.0
    ensures 0.0 <= VestedAmount(places, allocation, duration, elapsed) <= allocation
  {
    if duration != 0.0 && 0.0 < elapsed < duration {
      hide Cut;
      Linear(allocation, duration, elapsed, duration);
      CutBounds(elapsed * allocation / duration, places);
    }
  }

  lemma Linear(allocation: real, duration: real, elapsed: real, later: real)
    requires allocation >= 0.0 && duration > 0.0 && 0.0 <= elapsed <= later
    ensures 0.0 <= elapsed * allocation / duration <= later * allocation / duration
    ensures duration * allocation / duration == allocation
  {
    assert elapsed * allocation >= 0.0;
    assert (later - elapsed) * allocation >= 0.0;
    OverGrows(0.0, elapsed * allocation, duration);
    OverGrows(elapsed * allocation, later * allocation, duration);
    Quotient(allocation, duration);
  }

  /** It never decreases with time, across every branch. */
  lemma VestedGrows(places: nat, allocation: real, duration: real, elapsed: real, later: real)
    requires allocation >= 0.0 && elapsed <= later
    ensures VestedAmount(places, allocation, duration, elapsed) <= VestedAmount(places, allocation, duration, later)
  {
    hide Cut;
    VestedBounds(places, allocation, duration, elapsed);
    VestedBounds(places, allocation, duration, later);
    if duration != 0.0 && 0.0 < elapsed && later < duration {
      Linear(allocation, duration, elapsed, later);
      CutGrows(elapsed * allocation / duration, later * allocation / duration, places);
    }
  }

  // --- claims ---

  /** What has been paid once claims against these entitlements were made, each paying what is still due. */
  function Paid(entitled: seq<real>): real {
    if entitled == [] then 0.0
    else
      var before := Paid(entitled[..|entitled| - 1]);
      before + Max(entitled[|entitled| - 1] - before, 0.0)
  }

  function Highest(entitled: seq<real>): real {
    if entitled == [] then 0.0 else Max(Highest(entitled[..|entitled| - 1]), entitled[|entitled| - 1])
  }

  lemma {:induction false} PaidIsHighest(entitled: seq<real>)
    ensures Paid(entitled) == Highest(entitled)
  {
    if entitled != [] {
      PaidIsHighest(entitled[..|entitled| - 1]);
    }
  }

  /** The total paid by claims on a schedule, each made at some elapsed time and recorded as claimed. */
  function StaticClaims(places: nat, allocation: real, duration: real, times: seq<real>): real {
    if times == [] then 0.0
    else
      var claimed := StaticClaims(places, allocation, duration, times[..|times| - 1]);
      claimed + StaticClaimable(places, allocation, duration, times[|times| - 1], claimed)
  }

  function Latest(times: seq<real>): real
    requires times != []
  {
    if |times| == 1 then times[0] else Max(Latest(times[..|times| - 1]), times[|times| - 1])
  }

  /**
   However often and in whatever order claims are made, together they pay exactly what is vested at
   the latest of their times.
   */
  lemma {:induction false} ClaimsPayTheVestedAmount(places: nat, allocation: real, duration: real, times: seq<real>)
    requires allocation >= 0.0 && times != []
    ensures StaticClaims(places, allocation, duration, times)
            == VestedAmount(places, allocation, duration, Latest(times))
  {
    hide VestedAmount;
    var front, t := times[..|times| - 1], times[|times| - 1];
    VestedBounds(places, allocation, duration, t);
    if front == [] {
      assert StaticClaims(places, allocation, duration, front) == 0.0;
    } else {
      ClaimsPayTheVestedAmount(places, allocation, duration, front);
      if Latest(front) <= t {
        VestedGrows(places, allocation, duration, Latest(front), t);
      } else {
        VestedGrows(places, allocation, duration, t, Latest(front));
      }
    }
  }

  /** Two histories of claims with the same latest time pay the same. */
  lemma ClaimsArePathIndependent(places: nat, allocation: real, duration: real, a: seq<real>, b: seq<real>)
    requires allocation >= 0.0 && a != [] && b != [] && Latest(a) == Latest(b)
    ensures StaticClaims(places, allocation, duration, a) == StaticClaims(places, allocation, duration, b)
  {
    ClaimsPayTheVestedAmount(places, allocation, duration, a);
    ClaimsPayTheVestedAmount(places, allocation, duration, b);
  }

  /** What a user, the whole vault and its balance are when a dynamic claim is made. */
  datatype Vault = Vault(userVested: real, totalVested: real, actualBalance: real)

  function Shares(places: nat, vaults: seq<Vault>): seq<real> {
    if vaults == [] then []
    else
      var v := vaults[|vaults| - 1];
      Shares(places, vaults[..|vaults| - 1]) + [ProportionalShare(places, v.userVested, v.totalVested, v.actualBalance)]
  }

  function DynamicClaims(places: nat, vaults: seq<Vault>): real {
    if vaults == [] then 0.0
    else
      var v, claimed := vaults[|vaults| - 1], DynamicClaims(places, vaults[..|vaults| - 1]);
      claimed + DynamicClaimable(places, v.userVested, v.totalVested, v.actualBalance, claimed)
  }

  /** However vesting and balance move between them, dynamic claims together pay the highest share ever due. */
  lemma {:induction false} DynamicClaimsPayTheHighestShare(places: nat, vaults: seq<Vault>)
    ensures DynamicClaims(places, vaults) == Highest(Shares(places, vaults))
  {
    hide ProportionalShare;
    if vaults != [] {
      var front, v := vaults[..|vaults| - 1], vaults[|vaults| - 1];
      DynamicClaimsPayTheHighestShare(places, front);
      var shares := Shares(places, vaults);
      assert shares[..|shares| - 1] == Shares(places, front);
    }
  }

  /**
   Between start and end the vested amount is the linear one cut to its last place; before the start
   it is nothing, from the end on it is everything. A schedule without duration is vested at any time.
   */
  lemma VestedIsLinear(places: nat, allocation: real, duration: real, elapsed: real)
    requires allocation >= 0.0
    ensures var vested := VestedAmount(places, allocation, duration, elapsed);
            && (elapsed <= 0.0 && duration != 0.0 ==> vested == 0.0)
            && ((elapsed > 0.0 && elapsed >= duration) || duration == 0.0 ==> vested == allocation)
            && (0.0 < elapsed < duration ==>
                  vested <= elapsed * allocation / duration < vested + 1.0 / Decimal.Pow10(places) as real)
  {
    if 0.0 < elapsed < duration {
      NotNegative(elapsed * allocation, duration);
      CutBounds(elapsed * allocation / duration, places);
    }
  }

  /** A negative number is cut towards zero as well. */
  lemma CutIsOdd(x: real, places: nat)
    ensures Cut(-x, places) == -Cut(x, places)
  {
    hide Pow10;
    UnitsAdd(InUnits(x, places).Floor, -InUnits(x, places).Floor, places);
    UnitsAdd(InUnits(-x, places).Floor, -InUnits(-x, places).Floor, places);
    assert InUnits(-0.0, places) == 0.0;
  }

  lemma NotNegative(x: real, y: real)
    requires x >= 0.0 && y > 0.0
    ensures x / y >= 0.0
  {
  }

  // --- splitting a balance ---

  /** Everyone's share of the balance, the total being the sum of what all have vested. */
  function Split(places: nat, vested: seq<real>, total: real, balance: real): seq<real> {
    if vested == [] then []
    else
      Split(places, vested[..|vested| - 1], total, balance)
      + [ProportionalShare(places, vested[|vested| - 1], total, balance)]
  }

  /** A share before it is cut off. */
  function Exact(vested: real, total: real, balance: real): real
    requires total > 0.0
  {
    vested * balance / total
  }

  lemma {:induction false} SplitSums(places: nat, vested: seq<real>, total: real, balance: real)
    requires total > 0.0 && balance >= 0.0 && forall v | v in vested :: v >= 0.0
    ensures var exact, paid := Exact(Sum(vested), total, balance), Sum(Split(places, vested, total, balance));
            && paid <= exact
            && exact <= paid + Units(|vested|, places)
            && (vested != [] ==> exact < paid + Units(|vested|, places))
  {
    hide Cut, Units, Exact, ProportionalShare, Sum, Split;
    UnitsAdd(0, 0, places);
    Nothing(balance, total);
    SumOfNone(places, total, balance);
    if vested != [] {
      var front, v := vested[..|vested| - 1], vested[|vested| - 1];
      assert v in vested && forall x | x in front :: x in vested;
      SplitSums(places, front, total, balance);
      LastShare(places, vested, total, balance);
      ShareBounds(places, v, total, balance);
      Distributes(Sum(front), v, total, balance);
      UnitsAdd(|front|, 1, places);
    }
  }

  lemma SumOfNone(places: nat, total: real, balance: real)
    ensures Sum([]) == 0.0 && Split(places, [], total, balance) == []
  {
  }

  lemma LastShare(places: nat, vested: seq<real>, total: real, balance: real)
    requires vested != []
    ensures var front, v := vested[..|vested| - 1], vested[|vested| - 1];
            && Sum(vested) == Sum(front) + v
            && Sum(Split(places, vested, total, balance))
               == Sum(Split(places, front, total, balance)) + ProportionalShare(places, v, total, balance)
  {
    hide ProportionalShare;
    var shares := Split(places, vested, total, balance);
    assert shares[..|shares| - 1] == Split(places, vested[..|vested| - 1], total, balance);
  }

  lemma Nothing(c: real, d: real)
    requires d > 0.0
    ensures Exact(0.0, d, c) == 0.0
  {
  }

  lemma ShareBounds(places: nat, userVested: real, total: real, balance: real)
    requires userVested >= 0.0 && total > 0.0 && balance >= 0.0
    ensures var share, exact := ProportionalShare(places, userVested, total, balance),
            Exact(userVested, total, balance);
            0.0 <= share <= exact < share + Units(1, places)
  {
    hide Cut, Units;
    assert userVested * balance >= 0.0;
    OverGrows(0.0, userVested * balance, total);
    CutBounds(userVested * balance / total, places);
  }

  lemma Distributes(a: real, b: real, total: real, balance: real)
    requires total > 0.0
    ensures Exact(a + b, total, balance) == Exact(a, total, balance) + Exact(b, total, balance)
  {
    assert (a + b) * balance == a * balance + b * balance;
  }

  lemma {:induction false} SplitIsWhole(places: nat, vested: seq<real>, total: real, balance: real)
    ensures Whole(Sum(Split(places, vested, total, balance)), places)
  {
    hide Pow10, Units;
    UnitsAdd(0, 0, places);
    if vested == [] {
      assert Sum(Split(places, vested, total, balance)) == Units(0, places);
    } else {
      var front, v := vested[..|vested| - 1], vested[|vested| - 1];
      SplitIsWhole(places, front, total, balance);
      var shares := Split(places, vested, total, balance);
      assert shares[..|shares| - 1] == Split(places, front, total, balance);
      var share := ProportionalShare(places, v, total, balance);
      assert Whole(share, places) by {
        if total == 0.0 {
          assert share == Units(0, places);
        }
      }
      var m: int :| Sum(shares[..|shares| - 1]) == Units(m, places);
      var n: int :| share == Units(n, places);
      UnitsAdd(m, n, places);
    }
  }

  /**
   Proportional shares against the sum of all vested amounts never add up to more than the balance,
   and fall short of it by less than one unit in the last place for each beneficiary.
   */
  lemma SharesNeverExceedTheBalance(places: nat, vested: seq<real>, balance: real)
    requires Sum(vested) > 0.0 && balance >= 0.0 && forall v | v in vested :: v >= 0.0
    ensures var paid := Sum(Split(places, vested, Sum(vested), balance));
            paid <= balance < paid + Units(|vested|, places)
  {
    hide Cut, Units, Split;
    SplitSums(places, vested, Sum(vested), balance);
    Quotient(balance, Sum(vested));
    assert Sum(vested) * balance == balance * Sum(vested);
    assert vested != [];
  }

  /** A balance of whole units is short by at most one unit fewer than there are beneficiaries. */
  lemma DustOfAWholeBalance(places: nat, vested: seq<real>, balance: real)
    requires Sum(vested) > 0.0 && balance >= 0.0 && forall v | v in vested :: v >= 0.0
    requires Whole(balance, places)
    ensures balance <= Sum(Split(places, vested, Sum(vested), balance)) + Units(|vested| - 1, places)
  {
    hide Cut, Sum, Split, Units;
    var n, paid := |vested|, Sum(Split(places, vested, Sum(vested), balance));
    SharesNeverExceedTheBalance(places, vested, balance);
    SplitIsWhole(places, vested, Sum(vested), balance);
    var b: int :| balance == Units(b, places);
    var m: int :| paid == Units(m, places);
    UnitsAdd(m, n, places);
    UnitsAdd(m, n - 1, places);
    UnitsOrder(m + n, b, places);
    UnitsOrder(b, m + n - 1, places);
  }

  /** `n` times the same. */
  function Equal(n: nat, v: real): (vested: seq<real>)
    ensures |vested| == n
  {
    if n == 0 then [] else Equal(n - 1, v) + [v]
  }

  lemma OneMore(n: nat, v: real)
    requires n > 0
    ensures n as real * v == (n - 1) as real * v + v
  {
    var m := (n - 1) as real;
    assert n as real == m + 1.0;
    assert (m + 1.0) * v == m * v + v;
  }

  lemma {:induction false} EqualSums(n: nat, v: real)
    ensures Sum(Equal(n, v)) == n as real * v
  {
    if n > 0 {
      EqualSums(n - 1, v);
      assert Equal(n, v)[..n - 1] == Equal(n - 1, v);
      OneMore(n, v);
    }
  }

  lemma {:induction false} EqualSplit(places: nat, n: nat, v: real, total: real, balance: real)
    ensures Split(places, Equal(n, v), total, balance) == Equal(n, ProportionalShare(places, v, total, balance))
  {
    hide ProportionalShare;
    if n > 0 {
      EqualSplit(places, n - 1, v, total, balance);
      assert Equal(n, v)[..n - 1] == Equal(n - 1, v);
    }
  }

  /** That bound is met for every number of beneficiaries: n - 1 units split among n equal ones pay nothing at all. */
  lemma DustIsAttained(places: nat, n: nat, v: real)
    requires n >= 1 && v > 0.0
    ensures var vested := Equal(n, v);
            Sum(vested) > 0.0 && Sum(Split(places, vested, Sum(vested), Units(n - 1, places))) == 0.0
  {
    hide ProportionalShare, Units, Equal, Split;
    var total := n as real * v;
    EqualSums(n, v);
    TimesGrows(0.0, v, n as real);
    ShareOfTooLittle(places, n, v, total);
    EqualSplit(places, n, v, total, Units(n - 1, places));
    EqualSums(n, 0.0);
  }

  lemma ShareOfTooLittle(places: nat, n: nat, v: real, total: real)
    requires n >= 1 && v > 0.0 && total == n as real * v > 0.0
    ensures ProportionalShare(places, v, total, Units(n - 1, places)) == 0.0
  {
    hide Units, InUnits, Cut, ProportionalShare;
    var u := Units(n - 1, places);
    UnitsOrder(0, n - 1, places);
    UnitsAdd(0, 0, places);
    ShareOfEqual(u, n as real, v, total);
    Quotient(0.0, n as real);
    OverGrows(0.0, u, n as real);
    LessThanOneUnit(places, n, u);
    InUnitsGrows(0.0, u / n as real, places);
    CutOfLittle(u / n as real, places);
    ShareIs(places, v, total, u, u / n as real);
  }

  lemma ShareIs(places: nat, userVested: real, total: real, balance: real, exact: real)
    requires total != 0.0 && userVested * balance / total == exact
    ensures ProportionalShare(places, userVested, total, balance) == Cut(exact, places)
  {
    hide Cut;
  }

  lemma CutOfLittle(x: real, places: nat)
    requires x >= 0.0 && 0.0 <= InUnits(x, places) < 1.0
    ensures Cut(x, places) == 0.0
  {
    hide InUnits, Units;
    UnitsAdd(0, 0, places);
    assert InUnits(x, places).Floor == 0;
  }

  lemma ShareOfEqual(u: real, n: real, v: real, total: real)
    requires n > 0.0 && v > 0.0 && total == n * v > 0.0
    ensures v * u / total == u / n
  {
    Quotient(u, n);
    assert v * u == u / n * total;
    Quotient(u / n, total);
  }

  lemma LessThanOneUnit(places: nat, n: nat, u: real)
    requires n >= 1 && u == Units(n - 1, places)
    ensures InUnits(u / n as real, places) < 1.0
  {
    hide Pow10;
    var p := Pow10(places);
    Quotient((n - 1) as real, p);
    assert u * p == (n - 1) as real;
    assert u / n as real * p == u * p / n as real;
    OverGrows(n as real, (n - 1) as real, n as real);
    Quotient(1.0, n as real);
  }
}
