/** Canonical flow tuples and their hash strings, as in src/metering/flow-normalizer.ts. */
module FlowNormalizer {
  import Common
  import Decimal
  import opened Text

  // --- addresses as integers ---

  function Pow2(k: nat): (p: nat)
    ensures p > 0
  {
    if k == 0 then 1 else 2 * Pow2(k - 1)
  }

  const WORD: nat := 0x1_0000_0000

  /** `x << k` on 32-bit words. */
  function Shifted(x: nat, k: nat): nat { (x * Pow2(k)) % WORD }

  /** `a | b`. */
  function Or(a: nat, b: nat): nat {
    if a == 0 then b else if b == 0 then a
    else 2 * Or(a / 2, b / 2) + if a % 2 == 1 || b % 2 == 1 then 1 else 0
  }

  /** `+part`, read as a 32-bit word: what is no decimal numeral counts as 0. */
  function ToNumber(parts: seq<string>, i: nat): nat {
    if i < |parts| && Decimal.IsNumeral(parts[i]) then Decimal.Value(parts[i]) else 0
  }

  function IpToInt(ip: string): nat {
    var parts := Split(ip, '.');
    Or(Or(Or(Shifted(ToNumber(parts, 0), 24), Shifted(ToNumber(parts, 1), 16)), Shifted(ToNumber(parts, 2), 8)),
       ToNumber(parts, 3) % WORD)
  }

  lemma OrDouble(half: nat, b: nat)
    ensures Or(2 * half, b) == 2 * Or(half, b / 2) + b % 2
  {
  }

  lemma OrZero(x: nat)
    ensures Or(x, 0) == x
  {
  }

  lemma Halves(x: nat, k: nat)
    requires k > 0
    ensures x * Pow2(k) == 2 * (x * Pow2(k - 1))
  {
    assert Pow2(k) == 2 * Pow2(k - 1);
    hide Pow2;
    var p := Pow2(k - 1);
    assert x * (2 * p) == 2 * (x * p);
  }

  /** Disjoint bits: the or is the sum. */
  lemma {:induction false} OrDisjoint(x: nat, k: nat, b: nat)
    requires b < Pow2(k)
    ensures Or(x * Pow2(k), b) == x * Pow2(k) + b
  {
    hide Or;
    if k == 0 {
      OrZero(x);
    } else {
      Halves(x, k);
      OrDouble(x * Pow2(k - 1), b);
      OrDisjoint(x, k - 1, b / 2);
    }
  }

  predicate Bit(x: nat, k: nat) {
    x / Pow2(k) % 2 == 1
  }

  lemma HalfBit(x: nat, k: nat)
    requires k > 0
    ensures Bit(x, k) <==> Bit(x / 2, k - 1)
  {
    var p := Pow2(k - 1);
    assert Pow2(k) == 2 * p;
    hide Pow2;
    assert x / (2 * p) == x / 2 / p by {
      HalvedQuotient(x, p);
    }
  }

  lemma HalvedQuotient(x: nat, p: nat)
    requires p > 0
    ensures x / (2 * p) == x / 2 / p
  {
    var q, r := x / 2 / p, x / 2 % p;
    assert x / 2 == p * q + r;
    assert 2 * (p * q) == 2 * p * q;
    var rest := x - 2 * p * q;
    assert 0 <= rest < 2 * p && x == 2 * p * q + rest;
    Common.Division(x, 2 * p, q, rest);
  }

  /** The or has exactly the bits that one of the two has. */
  lemma {:induction false} OrBits(a: nat, b: nat, k: nat)
    ensures Bit(Or(a, b), k) <==> Bit(a, k) || Bit(b, k)
    decreases k, a
  {
    hide Or;
    NoBits(k);
    OrStep(a, b);
    if k > 0 {
      HalfBit(Or(a, b), k);
      HalfBit(a, k);
      HalfBit(b, k);
      OrBits(a / 2, b / 2, k - 1);
    }
  }

  lemma NoBits(k: nat)
    ensures !Bit(0, k) && Pow2(0) == 1
  {
  }

  lemma OrStep(a: nat, b: nat)
    ensures Or(a, b) / 2 == Or(a / 2, b / 2)
    ensures Or(a, b) % 2 == 1 <==> a % 2 == 1 || b % 2 == 1
  {
    OrZero(a);
    OrZero(a / 2);
  }

  lemma Powers()
    ensures Pow2(8) == 0x100 && Pow2(16) == 0x1_0000 && Pow2(24) == 0x100_0000
  {
    assert Pow2(4) == 16;
    assert Pow2(8) == 256;
    assert Pow2(12) == 4096;
    assert Pow2(16) == 0x1_0000;
    assert Pow2(20) == 0x10_0000;
  }

  /** The text of the address with these octets. */
  function Address(a: nat, b: nat, c: nat, d: nat): string {
    Quad(Decimal.ToText(a), Decimal.ToText(b), Decimal.ToText(c), Decimal.ToText(d))
  }

  predicate Octets(a: nat, b: nat, c: nat, d: nat) {
    a < 256 && b < 256 && c < 256 && d < 256
  }

  lemma NoDot(n: nat)
    ensures '.' !in Decimal.ToText(n) && ':' !in Decimal.ToText(n) && '-' !in Decimal.ToText(n)
  {
    Decimal.ValueOfText(n);
  }

  lemma AddressParts(a: nat, b: nat, c: nat, d: nat)
    ensures Split(Address(a, b, c, d), '.')
            == [Decimal.ToText(a), Decimal.ToText(b), Decimal.ToText(c), Decimal.ToText(d)]
  {
    NoDot(a);
    NoDot(b);
    NoDot(c);
    NoDot(d);
    hide Decimal.ToText;
    QuadParts(Decimal.ToText(a), Decimal.ToText(b), Decimal.ToText(c), Decimal.ToText(d));
  }

  lemma AddressValue(a: nat, b: nat, c: nat, d: nat)
    requires Octets(a, b, c, d)
    ensures IpToInt(Address(a, b, c, d)) == 0x100_0000 * a + 0x1_0000 * b + 0x100 * c + d
  {
    AddressParts(a, b, c, d);
    Decimal.ValueOfText(a);
    Decimal.ValueOfText(b);
    Decimal.ValueOfText(c);
    Decimal.ValueOfText(d);
    Powers();
    hide Decimal.ToText, Decimal.Value, Decimal.IsNumeral, Or, Pow2, Split;
    OrDisjoint(a, 24, 0x1_0000 * b);
    OrDisjoint(0x100 * a + b, 16, 0x100 * c);
    OrDisjoint(0x1_0000 * a + 0x100 * b + c, 8, d);
  }

  /** Different addresses are different integers. */
  lemma AddressesDiffer(a: nat, b: nat, c: nat, d: nat, a': nat, b': nat, c': nat, d': nat)
    requires Octets(a, b, c, d) && Octets(a', b', c', d')
    ensures Address(a, b, c, d) != Address(a', b', c', d') <==>
            IpToInt(Address(a, b, c, d)) != IpToInt(Address(a', b', c', d'))
  {
    hide Address, IpToInt;
    AddressValue(a, b, c, d);
    AddressValue(a', b', c', d');
    if IpToInt(Address(a, b, c, d)) == IpToInt(Address(a', b', c', d')) {
      assert a == a' && b == b' && c == c' && d == d';
    }
  }

  // --- normalizing ---

  datatype FlowTuple = FlowTuple(srcIp: string, dstIp: string, srcPort: nat, dstPort: nat, protocol: string)

  datatype CanonicalFlowTuple = CanonicalFlowTuple(
    srcTupleA: string,
    srcTupleB: string,
    portA: nat,
    portB: nat,
    protocol: string,
    isIngress: bool
  )

  function NormalizeFlow(flow: FlowTuple): CanonicalFlowTuple {
    var isSwapped := IpToInt(flow.srcIp) > IpToInt(flow.dstIp);
    CanonicalFlowTuple(
      if isSwapped then flow.dstIp else flow.srcIp,
      if isSwapped then flow.srcIp else flow.dstIp,
      if isSwapped then flow.dstPort else flow.srcPort,
      if isSwapped then flow.srcPort else flow.dstPort,
      flow.protocol,
      !isSwapped)
  }

  function HashCanonicalFlow(flow: CanonicalFlowTuple): string {
    flow.srcTupleA + [':'] + (Decimal.ToText(flow.portA) + ['-'] +
    (flow.srcTupleB + [':'] + (Decimal.ToText(flow.portB) + ['-'] + flow.protocol)))
  }

  /** The packet that answers this one. */
  function Reversed(flow: FlowTuple): FlowTuple {
    FlowTuple(flow.dstIp, flow.srcIp, flow.dstPort, flow.srcPort, flow.protocol)
  }

  function HashOf(flow: FlowTuple): string { HashCanonicalFlow(NormalizeFlow(flow)) }

  /**
   A packet and its reverse count in opposite directions exactly when their addresses are different
   integers, and then they share one canonical tuple and one hash.
   */
  lemma ReverseIsOppositeIff(flow: FlowTuple)
    ensures var f, r := NormalizeFlow(flow), NormalizeFlow(Reversed(flow));
            && (f.isIngress != r.isIngress <==> IpToInt(flow.srcIp) != IpToInt(flow.dstIp))
            && (f.isIngress != r.isIngress ==>
                r == f.(isIngress := !f.isIngress) && HashCanonicalFlow(f) == HashCanonicalFlow(r))
  {
    hide IpToInt, HashCanonicalFlow;
    var f, r := NormalizeFlow(flow), NormalizeFlow(Reversed(flow));
    if f.isIngress != r.isIngress {
      SameHash(f, r);
    }
  }

  lemma SameHash(f: CanonicalFlowTuple, r: CanonicalFlowTuple)
    requires r == f.(isIngress := r.isIngress)
    ensures HashCanonicalFlow(f) == HashCanonicalFlow(r)
  {
  }

  /** For two well-formed addresses: whenever they differ. */
  lemma DifferentAddressesAreOpposite(a: nat, b: nat, c: nat, d: nat, a': nat, b': nat, c': nat, d': nat,
                                      srcPort: nat, dstPort: nat, protocol: string)
    requires Octets(a, b, c, d) && Octets(a', b', c', d') && Address(a, b, c, d) != Address(a', b', c', d')
    ensures var flow := FlowTuple(Address(a, b, c, d), Address(a', b', c', d'), srcPort, dstPort, protocol);
            && HashOf(flow) == HashOf(Reversed(flow))
            && NormalizeFlow(flow).isIngress != NormalizeFlow(Reversed(flow)).isIngress
  {
    hide Address, IpToInt, HashCanonicalFlow, NormalizeFlow;
    AddressesDiffer(a, b, c, d, a', b', c', d');
    ReverseIsOppositeIff(FlowTuple(Address(a, b, c, d), Address(a', b', c', d'), srcPort, dstPort, protocol));
  }

  /**
   The canonical tuple has the lower address first, each with its own port, and a packet is ingress
   when it comes from that one, or from an equal address.
   */
  lemma LowerAddressFirst(a: nat, b: nat, c: nat, d: nat, a': nat, b': nat, c': nat, d': nat,
      srcPort: nat, dstPort: nat, protocol: string)
    requires Octets(a, b, c, d) && Octets(a', b', c', d')
    ensures var src, dst := Address(a, b, c, d), Address(a', b', c', d');
            var x, y := 0x100_0000 * a + 0x1_0000 * b + 0x100 * c + d,
                0x100_0000 * a' + 0x1_0000 * b' + 0x100 * c' + d';
            NormalizeFlow(FlowTuple(src, dst, srcPort, dstPort, protocol)) ==
              if x <= y then CanonicalFlowTuple(src, dst, srcPort, dstPort, protocol, true)
              else CanonicalFlowTuple(dst, src, dstPort, srcPort, protocol, false)
  {
    hide Address, IpToInt;
    AddressValue(a, b, c, d);
    AddressValue(a', b', c', d');
  }

  /** No part of the text between its dots is a decimal numeral, as in an IPv6 address written in hexadecimal. */
  predicate NoNumerals(ip: string) {
    var parts := Split(ip, '.');
    forall i | 0 <= i < |parts| :: !Decimal.IsNumeral(parts[i])
  }

  lemma NoNumeralsIsZero(ip: string)
    requires NoNumerals(ip)
    ensures IpToInt(ip) == 0
  {
    hide Split;
    var parts := Split(ip, '.');
    assert forall i: nat :: ToNumber(parts, i) == 0;
  }

  /**
   Between two such addresses nothing is normalized: both directions count as ingress, and as two
   different flows when the addresses differ.
   */
  lemma NotNormalized(flow: FlowTuple)
    requires NoNumerals(flow.srcIp) && NoNumerals(flow.dstIp)
    ensures NormalizeFlow(flow) ==
            CanonicalFlowTuple(flow.srcIp, flow.dstIp, flow.srcPort, flow.dstPort, flow.protocol, true)
    ensures NormalizeFlow(Reversed(flow)).isIngress
    ensures flow.srcIp != flow.dstIp ==>
              NormalizeFlow(flow).srcTupleA != NormalizeFlow(Reversed(flow)).srcTupleA
    ensures flow.srcIp != flow.dstIp && '-' !in flow.srcIp && '-' !in flow.dstIp ==>
              HashOf(flow) != HashOf(Reversed(flow))
  {
    hide NoNumerals, IpToInt, HashCanonicalFlow, HidesEndpoint;
    NoNumeralsIsZero(flow.srcIp);
    NoNumeralsIsZero(flow.dstIp);
    var f, r := NormalizeFlow(flow), NormalizeFlow(Reversed(flow));
    if flow.srcIp != flow.dstIp && '-' !in flow.srcIp && '-' !in flow.dstIp && HashOf(flow) == HashOf(Reversed(flow)) {
      NoDashHidesNothing(flow.srcIp);
      NoDashHidesNothing(flow.dstIp);
      HashInjective(f, r);
    }
  }

  // --- when two flows share a hash ---

  lemma SameFrom(p: string, c: char, rest: string, p': string, rest': string)
    requires c !in rest && c !in rest' && p + [c] + rest == p' + [c] + rest'
    ensures p == p' && rest == rest'
  {
    var s, s' := p + [c] + rest, p' + [c] + rest';
    assert s == s';
    assert forall k | |p| < k < |s| :: s[k] == rest[k - |p| - 1];
    assert forall k | |p'| < k < |s'| :: s'[k] == rest'[k - |p'| - 1];
    assert s[|p|] == c && s'[|p'|] == c;
    assert |p| == |p'|;
    assert s[..|p|] == p && s'[..|p'|] == p';
    assert s[|p| + 1..] == rest && s'[|p'| + 1..] == rest';
  }

  // --- what the hash tells apart ---

  function Endpoint(address: string, port: nat): string {
    address + [':'] + Decimal.ToText(port)
  }

  /** An address with its port determines both: the last colon is the one between them. */
  lemma EndpointInjective(a: string, port: nat, a': string, port': nat)
    requires Endpoint(a, port) == Endpoint(a', port')
    ensures a == a' && port == port'
  {
    NoDot(port);
    NoDot(port');
    SameFrom(a, ':', Decimal.ToText(port), a', Decimal.ToText(port'));
    Decimal.ValueOfText(port);
    Decimal.ValueOfText(port');
  }

  /** Text that begins with a whole endpoint and a dash. */
  function Hiding(address: string, port: nat, rest: string): string {
    Endpoint(address, port) + ['-'] + rest
  }

  ghost predicate HidesEndpoint(s: string) {
    exists address, port: nat, rest :: s == Hiding(address, port, rest)
  }

  lemma HashIs(f: CanonicalFlowTuple)
    ensures HashCanonicalFlow(f)
         == Endpoint(f.srcTupleA, f.portA) + ['-'] + (Endpoint(f.srcTupleB, f.portB) + ['-'] + f.protocol)
  {
    hide Decimal.ToText;
    var ta, tb := Decimal.ToText(f.portA), Decimal.ToText(f.portB);
    var fb := f.srcTupleB + [':'] + tb + ['-'] + f.protocol;
    assert fb == f.srcTupleB + [':'] + (tb + ['-'] + f.protocol);
    assert f.srcTupleA + [':'] + (ta + ['-'] + fb) == f.srcTupleA + [':'] + ta + ['-'] + fb;
  }

  /** Of two endpoints that begin the same text before a dash, the shorter one lies inside the other's address. */
  lemma ShorterIsInside(a: string, n: nat, rest: string, a': string, n': nat, rest': string) returns (z: string)
    requires Endpoint(a, n) + ['-'] + rest == Endpoint(a', n') + ['-'] + rest'
    requires |Endpoint(a, n)| < |Endpoint(a', n')|
    ensures a' == Hiding(a, n, z) && rest == Hiding(z, n', rest')
  {
    NoDot(n');
    hide Decimal.ToText;
    var e, t' := Endpoint(a, n), Decimal.ToText(n');
    var s, tail := e + ['-'] + rest, [':'] + t' + ['-'] + rest';
    assert s == a' + tail by {
      assert a' + [':'] + t' + ['-'] + rest' == a' + tail;
    }
    assert s[|e|] == '-';
    assert forall k | |a'| <= k < |Endpoint(a', n')| :: s[k] == ([':'] + t')[k - |a'|];
    assert |e| < |a'|;
    z := a'[|e| + 1..];
    assert a' == s[..|a'|];
    assert a'[..|e|] == e && a'[|e|] == '-';
    assert a' == e + ['-'] + z;
    assert rest == s[|e| + 1..] == z + tail;
    assert z + tail == Hiding(z, n', rest');
  }

  /** Two different flows with one hash: an address of one of them hides an endpoint. */
  lemma SharedHashIsHidden(f: CanonicalFlowTuple, g: CanonicalFlowTuple)
    requires HashCanonicalFlow(f) == HashCanonicalFlow(g) && f != g.(isIngress := f.isIngress)
    ensures || HidesEndpoint(f.srcTupleA) || HidesEndpoint(f.srcTupleB)
            || HidesEndpoint(g.srcTupleA) || HidesEndpoint(g.srcTupleB)
  {
    hide Endpoint, HashCanonicalFlow;
    HashIs(f);
    HashIs(g);
    var fa, ga := Endpoint(f.srcTupleA, f.portA), Endpoint(g.srcTupleA, g.portA);
    var fb, gb := Endpoint(f.srcTupleB, f.portB), Endpoint(g.srcTupleB, g.portB);
    var frest, grest := fb + ['-'] + f.protocol, gb + ['-'] + g.protocol;
    if |fa| < |ga| {
      var _ := ShorterIsInside(f.srcTupleA, f.portA, frest, g.srcTupleA, g.portA, grest);
    } else if |ga| < |fa| {
      var _ := ShorterIsInside(g.srcTupleA, g.portA, grest, f.srcTupleA, f.portA, frest);
    } else {
      SameLengthSplit(fa, frest, ga, grest);
      EndpointInjective(f.srcTupleA, f.portA, g.srcTupleA, g.portA);
      if |fb| < |gb| {
        var _ := ShorterIsInside(f.srcTupleB, f.portB, f.protocol, g.srcTupleB, g.portB, g.protocol);
      } else if |gb| < |fb| {
        var _ := ShorterIsInside(g.srcTupleB, g.portB, g.protocol, f.srcTupleB, f.portB, f.protocol);
      } else {
        SameLengthSplit(fb, f.protocol, gb, g.protocol);
        EndpointInjective(f.srcTupleB, f.portB, g.srcTupleB, g.portB);
        assert false;
      }
    }
  }

  lemma SameLengthSplit(p: string, rest: string, p': string, rest': string)
    requires |p| == |p'| && p + ['-'] + rest == p' + ['-'] + rest'
    ensures p == p' && rest == rest'
  {
    var s := p + ['-'] + rest;
    assert s[..|p|] == p && s[|p| + 1..] == rest;
    assert (p' + ['-'] + rest')[..|p'|] == p' && (p' + ['-'] + rest')[|p'| + 1..] == rest';
  }

  /**
   Between flows whose addresses hide no endpoint, so whenever addresses hold no dash, also with
   colons: equal hashes mean equal endpoints, ports and protocol.
   */
  lemma HashInjective(f: CanonicalFlowTuple, g: CanonicalFlowTuple)
    requires !HidesEndpoint(f.srcTupleA) && !HidesEndpoint(f.srcTupleB)
    requires !HidesEndpoint(g.srcTupleA) && !HidesEndpoint(g.srcTupleB)
    requires HashCanonicalFlow(f) == HashCanonicalFlow(g)
    ensures f == g.(isIngress := f.isIngress)
  {
    hide HashCanonicalFlow, HidesEndpoint;
    if f != g.(isIngress := f.isIngress) {
      SharedHashIsHidden(f, g);
    }
  }

  lemma NoDashHidesNothing(s: string)
    requires '-' !in s
    ensures !HidesEndpoint(s)
  {
    forall address, port: nat, rest ensures s != Hiding(address, port, rest) {
      var hiding := Hiding(address, port, rest);
      assert hiding[|Endpoint(address, port)|] == '-';
    }
  }

  /** An address that hides an endpoint gives way to the flow that begins with that endpoint. */
  lemma HiddenInA(g: CanonicalFlowTuple, x: string, n: nat, y: string) returns (f: CanonicalFlowTuple)
    requires g.srcTupleA == Hiding(x, n, y)
    ensures HashCanonicalFlow(f) == HashCanonicalFlow(g) && f.srcTupleA != g.srcTupleA
  {
    hide Endpoint, HashCanonicalFlow;
    var gb := Endpoint(g.srcTupleB, g.portB);
    f := CanonicalFlowTuple(x, y, n, g.portA, gb + ['-'] + g.protocol, g.isIngress);
    HashIs(f);
    HashIs(g);
    EndpointOf(x, n, y, g.portA);
    EndpointLonger(x, n);
    assert Endpoint(x, n) + ['-'] + Endpoint(y, g.portA) + ['-'] + (gb + ['-'] + g.protocol)
        == Endpoint(x, n) + ['-'] + (Endpoint(y, g.portA) + ['-'] + (gb + ['-'] + g.protocol));
  }

  lemma HiddenInB(g: CanonicalFlowTuple, x: string, n: nat, y: string) returns (f: CanonicalFlowTuple)
    requires g.srcTupleB == Hiding(x, n, y)
    ensures HashCanonicalFlow(f) == HashCanonicalFlow(g) && f.srcTupleB != g.srcTupleB
  {
    hide Endpoint, HashCanonicalFlow;
    f := g.(srcTupleB := x, portB := n, protocol := Endpoint(y, g.portB) + ['-'] + g.protocol);
    HashIs(f);
    HashIs(g);
    EndpointOf(x, n, y, g.portB);
    EndpointLonger(x, n);
    assert Endpoint(x, n) + ['-'] + Endpoint(y, g.portB) + ['-'] + g.protocol
        == Endpoint(x, n) + ['-'] + (Endpoint(y, g.portB) + ['-'] + g.protocol);
  }

  lemma HiddenInProtocol(g: CanonicalFlowTuple, x: string, n: nat, y: string) returns (f: CanonicalFlowTuple)
    requires g.protocol == Hiding(x, n, y)
    ensures HashCanonicalFlow(f) == HashCanonicalFlow(g) && f.srcTupleA != g.srcTupleA
  {
    hide Endpoint, HashCanonicalFlow;
    var ga := Endpoint(g.srcTupleA, g.portA);
    f := CanonicalFlowTuple(ga + ['-'] + g.srcTupleB, x, g.portB, n, y, g.isIngress);
    HashIs(f);
    HashIs(g);
    assert f.srcTupleA == Hiding(g.srcTupleA, g.portA, g.srcTupleB);
    EndpointOf(g.srcTupleA, g.portA, g.srcTupleB, g.portB);
    EndpointLonger(g.srcTupleA, g.portA);
    var gb, tail := Endpoint(g.srcTupleB, g.portB), Endpoint(x, n) + ['-'] + y;
    assert ga + ['-'] + gb + ['-'] + tail == ga + ['-'] + (gb + ['-'] + tail);
  }

  lemma EndpointOf(x: string, n: nat, y: string, port: nat)
    ensures Endpoint(Hiding(x, n, y), port) == Endpoint(x, n) + ['-'] + Endpoint(y, port)
  {
    hide Decimal.ToText;
    var e, t := Endpoint(x, n), Decimal.ToText(port);
    assert e + ['-'] + y + [':'] + t == e + ['-'] + (y + [':'] + t);
  }

  lemma EndpointLonger(address: string, port: nat)
    ensures |Endpoint(address, port)| > |address|
  {
  }

  /** No other flow has the hash of this one. */
  ghost predicate HashIsUnique(g: CanonicalFlowTuple) {
    forall f | HashCanonicalFlow(f) == HashCanonicalFlow(g) :: f == g.(isIngress := f.isIngress)
  }

  /**
   A flow shares its hash with no other if and only if neither its addresses nor its protocol begin
   with a whole endpoint and a dash.
   */
  lemma HashIsUniqueIff(g: CanonicalFlowTuple)
    ensures HashIsUnique(g)
            <==> !HidesEndpoint(g.srcTupleA) && !HidesEndpoint(g.srcTupleB) && !HidesEndpoint(g.protocol)
  {
    hide HashCanonicalFlow, Hiding;
    if HidesEndpoint(g.srcTupleA) {
      var x, n: nat, y :| g.srcTupleA == Hiding(x, n, y);
      var _ := HiddenInA(g, x, n, y);
    } else if HidesEndpoint(g.srcTupleB) {
      var x, n: nat, y :| g.srcTupleB == Hiding(x, n, y);
      var _ := HiddenInB(g, x, n, y);
    } else if HidesEndpoint(g.protocol) {
      var x, n: nat, y :| g.protocol == Hiding(x, n, y);
      var _ := HiddenInProtocol(g, x, n, y);
    } else {
      forall f | HashCanonicalFlow(f) == HashCanonicalFlow(g) ensures f == g.(isIngress := f.isIngress) {
        UniqueUnlessHidden(f, g);
      }
    }
  }

  lemma UniqueUnlessHidden(f: CanonicalFlowTuple, g: CanonicalFlowTuple)
    requires HashCanonicalFlow(f) == HashCanonicalFlow(g)
    requires !HidesEndpoint(g.srcTupleA) && !HidesEndpoint(g.srcTupleB) && !HidesEndpoint(g.protocol)
    ensures f == g.(isIngress := f.isIngress)
  {
    hide Endpoint, HashCanonicalFlow;
    HashIs(f);
    HashIs(g);
    var fa, ga := Endpoint(f.srcTupleA, f.portA), Endpoint(g.srcTupleA, g.portA);
    var fb, gb := Endpoint(f.srcTupleB, f.portB), Endpoint(g.srcTupleB, g.portB);
    var frest, grest := fb + ['-'] + f.protocol, gb + ['-'] + g.protocol;
    if |fa| < |ga| {
      var _ := ShorterIsInside(f.srcTupleA, f.portA, frest, g.srcTupleA, g.portA, grest);
    } else if |ga| < |fa| {
      var z := ShorterIsInside(g.srcTupleA, g.portA, grest, f.srcTupleA, f.portA, frest);
      SecondIsHidden(z, f.portA, frest, g.srcTupleB, g.portB, g.protocol, f.srcTupleB, f.portB, f.protocol);
    } else {
      SameLengthSplit(fa, frest, ga, grest);
      EndpointInjective(f.srcTupleA, f.portA, g.srcTupleA, g.portA);
      if |fb| < |gb| {
        var _ := ShorterIsInside(f.srcTupleB, f.portB, f.protocol, g.srcTupleB, g.portB, g.protocol);
      } else if |gb| < |fb| {
        var _ := ShorterIsInside(g.srcTupleB, g.portB, g.protocol, f.srcTupleB, f.portB, f.protocol);
      } else {
        SameLengthSplit(fb, f.protocol, gb, g.protocol);
        EndpointInjective(f.srcTupleB, f.portB, g.srcTupleB, g.portB);
      }
    }
  }

  /** A second endpoint and a protocol that read as three parts: one of the two hides an endpoint. */
  lemma SecondIsHidden(z: string, n: nat, rest: string, b: string, pb: nat, protocol: string, b': string, pb': nat,
      protocol': string)
    requires rest == Endpoint(b', pb') + ['-'] + protocol'
    requires Endpoint(b, pb) + ['-'] + protocol == Hiding(z, n, rest)
    ensures HidesEndpoint(b) || HidesEndpoint(protocol)
  {
    hide Endpoint;
    var e, e' := Endpoint(b, pb), Endpoint(z, n);
    if |e| < |e'| {
      var w := ShorterIsInside(b, pb, protocol, z, n, rest);
    } else if |e'| < |e| {
      var w := ShorterIsInside(z, n, rest, b, pb, protocol);
    } else {
      SameLengthSplit(e, protocol, e', rest);
      assert protocol == Hiding(b', pb', protocol');
    }
  }

  /** Such flows exist, in any three endpoints in a row: an address with a dash, or a protocol with one. */
  lemma FlowsCollide(a: string, pa: nat, b: string, pb: nat, c: string, pc: nat, protocol: string)
    ensures var f := CanonicalFlowTuple(a, b, pa, pb, Hiding(c, pc, protocol), true);
            var g := CanonicalFlowTuple(Hiding(a, pa, b), c, pb, pc, protocol, true);
            f != g && HashCanonicalFlow(f) == HashCanonicalFlow(g)
  {
    hide Endpoint, HashCanonicalFlow;
    var f := CanonicalFlowTuple(a, b, pa, pb, Hiding(c, pc, protocol), true);
    var g := CanonicalFlowTuple(Hiding(a, pa, b), c, pb, pc, protocol, true);
    HashIs(f);
    HashIs(g);
    EndpointOf(a, pa, b, pb);
    EndpointLonger(a, pa);
    var ea, eb, tail := Endpoint(a, pa), Endpoint(b, pb), Endpoint(c, pc) + ['-'] + protocol;
    assert ea + ['-'] + eb + ['-'] + tail == ea + ['-'] + (eb + ['-'] + tail);
  }
}
