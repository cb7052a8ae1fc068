/** IP addresses, CIDR ranges and the matching of allowlist entries: a range runs
    from its network to its broadcast address (section 3.1 of RFC 4632, section 2.3
    of RFC 4291), and address families never match each other. */
module Cidr {
  import opened GatewayTypes

  type U32 = x: int | 0 <= x < 0x1_0000_0000

  type U128 = x: int | 0 <= x < 0x1_0000_0000_0000_0000_0000_0000_0000_0000

  datatype IpAddr = V4(v4: U32) | V6(v6: U128)

  type Prefix4 = x: int | 0 <= x <= 32

  type Prefix6 = x: int | 0 <= x <= 128

  /** An address and a prefix length; the address may have bits set after the prefix. */
  datatype IpNet = Net4(addr4: U32, len4: Prefix4) | Net6(addr6: U128, len6: Prefix6)

  function Pow2(n: nat): (p: nat)
    ensures p >= 1
  {
    if n == 0 then 1 else 2 * Pow2(n - 1)
  }

  /** First address of the block of this size that the address lies in: for a size of
      2^k, the address with its low k bits cleared. */
  function Network(addr: nat, size: nat): int
    requires size >= 1
  {
    addr / size * size
  }

  /** Last address of the block: the address with those bits set. */
  function Broadcast(addr: nat, size: nat): int
    requires size >= 1
  {
    Network(addr, size) + size - 1
  }

  predicate InBlock(addr: nat, size: nat, x: nat)
    requires size >= 1
  {
    Network(addr, size) <= x <= Broadcast(addr, size)
  }

  predicate Contains(net: IpNet, ip: IpAddr) {
    match (net, ip)
    case (Net4(a, len), V4(x)) => InBlock(a, Pow2(32 - len), x)
    case (Net6(a, len), V6(x)) => InBlock(a, Pow2(128 - len), x)
    case _ => false
  }

  // ----- bits -----

  function Bit(n: nat, i: nat): nat {
    n / Pow2(i) % 2
  }

  /** The two values have the same bits at positions k to w. */
  ghost predicate SameBits(a: nat, b: nat, k: nat, w: nat) {
    forall i :: k <= i < w ==> Bit(a, i) == Bit(b, i)
  }

  /** The addresses are of one family and agree on the leading bits of the prefix. */
  ghost predicate SamePrefix(net: IpNet, ip: IpAddr) {
    match (net, ip)
    case (Net4(a, len), V4(x)) => SameBits(a, x, 32 - len, 32)
    case (Net6(a, len), V6(x)) => SameBits(a, x, 128 - len, 128)
    case _ => false
  }

  lemma SmallProduct(k: nat, d: nat)
    requires k >= 1
    ensures k * d >= d
  {
  }

  lemma QuotientUnique(n: nat, q: nat, d: nat, r: nat)
    requires d >= 1 && n == q * d + r && r < d
    ensures n / d == q
  {
    var q', r' := n / d, n % d;
    assert (q - q') * d == q * d - q' * d == r' - r;
    if q' < q {
      SmallProduct(q - q', d);
    } else if q < q' {
      SmallProduct(q' - q, d);
    }
  }

  lemma DivideThenHalve(n: nat, m: nat)
    requires m >= 1
    ensures n / (2 * m) == n / m / 2
  {
    var q, r := n / m, n % m;
    assert n == q * m + r;
    assert q == 2 * (q / 2) + q % 2;
    assert q * m == (q / 2) * (2 * m) + (q % 2) * m;
    assert (q % 2) * m + r < 2 * m;
    QuotientUnique(n, q / 2, 2 * m, (q % 2) * m + r);
  }

  lemma SpanIffQuotient(q: nat, m: nat, x: nat)
    requires m >= 1
    ensures q * m <= x <= q * m + m - 1 <==> x / m == q
  {
    var low := q * m;
    if low <= x <= low + m - 1 {
      QuotientUnique(x, q, m, x - low);
    }
    assert x == x / m * m + x % m;
  }

  lemma InBlockIffQuotient(a: nat, size: nat, x: nat)
    requires size >= 1
    ensures InBlock(a, size, x) <==> a / size == x / size
  {
    SpanIffQuotient(a / size, size, x);
  }

  lemma {:induction false} QuotientIffBits(a: nat, b: nat, k: nat, w: nat)
    requires k <= w && a < Pow2(w) && b < Pow2(w)
    ensures a / Pow2(k) == b / Pow2(k) <==> SameBits(a, b, k, w)
    decreases w - k
  {
    if k == w {
      QuotientUnique(a, 0, Pow2(w), a);
      QuotientUnique(b, 0, Pow2(w), b);
    } else {
      var q, r := a / Pow2(k), b / Pow2(k);
      DivideThenHalve(a, Pow2(k));
      DivideThenHalve(b, Pow2(k));
      QuotientIffBits(a, b, k + 1, w);
      assert q == r <==> q / 2 == r / 2 && q % 2 == r % 2;
      assert SameBits(a, b, k, w) <==> Bit(a, k) == Bit(b, k) && SameBits(a, b, k + 1, w);
    }
  }

  lemma {:induction false} Pow2Add(m: nat, n: nat)
    ensures Pow2(m + n) == Pow2(m) * Pow2(n)
  {
    if m > 0 {
      Pow2Add(m - 1, n);
      assert Pow2(m + n) == 2 * Pow2((m - 1) + n);
    }
  }

  lemma Pow2Square(n: nat, v: nat)
    requires Pow2(n) == v
    ensures Pow2(2 * n) == v * v
  {
    Pow2Add(n, n);
  }

  lemma Pow2Values()
    ensures Pow2(32) == 0x1_0000_0000
    ensures Pow2(128) == 0x1_0000_0000_0000_0000_0000_0000_0000_0000
  {
    assert Pow2(1) == 2;
    Pow2Square(1, 2);
    Pow2Square(2, 4);
    Pow2Square(4, 16);
    Pow2Square(8, 0x100);
    Pow2Square(16, 0x1_0000);
    Pow2Square(32, 0x1_0000_0000);
    Pow2Square(64, 0x1_0000_0000_0000_0000);
  }

  lemma BlockIffSameBits(a: nat, x: nat, k: nat, w: nat)
    requires k <= w && a < Pow2(w) && x < Pow2(w)
    ensures InBlock(a, Pow2(k), x) <==> SameBits(a, x, k, w)
  {
    InBlockIffQuotient(a, Pow2(k), x);
    QuotientIffBits(a, x, k, w);
  }

  /** Lying between the network and the broadcast address is agreeing on the leading
      bits, for every range and address of both families. */
  lemma ContainsIffSamePrefix(net: IpNet, ip: IpAddr)
    ensures Contains(net, ip) <==> SamePrefix(net, ip)
  {
    Pow2Values();
    match (net, ip)
    case (Net4(a, len), V4(x)) => BlockIffSameBits(a, x, 32 - len, 32);
    case (Net6(a, len), V6(x)) => BlockIffSameBits(a, x, 128 - len, 128);
    case _ =>
  }

  function FullLength(ip: IpAddr): IpNet {
    match ip
    case V4(x) => Net4(x, 32)
    case V6(x) => Net6(x, 128)
  }

  lemma FullLengthIsExact(ip: IpAddr, other: IpAddr)
    ensures Contains(FullLength(ip), other) <==> ip == other
  {
    assert Pow2(0) == 1;
    match (ip, other)
    case (V4(a), V4(x)) =>
      assert Network(a, 1) == a;
    case (V6(a), V6(x)) =>
      assert Network(a, 1) == a;
    case _ =>
  }

  // ----- allowlist entries -----

  /** How texts parse as ranges and as addresses; the parsers are not part of this model. */
  datatype Parsers = Parsers(net: string -> Option<IpNet>, ip: string -> Option<IpAddr>)

  /** An entry is read as a range first, then as an exact address; other text matches nothing. */
  predicate Matches(parsers: Parsers, pattern: string, ip: IpAddr) {
    match parsers.net(pattern)
    case Some(net) => Contains(net, ip)
    case None =>
      match parsers.ip(pattern)
      case Some(exact) => exact == ip
      case None => false
  }

  predicate MatchesAny(parsers: Parsers, patterns: seq<string>, ip: IpAddr) {
    exists i :: 0 <= i < |patterns| && Matches(parsers, patterns[i], ip)
  }

  predicate WellFormed(parsers: Parsers, pattern: string) {
    parsers.net(pattern).Some? || parsers.ip(pattern).Some?
  }

  /** The range an entry stands for, an exact address being its full-length prefix. */
  function Meaning(parsers: Parsers, pattern: string): IpNet
    requires WellFormed(parsers, pattern)
  {
    match parsers.net(pattern)
    case Some(net) => net
    case None => FullLength(parsers.ip(pattern).value)
  }

  /** A list matches an address exactly when the address shares the prefix of a
      well-formed entry, wherever in the list it stands. */
  lemma MatchesAnyIff(parsers: Parsers, patterns: seq<string>, ip: IpAddr)
    ensures MatchesAny(parsers, patterns, ip) <==>
      exists p :: p in patterns && WellFormed(parsers, p) && SamePrefix(Meaning(parsers, p), ip)
  {
    forall p ensures Matches(parsers, p, ip) <==>
        WellFormed(parsers, p) && SamePrefix(Meaning(parsers, p), ip)
    {
      if WellFormed(parsers, p) {
        ContainsIffSamePrefix(Meaning(parsers, p), ip);
        if parsers.net(p) == None {
          FullLengthIsExact(parsers.ip(p).value, ip);
        }
      }
    }
    if p :| p in patterns && Matches(parsers, p, ip) {
      var i :| 0 <= i < |patterns| && patterns[i] == p;
      assert Matches(parsers, patterns[i], ip);
    }
  }

  /** Reordering, repeating or dropping malformed entries never changes the answer. */
  lemma OrderAndNoiseIrrelevant(parsers: Parsers, p1: seq<string>, p2: seq<string>, ip: IpAddr)
    requires forall p :: WellFormed(parsers, p) ==> (p in p1 <==> p in p2)
    ensures MatchesAny(parsers, p1, ip) == MatchesAny(parsers, p2, ip)
  {
    MatchesAnyIff(parsers, p1, ip);
    MatchesAnyIff(parsers, p2, ip);
  }
}
