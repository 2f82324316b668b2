/**
 IPv4 prefixes (section 3.1 of RFC 4632) and the test that keeps the TUN address
 and the fake-IP range apart (internal/singbox/config.go, validateTUNProfileAddress).
 */
module Cidr {
  import opened Common

  const ADDRESSES := 0x1_0000_0000

  /** A parsed prefix; the address of an IPv6 prefix is not looked at. */
  datatype Prefix = Prefix(is4: bool, address: nat, bits: nat)

  predicate IsIPv4(p: Prefix) {
    p.is4 && p.address < ADDRESSES && p.bits <= 32
  }

  function Size(p: Prefix): (n: nat)
    requires IsIPv4(p)
    ensures n >= 1
  {
    Pow2(32 - p.bits)
  }

  /** Prefix.Masked: the address with its host bits cleared. */
  function Masked(p: Prefix): (m: Prefix)
    requires IsIPv4(p)
    ensures IsIPv4(m)
  {
    p.(address := p.address - p.address % Size(p))
  }

  /** Prefix.Contains: the leading bits agree. */
  predicate Contains(p: Prefix, address: nat)
    requires IsIPv4(p)
  {
    address / Size(p) == p.address / Size(p)
  }

  /** The addresses a prefix stands for. */
  predicate Covers(p: Prefix, x: int)
    requires IsIPv4(p)
  {
    Masked(p).address <= x < Masked(p).address + Size(p)
  }

  ghost predicate Intersect(p: Prefix, q: Prefix)
    requires IsIPv4(p) && IsIPv4(q)
  {
    exists x: int :: Covers(p, x) && Covers(q, x)
  }

  /** The two-sided test on the base addresses of masked prefixes. */
  predicate BasesOverlap(p: Prefix, q: Prefix)
    requires IsIPv4(p) && IsIPv4(q)
  {
    var mp, mq := Masked(p), Masked(q);
    Contains(mp, mq.address) || Contains(mq, mp.address)
  }

  lemma AtLeastOnce(k: int, n: int)
    requires k >= 1 && n >= 1
    ensures k * n >= n
  {
    assert (k - 1) * n >= 0;
    assert k * n == (k - 1) * n + n;
  }

  lemma DivisionIsUnique(x: int, n: int, q: int, r: int)
    requires n >= 1 && x == q * n + r && 0 <= r < n
    ensures x / n == q && x % n == r
  {
    var q', r' := x / n, x % n;
    assert x == q' * n + r';
    if q > q' {
      assert q * n - q' * n == (q - q') * n;
      AtLeastOnce(q - q', n);
    } else if q < q' {
      assert q' * n - q * n == (q' - q) * n;
      AtLeastOnce(q' - q, n);
    }
  }

  lemma BlockOf(x: nat, base: nat, size: nat)
    requires size >= 1
    ensures x / size == base / size <==> base - base % size <= x < base - base % size + size
  {
    var q := base / size;
    assert base - base % size == q * size;
    if q * size <= x < q * size + size {
      DivisionIsUnique(x, size, q, x - q * size);
    }
  }

  lemma MaskedBlock(p: Prefix, x: nat)
    requires IsIPv4(p)
    ensures Size(Masked(p)) == Size(p)
    ensures Contains(Masked(p), x) <==> Covers(p, x)
  {
    var n := Size(p);
    var base := Masked(p).address;
    DivisionIsUnique(base, n, p.address / n, 0);
    BlockOf(x, base, n);
  }

  lemma {:induction false} Pow2Divides(small: nat, large: nat) returns (k: nat)
    requires small <= large
    ensures k >= 1 && Pow2(large) == Pow2(small) * k
    decreases large
  {
    if small == large {
      k := 1;
    } else {
      var half := Pow2Divides(small, large - 1);
      k := 2 * half;
      assert Pow2(large) == 2 * (Pow2(small) * half) == Pow2(small) * k;
    }
  }

  /** Two multiples of `s` that lie less than `s` apart are ordered as their blocks are. */
  lemma MultiplesApart(a: int, b: int, s: int)
    requires s >= 1 && a * s < b * s + s
    ensures a <= b
  {
    if a > b {
      assert a * s - b * s == (a - b) * s;
      AtLeastOnce(a - b, s);
    }
  }

  lemma MultiplesOrdered(a: int, b: int, s: int)
    requires s >= 1 && a <= b
    ensures a * s <= b * s
  {
    assert (b - a) * s >= 0;
    assert b * s - a * s == (b - a) * s;
  }

  /** The block of `s` addresses around x starts inside the block of `s * k` addresses around x. */
  lemma InnerStartsInside(a: nat, b: nat, s: nat, k: nat, x: nat)
    requires s >= 1 && k >= 1
    requires a * (s * k) <= x < a * (s * k) + s * k
    requires b * s <= x < b * s + s
    ensures a * (s * k) <= b * s < a * (s * k) + s * k
  {
    assert a * (s * k) == (a * k) * s;
    MultiplesApart(a * k, b, s);
    MultiplesOrdered(a * k, b, s);
  }

  lemma MaskedIsMultiple(p: Prefix)
    requires IsIPv4(p)
    ensures Masked(p).address == (p.address / Size(p)) * Size(p)
  {
  }

  /** A block that meets a block at least as large starts inside it. */
  lemma NestedOrDisjoint(outer: Prefix, inner: Prefix, x: nat)
    requires IsIPv4(outer) && IsIPv4(inner) && outer.bits <= inner.bits
    requires Covers(outer, x) && Covers(inner, x)
    ensures Covers(outer, Masked(inner).address)
  {
    var s, l := Size(inner), Size(outer);
    var k := Pow2Divides(32 - inner.bits, 32 - outer.bits);
    MaskedIsMultiple(outer);
    MaskedIsMultiple(inner);
    assert l == s * k;
    InnerStartsInside(outer.address / l, inner.address / s, s, k, x);
  }

  /** Blocks are nested or disjoint, so the base-address test finds exactly the overlaps. */
  lemma BasesOverlapExactly(p: Prefix, q: Prefix)
    requires IsIPv4(p) && IsIPv4(q)
    ensures BasesOverlap(p, q) <==> Intersect(p, q)
  {
    MaskedBlock(p, Masked(q).address);
    MaskedBlock(q, Masked(p).address);
    assert Covers(p, Masked(p).address) && Covers(q, Masked(q).address);
    if Intersect(p, q) {
      var x :| Covers(p, x) && Covers(q, x);
      if p.bits <= q.bits {
        NestedOrDisjoint(p, q, x);
      } else {
        NestedOrDisjoint(q, p, x);
      }
    }
  }

  // ----- the validation

  datatype Mode = SystemProxy | Tun | OtherMode(name: string)

  /** The fake-IP range as text: absent, unparsable, or a prefix. */
  datatype Range = NoRange | BadRange | ParsedRange(prefix: Prefix)

  datatype TunError = BadTunAddress | BadFakeRange | Overlap

  ghost predicate ParsedWell(p: Prefix) {
    p.is4 ==> IsIPv4(p)
  }

  function ValidateTun(mode: Mode, address: Option<Prefix>, fakeEnabled: bool, fake: Range): Option<TunError>
    requires address.Some? ==> ParsedWell(address.value)
    requires fake.ParsedRange? ==> ParsedWell(fake.prefix)
  {
    if mode != Tun then None
    else if address.None? || address.value.bits != 30 || !address.value.is4 then Some(BadTunAddress)
    else if !fakeEnabled || fake.NoRange? then None
    else if fake.BadRange? || !fake.prefix.is4 then Some(BadFakeRange)
    else if BasesOverlap(address.value, fake.prefix) then Some(Overlap)
    else None
  }

  /** A TUN profile is accepted exactly when the address is an IPv4 /30 that shares no address with the fake range. */
  lemma TunAcceptedExactly(address: Option<Prefix>, fakeEnabled: bool, fake: Range)
    requires address.Some? ==> ParsedWell(address.value)
    requires fake.ParsedRange? ==> ParsedWell(fake.prefix)
    ensures ValidateTun(Tun, address, fakeEnabled, fake) == None <==>
      && address.Some? && address.value.is4 && address.value.bits == 30
      && (fakeEnabled && !fake.NoRange? ==>
            fake.ParsedRange? && fake.prefix.is4 && !Intersect(address.value, fake.prefix))
  {
    if address.Some? && address.value.is4 && fake.ParsedRange? && fake.prefix.is4 {
      BasesOverlapExactly(address.value, fake.prefix);
    }
  }
}
