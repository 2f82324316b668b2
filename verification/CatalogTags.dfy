/**
 The tags that the catalog of runtime targets makes up
 (internal/control/service.go, buildRuntimeCatalog): a prefix and a number padded
 to three digits. No two of them are ever the same, however many there are.
 */
module CatalogTags {
  import opened Common
  import opened FreshTags

  lemma {:induction false} DecimalFacts(n: nat)
    ensures AllDigits(Decimal(n)) && (Decimal(n)[0] == '0' <==> n == 0)
    ensures (n < 10 <==> |Decimal(n)| == 1) && (n < 100 <==> |Decimal(n)| <= 2)
    decreases n
  {
    if n >= 10 {
      DecimalFacts(n / 10);
      var front := Decimal(n / 10);
      assert Decimal(n) == front + [Digit(n % 10)];
      assert Decimal(n)[0] == front[0];
    }
  }

  /** The %03d format. */
  function Pad3(n: nat): (s: string)
    ensures |s| >= 3
  {
    DecimalFacts(n);
    if n < 10 then ['0', '0'] + Decimal(n) else if n < 100 then ['0'] + Decimal(n) else Decimal(n)
  }

  lemma Pad3IsDigits(n: nat)
    ensures AllDigits(Pad3(n))
  {
    DecimalFacts(n);
  }

  lemma PaddingIsWorthless(s: string)
    ensures Value(['0'] + s) == Value(s)
    decreases |s|
  {
    if s == [] {
      assert Value(['0']) == 10 * Value(['0'][..0]) + 0;
    } else {
      var front := s[..|s| - 1];
      PaddingIsWorthless(front);
      assert (['0'] + s)[..|s|] == ['0'] + front;
    }
  }

  /** The number of a tag is written in at least three digits, padded with zeros and not otherwise changed. */
  lemma Pad3Denotes(n: nat)
    ensures AllDigits(Pad3(n)) && Value(Pad3(n)) == n && |Pad3(n)| >= 3
    ensures |Pad3(n)| > 3 ==> Pad3(n)[0] != '0'
  {
    Pad3IsDigits(n);
    DecimalDenotes(n);
    DecimalFacts(n);
    PaddingIsWorthless(Decimal(n));
    PaddingIsWorthless(['0'] + Decimal(n));
    assert ['0', '0'] + Decimal(n) == ['0'] + (['0'] + Decimal(n));
  }

  function Zeros(n: nat): nat {
    if n < 10 then 2 else if n < 100 then 1 else 0
  }

  lemma Pad3Drops(n: nat)
    ensures Pad3(n)[Zeros(n)..] == Decimal(n)
    ensures |Pad3(n)| == 3 || n >= 100
    ensures n >= 100 ==> Pad3(n)[0] != '0'
    ensures 10 <= n < 100 ==> Pad3(n)[0] == '0' && Pad3(n)[1] != '0'
    ensures n < 10 ==> Pad3(n)[0] == '0' && Pad3(n)[1] == '0'
  {
    DecimalFacts(n);
  }

  lemma Pad3Injective(a: nat, b: nat)
    requires Pad3(a) == Pad3(b)
    ensures a == b
  {
    Pad3Drops(a);
    Pad3Drops(b);
    assert Zeros(a) == Zeros(b);
    DecimalInjective(a, b);
  }

  datatype Name =
    | NodeName(n: nat)
    | PoolName(n: nat)
    | PoolAutoName(n: nat)
    | ChainName(n: nat)
    | ChainAutoName(n: nat)
    | MemberName(n: nat, member: nat)

  const MEMBER := "-member-"

  function Prefix(x: Name): string {
    match x
    case NodeName(_) => "runtime-node-"
    case PoolName(_) => "runtime-pool-"
    case PoolAutoName(_) => "runtime-pool-auto-"
    case ChainName(_) => "runtime-chain-"
    case ChainAutoName(_) => "runtime-chain-auto-"
    case MemberName(_, _) => "runtime-chain-"
  }

  function Tail(x: Name): string {
    match x
    case MemberName(n, member) => Pad3(n) + MEMBER + Pad3(member)
    case _ => Pad3(x.n)
  }

  function Spell(x: Name): string {
    Prefix(x) + Tail(x)
  }

  lemma TailStartsWithDigit(x: Name)
    ensures |Tail(x)| >= 3 && IsDigit(Tail(x)[0])
  {
    Pad3IsDigits(x.n);
  }

  /** The letters that tell the kinds apart. */
  lemma Letters(x: Name)
    ensures
      var s := Spell(x);
      && |s| >= 15 && s[|Prefix(x)|..] == Tail(x)
      && s[8] == (if x.NodeName? then 'n' else if x.PoolName? || x.PoolAutoName? then 'p' else 'c')
      && (x.PoolName? ==> IsDigit(s[13])) && (x.PoolAutoName? ==> s[13] == 'a')
      && (x.ChainName? || x.MemberName? ==> IsDigit(s[14])) && (x.ChainAutoName? ==> s[14] == 'a')
  {
    TailStartsWithDigit(x);
  }

  /** Which kind a name is shows in its first letters, but for a chain and its members. */
  lemma PrefixShows(x: Name, y: Name)
    requires Spell(x) == Spell(y)
    ensures Prefix(x) == Prefix(y) && Tail(x) == Tail(y)
  {
    Letters(x);
    Letters(y);
  }

  lemma DashAfterDigits(a: string, b: string)
    requires AllDigits(a)
    ensures
      var s := a + ['-'] + b;
      s[|a|] == '-' && s[..|a|] == a && s[|a| + 1..] == b && forall i :: 0 <= i < |a| ==> IsDigit(s[i])
  {
  }

  lemma SplitAtDash(a: string, b: string, c: string, d: string)
    requires AllDigits(a) && AllDigits(c) && a + ['-'] + b == c + ['-'] + d
    ensures a == c && b == d
  {
    DashAfterDigits(a, b);
    DashAfterDigits(c, d);
    assert |a| == |c|;
  }

  lemma Regroup(a: string, rest: string, b: string)
    ensures a + (['-'] + rest) + b == a + ['-'] + (rest + b)
    ensures (rest + b)[|rest|..] == b
  {
  }

  lemma MembersDiffer(a: nat, b: nat, c: nat, d: nat)
    requires Pad3(a) + MEMBER + Pad3(b) == Pad3(c) + MEMBER + Pad3(d)
    ensures a == c && b == d
  {
    Pad3IsDigits(a);
    Pad3IsDigits(c);
    var rest := MEMBER[1..];
    assert MEMBER == ['-'] + rest;
    Regroup(Pad3(a), rest, Pad3(b));
    Regroup(Pad3(c), rest, Pad3(d));
    SplitAtDash(Pad3(a), rest + Pad3(b), Pad3(c), rest + Pad3(d));
    Pad3Injective(a, c);
    Pad3Injective(b, d);
  }

  lemma MemberIsNoNumber(a: nat, b: nat, n: nat)
    ensures Pad3(a) + MEMBER + Pad3(b) != Pad3(n)
  {
    Pad3IsDigits(n);
    var s := Pad3(a) + MEMBER + Pad3(b);
    assert s[|Pad3(a)|] == '-';
  }

  /** Different names have different tags. */
  lemma TagsDiffer(x: Name, y: Name)
    requires Spell(x) == Spell(y)
    ensures x == y
  {
    PrefixShows(x, y);
    if x.MemberName? && y.MemberName? {
      MembersDiffer(x.n, x.member, y.n, y.member);
    } else if x.MemberName? {
      MemberIsNoNumber(x.n, x.member, y.n);
    } else if y.MemberName? {
      MemberIsNoNumber(y.n, y.member, x.n);
    } else {
      Pad3Injective(x.n, y.n);
      assert Prefix(x) == Prefix(y);
    }
  }

  /** No such tag contains the letter that every entry tag of a chain contains. */
  lemma NoY(x: Name)
    ensures 'y' !in Spell(x)
  {
    Pad3IsDigits(x.n);
    if x.MemberName? {
      Pad3IsDigits(x.member);
    }
    assert 'y' !in Prefix(x) && 'y' !in Tail(x);
  }

  lemma EntryTagHasY(base: string, used: set<string>)
    ensures 'y' in FreshTag(base + "-entry", used)
  {
    var b := base + "-entry";
    assert b[|base| + 5] == 'y';
    if b in used {
      var k := FirstFree(b, used, 2);
      assert Candidate(b, k)[|base| + 5] == 'y';
    }
  }
}
