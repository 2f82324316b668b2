/**
 The searches for an unused tag (internal/singbox/config.go, uniqueRuntimeTag and
 uniqueDNSTag): the base itself, or the base with the first free number from 2 on.
 */
module FreshTags {

  function Digit(n: nat): (c: char)
    requires n < 10
    ensures c as int - '0' as int == n
  {
    ('0' as int + n) as char
  }

  /** The %d format of a non-negative number. */
  function Decimal(n: nat): (s: string)
    ensures |s| >= 1
    ensures n >= 10 ==> |s| >= 2
    ensures s[|s| - 1] == Digit(n % 10)
  {
    if n < 10 then [Digit(n)] else Decimal(n / 10) + [Digit(n % 10)]
  }

  predicate IsDigit(c: char) {
    '0' <= c <= '9'
  }

  ghost predicate AllDigits(s: string) {
    forall i :: 0 <= i < |s| ==> IsDigit(s[i])
  }

  /** The number that some digits denote. */
  ghost function Value(s: string): int {
    if s == [] then 0 else 10 * Value(s[..|s| - 1]) + (s[|s| - 1] as int - '0' as int)
  }

  /** The suffix is the number in decimal, without leading zeros. */
  lemma {:induction false} DecimalDenotes(n: nat)
    ensures AllDigits(Decimal(n)) && Value(Decimal(n)) == n
    ensures n > 0 ==> Decimal(n)[0] != '0'
  {
    if n < 10 {
      assert Decimal(n)[..0] == [];
    } else {
      DecimalDenotes(n / 10);
      assert Decimal(n)[..|Decimal(n)| - 1] == Decimal(n / 10);
    }
  }

  lemma {:induction false} DecimalInjective(a: nat, b: nat)
    requires Decimal(a) == Decimal(b)
    ensures a == b
  {
    assert a % 10 == b % 10;
    if a >= 10 && b >= 10 {
      var front := Decimal(a)[..|Decimal(a)| - 1];
      assert Decimal(a / 10) == front;
      assert Decimal(b / 10) == front;
      DecimalInjective(a / 10, b / 10);
    }
  }

  function Candidate(base: string, index: nat): string {
    base + "-" + Decimal(index)
  }

  lemma CandidateInjective(base: string, a: nat, b: nat)
    requires Candidate(base, a) == Candidate(base, b)
    ensures a == b
  {
    assert Decimal(a) == Candidate(base, a)[|base| + 1..];
    assert Decimal(b) == Candidate(base, b)[|base| + 1..];
    DecimalInjective(a, b);
  }

  /** The used tags that a search from `index` on could still meet. */
  ghost function InTheWay(base: string, used: set<string>, index: nat): set<string> {
    set t | t in used && exists k: nat :: index <= k && t == Candidate(base, k)
  }

  /** Each failed attempt leaves strictly fewer tags in the way, because suffixes are never repeated. */
  lemma SearchAdvances(base: string, used: set<string>, index: nat)
    requires Candidate(base, index) in used
    ensures InTheWay(base, used, index + 1) < InTheWay(base, used, index)
  {
    var here := Candidate(base, index);
    assert here in InTheWay(base, used, index);
    forall k: nat | index + 1 <= k ensures here != Candidate(base, k) {
      if here == Candidate(base, k) {
        CandidateInjective(base, index, k);
      }
    }
  }

  /** The first free index from `index` on. */
  function FirstFree(base: string, used: set<string>, index: nat): (k: nat)
    ensures index <= k && Candidate(base, k) !in used
    ensures forall j :: index <= j < k ==> Candidate(base, j) in used
    decreases InTheWay(base, used, index)
  {
    if Candidate(base, index) !in used then index
    else
      SearchAdvances(base, used, index);
      FirstFree(base, used, index + 1)
  }

  function FreshTag(base: string, used: set<string>): (tag: string)
    ensures tag !in used
  {
    if base !in used then base else Candidate(base, FirstFree(base, used, 2))
  }

  /** The loop of the source; it ends for every finite set of used tags. */
  method UniqueTag(base: string, used: set<string>) returns (tag: string)
    ensures tag == FreshTag(base, used)
    ensures tag !in used
  {
    if base !in used {
      return base;
    }
    var index := 2;
    while Candidate(base, index) in used
      invariant 2 <= index
      invariant FirstFree(base, used, 2) == FirstFree(base, used, index)
      decreases InTheWay(base, used, index)
    {
      SearchAdvances(base, used, index);
      index := index + 1;
    }
    tag := Candidate(base, index);
  }

  /** Which tag it is: the base if free, otherwise the lowest free number above one, and never another one. */
  lemma {:induction false} FreshTagIsLowest(base: string, used: set<string>, tag: string)
    ensures base !in used ==> (tag == FreshTag(base, used) <==> tag == base)
    ensures base in used ==>
      (tag == FreshTag(base, used) <==> exists k: nat :: LowestFree(base, used, k) && tag == base + "-" + Decimal(k))
  {
    if base in used {
      var first := FirstFree(base, used, 2);
      FirstIsLowest(base, used, first);
      assert Candidate(base, first) == base + "-" + Decimal(first);
      forall k: nat | LowestFree(base, used, k) ensures k == first {
        assert Candidate(base, k) == base + "-" + Decimal(k);
      }
    }
  }

  lemma FirstIsLowest(base: string, used: set<string>, first: nat)
    requires first == FirstFree(base, used, 2)
    ensures LowestFree(base, used, first)
  {
    forall j: nat | 2 <= j < first ensures base + "-" + Decimal(j) in used {
      assert Candidate(base, j) in used;
    }
  }

  ghost predicate LowestFree(base: string, used: set<string>, k: nat) {
    2 <= k && base + "-" + Decimal(k) !in used && forall j: nat :: 2 <= j < k ==> base + "-" + Decimal(j) in used
  }
}
