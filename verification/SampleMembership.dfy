/** SWO: which keys belong to which sample, and why every sample has exactly m keys. */
module SampleMembership {
  import opened Products
  import opened Lanes
  import opened FeistelPermutation

  /** One step of Newton's iteration. */
  function Newton(n: nat, x: nat): nat
    requires 0 < x
  {
    (x + n / x) / 2
  }

  /** x is at least the floor of the root. */
  predicate Above(n: nat, x: nat) {
    n < (x + 1) * (x + 1)
  }

  lemma NewtonStep(n: nat, x: nat)
    requires 0 < x
    ensures Above(n, Newton(n, x))
  {
    var q, r := n / x, n % x;
    var y := (x + q) / 2;
    assert n == q * x + r;
    assert x + q + 1 <= 2 * (y + 1);
    Square(x, q, y + 1);
    assert x * (q + 1) == q * x + x;
  }

  /** Twice a number at least x + q + 1 squares to at least 4x(q + 1). */
  lemma Square(x: nat, q: nat, y: nat)
    requires x + q + 1 <= 2 * y
    ensures x * (q + 1) <= y * y
  {
    var e := y - x;
    Monotone(q + 1, y + e, x);
    Difference(y, e);
  }

  lemma Difference(y: int, e: int)
    ensures (y + e) * (y - e) <= y * y
  {
    assert (y + e) * (y - e) == y * y - e * e;
    assert e * e >= 0;
  }

  lemma RootFound(n: nat, x: nat)
    requires 0 < x && x <= Newton(n, x)
    ensures x * x <= n
  {
    assert n == (n / x) * x + n % x;
    Monotone(x, n / x, x);
  }

  /** Newton's iteration from above ends at the floor of the square root. */
  method IntegerSqrt(n: nat) returns (root: nat)
    ensures root * root <= n && Above(n, root)
  {
    if n <= 1 {
      return n;
    }
    hide Newton, Above;
    NewtonStart(n);
    var x0 := n / 2;
    var x1 := Newton(n, x0);
    NewtonStep(n, x0);
    while x1 < x0
      invariant 0 < x0 && x1 == Newton(n, x0) && Above(n, x0) && Above(n, x1)
      decreases x0
    {
      x0 := x1;
      PositiveRoot(n, x0);
      x1 := Newton(n, x0);
      NewtonStep(n, x0);
    }
    RootFound(n, x0);
    return x0;
  }

  lemma NewtonStart(n: nat)
    requires 1 < n
    ensures 0 < n / 2 && Above(n, n / 2)
  {
    var h := n / 2;
    assert (h + 1) * (h + 1) == h * h + 2 * h + 1;
    assert h * h >= h;
  }

  lemma PositiveRoot(n: nat, x: nat)
    requires 1 < n && Above(n, x)
    ensures 0 < x
  {
  }

  /** The least square side that covers n, and the fewest columns of that side that do. */
  ghost predicate AreSides(n: nat, a: nat, b: nat) {
    0 < a && 0 < b && n <= a * b < n + a && (a - 1) * (a - 1) < n <= a * a
  }

  /** The two sides of the domain: the ceiling of the root, and enough columns to cover n. */
  method Sides(n: nat) returns (a: nat, b: nat)
    requires 0 < n
    ensures AreSides(n, a, b)
  {
    a := IntegerSqrt(n);
    if a * a < n {
      a := a + 1;
    }
    CeilingRoot(n, a);
    b := (n + a - 1) / a;
    Columns(n, a);
  }

  lemma CeilingRoot(n: nat, a: nat)
    requires 0 < n && n <= a * a
    ensures 0 < a
  {
  }

  lemma Columns(n: nat, a: nat)
    requires 0 < n && 0 < a
    ensures var b := (n + a - 1) / a; 0 < b && n <= a * b < n + a
  {
    var b, r := (n + a - 1) / a, (n + a - 1) % a;
    assert n + a - 1 == b * a + r;
  }

  // ----- counting members -----

  /** A set that maps one to one into another is no larger. */
  lemma {:induction false} InjectiveBound(s: set<nat>, t: set<nat>, p: seq<nat>)
    requires forall j :: j in s ==> j < |p| && p[j] in t
    requires forall i, j :: i in s && j in s && p[i] == p[j] ==> i == j
    ensures |s| <= |t|
    decreases |s|
  {
    if s != {} {
      var x :| x in s;
      InjectiveBound(s - {x}, t - {p[x]}, p);
    }
  }

  ghost function Flagged(flags: seq<bool>): set<nat> {
    set j: nat | 0 <= j < |flags| && flags[j]
  }

  lemma {:induction false} CountIsSize(flags: seq<bool>)
    ensures |Flagged(flags)| == Count(flags)
    decreases |flags|
  {
    if flags == [] {
      assert Flagged(flags) == {};
    } else {
      var last, rest := flags[|flags| - 1], flags[..|flags| - 1];
      assert flags == rest + [last];
      CountAppend(rest, [last]);
      CountIsSize(rest);
      CountOne(last);
      FlaggedAppend(rest, last);
    }
  }

  lemma FlaggedAppend(flags: seq<bool>, flag: bool)
    ensures |Flagged(flags + [flag])| == |Flagged(flags)| + Bit(flag)
  {
    assert Flagged(flags + [flag]) == Flagged(flags) + if flag then {|flags|} else {};
  }

  /** In a permutation of [0, n) exactly m positions map below m. */
  lemma ExactlyBelow(p: seq<nat>, m: nat)
    requires m <= |p| && (forall j :: 0 <= j < |p| ==> p[j] < |p|)
    requires forall i, j :: 0 <= i < |p| && 0 <= j < |p| && p[i] == p[j] ==> i == j
    ensures Count(seq(|p|, j requires 0 <= j < |p| => p[j] < m)) == m
  {
    var flags := seq(|p|, j requires 0 <= j < |p| => p[j] < m);
    CountIsSize(flags);
    SizeBelow(p, m, Flagged(flags));
  }

  lemma SizeBelow(p: seq<nat>, m: nat, below: set<nat>)
    requires m <= |p| && (forall j :: 0 <= j < |p| ==> p[j] < |p|)
    requires forall i, j :: 0 <= i < |p| && 0 <= j < |p| && p[i] == p[j] ==> i == j
    requires forall j: nat :: j in below <==> j < |p| && p[j] < m
    ensures |below| == m
  {
    var all := Between(0, |p|);
    InjectiveBound(below, Between(0, m), p);
    InjectiveBound(all - below, Between(m, |p|), p);
    assert all == below + (all - below);
  }

  // ----- the sampler -----

  /** The sampler: one round function a sample, and the two-dimensional domain the samples are permuted in. */
  class SWO {
    const prf: nat -> RoundFunction
    var n: nat
    var m: nat
    var k: nat
    var a: nat
    var b: nat

    ghost predicate Valid()
      reads this
    {
      k > 0 ==> 0 < m <= n && k == n / m && 0 < a && 0 < b && n <= a * b
    }

    constructor (prf: nat -> RoundFunction)
      ensures Valid() && this.prf == prf && k == 0
    {
      this.prf := prf;
      n, m, k, a, b := 0, 0, 0, 0, 0;
    }

    /** The network of one sample. */
    function Network(sample: nat): nat -> nat
      requires 0 < a && 0 < b
      reads this
    {
      FeistelMap(prf(sample), a, b)
    }

    /** Where key j lands in sample i. */
    ghost function Permuted(sample: nat, j: nat): nat
      requires Valid() && sample < k && j < n
      reads this
    {
      FeistelOneToOne(prf(sample), a, b);
      if n <= 1 then 0 else Landing(Network(sample), a * b, n, j)
    }

    ghost predicate Member(sample: nat, j: nat)
      requires Valid()
      reads this
    {
      sample < k && j < n && Permuted(sample, j) < m
    }

    /** No sample without records or requests; otherwise n / m samples over a domain that covers the keys. */
    method Initialize(size: nat, request: nat)
      modifies this
      ensures Valid() && n == size
      ensures if size == 0 || request == 0 then k == 0
              else m == (if request > size then size else request) && k == size / m > 0 && AreSides(n, a, b)
    {
      n, m := size, request;
      if m == 0 || n == 0 {
        k := 0;
        return;
      }
      if m > n {
        m := n;
      }
      k := n / m;
      AtLeastOne(n, m);
      a, b := Sides(n);
    }

    /** The network of a sample and the inverse rounds of that sample's own round function undo each other. */
    lemma NetworkInverse(sample: nat, x: nat)
      requires 0 < a && 0 < b && x < a * b
      ensures Network(sample)(x) < a * b && Inverse(prf(sample), Network(sample)(x), a, b) == x
      ensures Inverse(prf(sample), x, a, b) < a * b && Network(sample)(Inverse(prf(sample), x, a, b)) == x
    {
      InverseUndoes(prf(sample), x, a, b);
    }

    /** A key belongs to a sample exactly when its path under that sample's own inverse network ends below m. */
    lemma MemberLeads(sample: nat, j: nat)
      requires Valid()
      ensures Member(sample, j) <==> sample < k && j < n && LeadsBelow(prf(sample), a, b, n, m, j)
    {
      hide OneToOne, Landing, Leads;
      if sample < k && j < n {
        FeistelOneToOne(prf(sample), a, b);
        var land := Landing(Network(sample), a * b, n, j);
        LandingIsLead(prf(sample), a, b, n, j, land);
        LandingInjective(Network(sample), a * b, n, j, j);
        forall z: nat | Leads(prf(sample), a, b, n, j, z) ensures z == land {
          LandingIsLead(prf(sample), a, b, n, j, z);
        }
      }
    }

    /** The keys of one sample. */
    ghost function Members(sample: nat): (members: seq<bool>)
      requires Valid()
      reads this
      ensures |members| == n && forall j :: 0 <= j < n ==> members[j] == Member(sample, j)
    {
      seq(n, j requires 0 <= j < n && Valid() reads this => Member(sample, j))
    }

    method SampleMember(sample: nat, j: nat) returns (member: bool)
      requires Valid()
      ensures member == Member(sample, j)
    {
      if sample >= k || j >= n || m == 0 {
        return false;
      }
      if n <= 1 {
        return 0 < m;
      }
      FeistelOneToOne(prf(sample), a, b);
      var position := CycleWalk(Network(sample), a * b, n, j);
      return position < m;
    }

    /** Every sample has exactly m of the n keys, for every round function. */
    lemma ExactMembers(sample: nat)
      requires Valid() && sample < k
      ensures Count(Members(sample)) == m
    {
      hide OneToOne, Landing, Count;
      FeistelOneToOne(prf(sample), a, b);
      var p := seq(n, j requires 0 <= j < n && Valid() && sample < k reads this => Permuted(sample, j));
      forall i, j | 0 <= i < n && 0 <= j < n ensures p[i] < n && (p[i] == p[j] ==> i == j) {
        if n > 1 {
          LandingInjective(Network(sample), a * b, n, i, j);
        }
      }
      var bound := m;
      ExactlyBelow(p, bound);
      assert Members(sample) == seq(|p|, j requires 0 <= j < |p| => p[j] < bound);
    }
  }

  lemma AtLeastOne(n: nat, m: nat)
    requires 0 < m <= n
    ensures 0 < n / m
  {
  }
}
