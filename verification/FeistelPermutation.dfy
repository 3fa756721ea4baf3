/** The keyed permutation behind SWO sampling: a generalised Feistel network with cycle walking. */
module FeistelPermutation {
  import opened Products


  // ----- four rounds on a two-dimensional domain -----

  /** The round function: any function of the right half and the round number. */
  type RoundFunction = (nat, nat) -> nat

  datatype Halves = Halves(left: nat, right: nat)

  /** One round: the side that is replaced lives in Z_a in even rounds and in Z_b in odd ones. */
  function Round(prf: RoundFunction, h: Halves, r: nat, a: nat, b: nat): Halves
    requires 0 < a && 0 < b
  {
    var modulus := if r % 2 == 0 then a else b;
    Halves(h.right, Shift(h.left, prf(h.right, r), modulus))
  }

  /** Adds a shift modulo c. */
  function Shift(x: nat, f: nat, c: nat): nat
    requires 0 < c
  {
    (x + f % c) % c
  }

  /** Where the halves live before round r. */
  predicate InDomain(h: Halves, r: nat, a: nat, b: nat) {
    if r % 2 == 0 then h.left < a && h.right < b else h.left < b && h.right < a
  }

  lemma RoundStays(prf: RoundFunction, h: Halves, r: nat, a: nat, b: nat)
    requires 0 < a && 0 < b && InDomain(h, r, a, b)
    ensures InDomain(Round(prf, h, r, a, b), r + 1, a, b)
  {
  }

  /** Adding the same shift modulo c separates what was separate. */
  lemma ShiftInjective(x: nat, y: nat, f: nat, c: nat)
    requires x < c && y < c && f < c && (x + f) % c == (y + f) % c
    ensures x == y
  {
    Wrap(x + f, c);
    Wrap(y + f, c);
  }

  lemma Wrap(s: nat, c: nat)
    requires s < 2 * c
    ensures s % c == if s < c then s else s - c
  {
    if s >= c {
      assert s == c + (s - c);
    }
  }

  lemma RoundInjective(prf: RoundFunction, g: Halves, h: Halves, r: nat, a: nat, b: nat)
    requires 0 < a && 0 < b && InDomain(g, r, a, b) && InDomain(h, r, a, b)
    requires Round(prf, g, r, a, b) == Round(prf, h, r, a, b)
    ensures g == h
  {
    var modulus := if r % 2 == 0 then a else b;
    ShiftInjective(g.left, h.left, prf(g.right, r) % modulus, modulus);
  }

  /** Rounds r to 3. */
  function Rounds(prf: RoundFunction, h: Halves, r: nat, a: nat, b: nat): Halves
    requires 0 < a && 0 < b && r <= 4
    decreases 4 - r
  {
    if r == 4 then h else Rounds(prf, Round(prf, h, r, a, b), r + 1, a, b)
  }

  lemma {:induction false} RoundsStay(prf: RoundFunction, h: Halves, r: nat, a: nat, b: nat)
    requires 0 < a && 0 < b && r <= 4 && InDomain(h, r, a, b)
    ensures InDomain(Rounds(prf, h, r, a, b), 4, a, b)
    decreases 4 - r
  {
    hide Round;
    if r < 4 {
      RoundStays(prf, h, r, a, b);
      RoundsStay(prf, Round(prf, h, r, a, b), r + 1, a, b);
    }
  }

  lemma {:induction false} RoundsInjective(prf: RoundFunction, g: Halves, h: Halves, r: nat, a: nat, b: nat)
    requires 0 < a && 0 < b && r <= 4 && InDomain(g, r, a, b) && InDomain(h, r, a, b)
    requires Rounds(prf, g, r, a, b) == Rounds(prf, h, r, a, b)
    ensures g == h
    decreases 4 - r
  {
    hide Round;
    if r < 4 {
      RoundStays(prf, g, r, a, b);
      RoundStays(prf, h, r, a, b);
      RoundsInjective(prf, Round(prf, g, r, a, b), Round(prf, h, r, a, b), r + 1, a, b);
      RoundInjective(prf, g, h, r, a, b);
    }
  }

  /** A point of [0, a * b) as its two halves, four rounds, and back. */
  function Feistel(prf: RoundFunction, x: nat, a: nat, b: nat): nat
    requires 0 < a && 0 < b
  {
    Joined(Rounds(prf, Split(x, b), 0, a, b), b)
  }

  /** The network as a map. */
  function FeistelMap(prf: RoundFunction, a: nat, b: nat): (nat -> nat)
    requires 0 < a && 0 < b
  {
    x => Feistel(prf, x, a, b)
  }

  function Split(x: nat, b: nat): Halves
    requires 0 < b
  {
    Halves(x / b, x % b)
  }

  function Joined(h: Halves, b: nat): nat {
    h.left * b + h.right
  }

  lemma SplitPoint(x: nat, a: nat, b: nat)
    requires 0 < b && x < a * b
    ensures InDomain(Split(x, b), 0, a, b) && Joined(Split(x, b), b) == x
  {
    assert x == (x / b) * b + x % b;
    if a <= x / b {
      Monotone(a, x / b, b);
    }
  }

  lemma JoinPoint(h: Halves, a: nat, b: nat)
    requires 0 < b && InDomain(h, 4, a, b)
    ensures Joined(h, b) < a * b && Split(Joined(h, b), b) == h
  {
    Monotone(h.left + 1, a, b);
    Quotient(h.left, h.right, b);
  }

  /** The network is a bijection of [0, a * b), for every round function. */
  lemma FeistelInjective(prf: RoundFunction, x: nat, y: nat, a: nat, b: nat)
    requires 0 < a && 0 < b && x < a * b && y < a * b
    ensures Feistel(prf, x, a, b) < a * b
    ensures Feistel(prf, x, a, b) == Feistel(prf, y, a, b) ==> x == y
  {
    hide Rounds, InDomain, Split, Joined;
    SplitPoint(x, a, b);
    SplitPoint(y, a, b);
    var g, h := Split(x, b), Split(y, b);
    RoundsStay(prf, g, 0, a, b);
    RoundsStay(prf, h, 0, a, b);
    JoinPoint(Rounds(prf, g, 0, a, b), a, b);
    JoinPoint(Rounds(prf, h, 0, a, b), a, b);
    if Rounds(prf, g, 0, a, b) == Rounds(prf, h, 0, a, b) {
      RoundsInjective(prf, g, h, 0, a, b);
    }
  }

  /** A one-to-one map of [0, top) to itself. */
  ghost predicate OneToOne(f: nat -> nat, top: nat) {
    && (forall x :: 0 <= x < top ==> f(x) < top)
    && forall x, y :: 0 <= x < top && 0 <= y < top && f(x) == f(y) ==> x == y
  }

  lemma FeistelOneToOne(prf: RoundFunction, a: nat, b: nat)
    requires 0 < a && 0 < b
    ensures OneToOne(FeistelMap(prf, a, b), a * b)
  {
    hide Feistel;
    var f := FeistelMap(prf, a, b);
    forall x, y | 0 <= x < a * b && 0 <= y < a * b ensures f(x) < a * b && (f(x) == f(y) ==> x == y) {
      FeistelInjective(prf, x, y, a, b);
    }
  }

  // ----- the inverse network -----

  /** Takes the shift of a round away again. */
  function Unshift(x: nat, f: nat, c: nat): nat
    requires 0 < c
  {
    (x + c - f % c) % c
  }

  lemma ShiftUndone(x: nat, f: nat, c: nat)
    requires x < c
    ensures Unshift(Shift(x, f, c), f, c) == x && Shift(Unshift(x, f, c), f, c) == x
    ensures Shift(x, f, c) < c && Unshift(x, f, c) < c
  {
    var g := f % c;
    Wrap(x + g, c);
    Wrap((x + g) % c + c - g, c);
    Wrap(x + c - g, c);
    Wrap((x + c - g) % c + g, c);
  }

  /** The inverse network: the rounds are taken back in the order 3, 2, 1, 0. */
  function Inverse(prf: RoundFunction, y: nat, a: nat, b: nat): nat
    requires 0 < a && 0 < b
  {
    var h := TakenBack(prf, y / b, y % b, a, b);
    h.left * b + h.right
  }

  function TakenBack(prf: RoundFunction, h3: nat, h4: nat, a: nat, b: nat): Halves
    requires 0 < a && 0 < b
  {
    var h2 := Unshift(h4, prf(h3, 3), b);
    var h1 := Unshift(h3, prf(h2, 2), a);
    var right := Unshift(h2, prf(h1, 1), b);
    Halves(Unshift(h1, prf(right, 0), a), right)
  }

  /** The four rounds, written out. */
  lemma Unrolled(prf: RoundFunction, left: nat, right: nat, a: nat, b: nat)
    requires 0 < a && 0 < b
    ensures var h1 := Shift(left, prf(right, 0), a);
            var h2 := Shift(right, prf(h1, 1), b);
            var h3 := Shift(h1, prf(h2, 2), a);
            Rounds(prf, Halves(left, right), 0, a, b) == Halves(h3, Shift(h2, prf(h3, 3), b))
  {
    hide Rounds, Round, Shift;
    var h1 := Shift(left, prf(right, 0), a);
    var h2 := Shift(right, prf(h1, 1), b);
    var h3 := Shift(h1, prf(h2, 2), a);
    RoundStep(prf, left, right, 0, a, b);
    RoundStep(prf, right, h1, 1, a, b);
    RoundStep(prf, h1, h2, 2, a, b);
    RoundStep(prf, h2, h3, 3, a, b);
    NoRounds(prf, Halves(h3, Shift(h2, prf(h3, 3), b)), a, b);
  }

  lemma RoundStep(prf: RoundFunction, left: nat, right: nat, r: nat, a: nat, b: nat)
    requires 0 < a && 0 < b && r < 4
    ensures var c := if r % 2 == 0 then a else b;
            Rounds(prf, Halves(left, right), r, a, b)
            == Rounds(prf, Halves(right, Shift(left, prf(right, r), c)), r + 1, a, b)
  {
  }

  lemma NoRounds(prf: RoundFunction, h: Halves, a: nat, b: nat)
    requires 0 < a && 0 < b
    ensures Rounds(prf, h, 4, a, b) == h
  {
  }

  lemma HalvesUndone(prf: RoundFunction, left: nat, right: nat, a: nat, b: nat)
    requires 0 < a && 0 < b && left < a && right < b
    ensures var h := Rounds(prf, Halves(left, right), 0, a, b);
            h.left < a && h.right < b && TakenBack(prf, h.left, h.right, a, b) == Halves(left, right)
  {
    hide Rounds, Shift, Unshift;
    Unrolled(prf, left, right, a, b);
    var h1 := Shift(left, prf(right, 0), a);
    var h2 := Shift(right, prf(h1, 1), b);
    var h3 := Shift(h1, prf(h2, 2), a);
    ShiftUndone(left, prf(right, 0), a);
    ShiftUndone(right, prf(h1, 1), b);
    ShiftUndone(h1, prf(h2, 2), a);
    ShiftUndone(h2, prf(h3, 3), b);
  }

  lemma HalvesRestored(prf: RoundFunction, h3: nat, h4: nat, a: nat, b: nat)
    requires 0 < a && 0 < b && h3 < a && h4 < b
    ensures var h := TakenBack(prf, h3, h4, a, b);
            h.left < a && h.right < b && Rounds(prf, h, 0, a, b) == Halves(h3, h4)
  {
    hide Rounds, Shift, Unshift;
    var h2 := Unshift(h4, prf(h3, 3), b);
    var h1 := Unshift(h3, prf(h2, 2), a);
    var right := Unshift(h2, prf(h1, 1), b);
    ShiftUndone(h4, prf(h3, 3), b);
    ShiftUndone(h3, prf(h2, 2), a);
    ShiftUndone(h2, prf(h1, 1), b);
    ShiftUndone(h1, prf(right, 0), a);
    Unrolled(prf, Unshift(h1, prf(right, 0), a), right, a, b);
  }

  /** The inverse network and the four rounds undo each other on the whole domain, for every round function. */
  lemma InverseUndoes(prf: RoundFunction, x: nat, a: nat, b: nat)
    requires 0 < a && 0 < b && x < a * b
    ensures Feistel(prf, x, a, b) < a * b && Inverse(prf, Feistel(prf, x, a, b), a, b) == x
    ensures Inverse(prf, x, a, b) < a * b && Feistel(prf, Inverse(prf, x, a, b), a, b) == x
  {
    hide Rounds, TakenBack;
    SplitPoint(x, a, b);
    HalvesUndone(prf, x / b, x % b, a, b);
    HalvesRestored(prf, x / b, x % b, a, b);
    JoinPoint(Rounds(prf, Split(x, b), 0, a, b), a, b);
    JoinPoint(TakenBack(prf, x / b, x % b, a, b), a, b);
  }

  // ----- cycle walking -----

  function Iterate(f: nat -> nat, x: nat, i: nat): nat {
    if i == 0 then x else f(Iterate(f, x, i - 1))
  }

  lemma {:induction false} IterateStays(f: nat -> nat, top: nat, x: nat, i: nat)
    requires OneToOne(f, top) && x < top
    ensures Iterate(f, x, i) < top
  {
    if i > 0 {
      IterateStays(f, top, x, i - 1);
    }
  }

  lemma Cancels(f: nat -> nat, top: nat, x: nat, y: nat)
    requires OneToOne(f, top) && x < top && y < top && f(x) == f(y)
    ensures x == y
  {
  }

  /** Equal iterates come from equal earlier ones. */
  lemma {:induction false} StepBack(f: nat -> nat, top: nat, x: nat, y: nat, i: nat, j: nat)
    requires OneToOne(f, top) && x < top && y < top && i <= j && Iterate(f, x, i) == Iterate(f, y, j)
    ensures x == Iterate(f, y, j - i)
  {
    hide OneToOne;
    if i > 0 {
      IterateStays(f, top, x, i - 1);
      IterateStays(f, top, y, j - 1);
      Cancels(f, top, Iterate(f, x, i - 1), Iterate(f, y, j - 1));
      StepBack(f, top, x, y, i - 1, j - 1);
    }
  }

  /** The iterates strictly between the start and the given step are at or above n. */
  ghost predicate StaysAbove(f: nat -> nat, n: nat, x: nat, steps: nat) {
    forall i :: 0 < i < steps ==> n <= Iterate(f, x, i)
  }

  /** z is where the walk from x first comes back below n. */
  ghost predicate WalksTo(f: nat -> nat, n: nat, x: nat, z: nat, steps: nat) {
    0 < steps && Iterate(f, x, steps) == z < n && StaysAbove(f, n, x, steps)
  }

  /** Two points below n that walk to the same place are the same point. */
  lemma WalkInjective(f: nat -> nat, top: nat, n: nat, x: nat, y: nat, z: nat, i: nat, j: nat)
    requires OneToOne(f, top) && x < n <= top && y < n && WalksTo(f, n, x, z, i) && WalksTo(f, n, y, z, j)
    ensures x == y
  {
    if i <= j {
      StepBack(f, top, x, y, i, j);
    } else {
      StepBack(f, top, y, x, j, i);
    }
  }

  /** The walk as a path: each point is the inverse of the next, and only the two ends may lie below n. */
  ghost predicate IsPath(prf: RoundFunction, a: nat, b: nat, n: nat, path: seq<nat>)
    requires 0 < a && 0 < b
  {
    && 2 <= |path| && path[|path| - 1] < n
    && (forall t :: 0 < t < |path| ==> path[t] < a * b && Inverse(prf, path[t], a, b) == path[t - 1])
    && forall t :: 0 < t < |path| - 1 ==> n <= path[t]
  }

  /** A path from x ends at z. */
  ghost predicate Leads(prf: RoundFunction, a: nat, b: nat, n: nat, x: nat, z: nat)
    requires 0 < a && 0 < b
  {
    exists path :: IsPath(prf, a, b, n, path) && path[0] == x && path[|path| - 1] == z
  }

  /** The path from x ends below m. */
  ghost predicate LeadsBelow(prf: RoundFunction, a: nat, b: nat, n: nat, m: nat, x: nat)
    requires 0 < a && 0 < b
  {
    exists z: nat :: z < m && Leads(prf, a, b, n, x, z)
  }

  /** The points of a path are the iterates of its start. */
  lemma {:induction false} PathIterates(prf: RoundFunction, a: nat, b: nat, n: nat, path: seq<nat>, t: nat)
    requires 0 < a && 0 < b && IsPath(prf, a, b, n, path) && t < |path|
    ensures Iterate(FeistelMap(prf, a, b), path[0], t) == path[t]
  {
    hide Feistel, Inverse;
    if t > 0 {
      PathIterates(prf, a, b, n, path, t - 1);
      InverseUndoes(prf, path[t], a, b);
    }
  }

  /** The points met so far, all at or above n, each with a predecessor other than the current point. */
  ghost predicate Walked(f: nat -> nat, top: nat, n: nat, x: nat, met: set<nat>, c: nat) {
    && (forall v :: v in met ==> n <= v < top)
    && (c in met || c == x)
    && forall v :: v in met ==> HasSource(f, x, met, c, v)
  }

  ghost predicate HasSource(f: nat -> nat, x: nat, met: set<nat>, c: nat, v: nat) {
    exists u :: IsSource(f, x, met, c, v, u)
  }

  ghost predicate IsSource(f: nat -> nat, x: nat, met: set<nat>, c: nat, v: nat, u: nat) {
    u != c && (u in met || u == x) && f(u) == v
  }

  /** The walk never meets a point twice, so it runs out of points at or above n. */
  lemma WalkOn(f: nat -> nat, top: nat, n: nat, x: nat, met: set<nat>, c: nat)
    requires OneToOne(f, top) && x < n <= top && Walked(f, top, n, x, met, c) && n <= f(c)
    ensures f(c) !in met && f(c) < top
    ensures Walked(f, top, n, x, met + {f(c)}, f(c))
  {
    hide OneToOne, HasSource;
    Unmet(f, top, n, x, met, c);
    forall v | v in met + {f(c)} ensures HasSource(f, x, met + {f(c)}, f(c), v) {
      NewSource(f, top, n, x, met, c, v);
    }
  }

  /**
   * A source of an earlier point is not the new one, which is not met; and the current point is the new one's source.
   */
  lemma NewSource(f: nat -> nat, top: nat, n: nat, x: nat, met: set<nat>, c: nat, v: nat)
    requires OneToOne(f, top) && x < n <= top && Walked(f, top, n, x, met, c) && n <= f(c) && v in met + {f(c)}
    ensures f(c) !in met && f(c) < top && HasSource(f, x, met + {f(c)}, f(c), v)
  {
    var c' := f(c);
    Unmet(f, top, n, x, met, c);
    if v in met {
      assert HasSource(f, x, met, c, v);
      var u :| IsSource(f, x, met, c, v, u);
      assert IsSource(f, x, met + {c'}, c', v, u);
    } else {
      assert IsSource(f, x, met + {c'}, c', v, c);
    }
  }

  lemma Unmet(f: nat -> nat, top: nat, n: nat, x: nat, met: set<nat>, c: nat)
    requires OneToOne(f, top) && x < n <= top && Walked(f, top, n, x, met, c) && n <= f(c)
    ensures c < top && f(c) !in met && f(c) < top
  {
    if f(c) in met {
      assert false;
    }
  }

  ghost function Between(lo: nat, hi: nat): (s: set<nat>)
    requires lo <= hi
    ensures |s| == hi - lo && forall v :: v in s <==> lo <= v < hi
    decreases hi - lo
  {
    if lo == hi then {} else Between(lo, hi - 1) + {hi - 1}
  }

  /** Where the walk goes from its current point, given what it has met. */
  ghost function Land(f: nat -> nat, top: nat, n: nat, x: nat, met: set<nat>, c: nat): nat
    requires OneToOne(f, top) && x < n <= top && Walked(f, top, n, x, met, c)
    decreases |Between(n, top) - met|
  {
    if f(c) < n then f(c)
    else
      WalkOn(f, top, n, x, met, c);
      Shrinks(Between(n, top), met, f(c));
      Land(f, top, n, x, met + {f(c)}, f(c))
  }

  lemma {:induction false} LandWalks(f: nat -> nat, top: nat, n: nat, x: nat, met: set<nat>, c: nat, done: nat)
      returns (steps: nat)
    requires OneToOne(f, top) && x < n <= top && Walked(f, top, n, x, met, c)
    requires c == Iterate(f, x, done) && StaysAbove(f, n, x, done + 1)
    ensures WalksTo(f, n, x, Land(f, top, n, x, met, c), steps)
    decreases |Between(n, top) - met|
  {
    hide Iterate, StaysAbove, Walked, OneToOne;
    OneStep(f, n, x, done + 1);
    if f(c) < n {
      steps := done + 1;
    } else {
      WalkOn(f, top, n, x, met, c);
      Shrinks(Between(n, top), met, f(c));
      steps := LandWalks(f, top, n, x, met + {f(c)}, f(c), done + 1);
    }
  }

  /** The point below n that cycle walking from x returns. */
  ghost function Landing(f: nat -> nat, top: nat, n: nat, x: nat): nat
    requires OneToOne(f, top) && x < n <= top
  {
    WalkStarts(f, top, n, x);
    Land(f, top, n, x, {}, x)
  }

  /** Cycle walking permutes [0, n). */
  lemma LandingInjective(f: nat -> nat, top: nat, n: nat, x: nat, y: nat)
    requires OneToOne(f, top) && x < n <= top && y < n
    ensures Landing(f, top, n, x) < n
    ensures Landing(f, top, n, x) == Landing(f, top, n, y) ==> x == y
  {
    hide OneToOne, Landing;
    var i := LandingWalks(f, top, n, x);
    var j := LandingWalks(f, top, n, y);
    if Landing(f, top, n, x) == Landing(f, top, n, y) {
      WalkInjective(f, top, n, x, y, Landing(f, top, n, x), i, j);
    }
  }

  /** A walk comes back below n at one place only. */
  lemma WalkUnique(f: nat -> nat, n: nat, x: nat, y: nat, z: nat, i: nat, j: nat)
    requires WalksTo(f, n, x, y, i) && WalksTo(f, n, x, z, j)
    ensures y == z
  {
  }

  lemma LandingWalks(f: nat -> nat, top: nat, n: nat, x: nat) returns (steps: nat)
    requires OneToOne(f, top) && x < n <= top
    ensures WalksTo(f, n, x, Landing(f, top, n, x), steps)
  {
    hide OneToOne, Walked, Land;
    WalkStarts(f, top, n, x);
    steps := LandWalks(f, top, n, x, {}, x, 0);
  }

  lemma PathWalks(prf: RoundFunction, a: nat, b: nat, n: nat, path: seq<nat>)
    requires 0 < a && 0 < b && IsPath(prf, a, b, n, path)
    ensures WalksTo(FeistelMap(prf, a, b), n, path[0], path[|path| - 1], |path| - 1)
  {
    hide Feistel, Inverse, Iterate;
    forall t | 0 <= t < |path| ensures Iterate(FeistelMap(prf, a, b), path[0], t) == path[t] {
      PathIterates(prf, a, b, n, path, t);
    }
  }

  lemma WalkIsPath(prf: RoundFunction, a: nat, b: nat, n: nat, x: nat, z: nat, steps: nat)
    requires 0 < a && 0 < b && x < n <= a * b && WalksTo(FeistelMap(prf, a, b), n, x, z, steps)
    ensures Leads(prf, a, b, n, x, z)
  {
    hide Feistel, Inverse, OneToOne;
    var f := FeistelMap(prf, a, b);
    FeistelOneToOne(prf, a, b);
    var path := seq(steps + 1, t requires 0 <= t => Iterate(f, x, t));
    forall t | 0 < t < |path| ensures path[t] < a * b && Inverse(prf, path[t], a, b) == path[t - 1] {
      IterateStays(f, a * b, x, t - 1);
      InverseUndoes(prf, path[t - 1], a, b);
    }
    assert IsPath(prf, a, b, n, path) && path[0] == x && path[steps] == z;
  }

  /** The landing point is the end of the one path of inverse steps from x. */
  lemma LandingIsLead(prf: RoundFunction, a: nat, b: nat, n: nat, x: nat, z: nat)
    requires 0 < a && 0 < b && x < n <= a * b
    ensures OneToOne(FeistelMap(prf, a, b), a * b)
    ensures Leads(prf, a, b, n, x, z) <==> z == Landing(FeistelMap(prf, a, b), a * b, n, x)
  {
    hide FeistelMap, OneToOne, Landing, WalksTo;
    FeistelOneToOne(prf, a, b);
    var f := FeistelMap(prf, a, b);
    var steps := LandingWalks(f, a * b, n, x);
    WalkIsPath(prf, a, b, n, x, Landing(f, a * b, n, x), steps);
    if Leads(prf, a, b, n, x, z) {
      var path :| IsPath(prf, a, b, n, path) && path[0] == x && path[|path| - 1] == z;
      PathWalks(prf, a, b, n, path);
      WalkUnique(f, n, x, Landing(f, a * b, n, x), z, steps, |path| - 1);
    }
  }

  /** The walking loop stops, at the landing point. */
  method CycleWalk(f: nat -> nat, ghost top: nat, n: nat, x: nat) returns (z: nat)
    requires OneToOne(f, top) && x < n <= top
    ensures z == Landing(f, top, n, x)
  {
    hide OneToOne, Walked;
    ghost var met: set<nat> := {};
    ghost var space := Between(n, top);
    z := x;
    WalkStarts(f, top, n, x);
    while true
      invariant Walked(f, top, n, x, met, z) && Land(f, top, n, x, met, z) == Landing(f, top, n, x)
      decreases |space - met|
    {
      var next := f(z);
      if next < n {
        return next;
      }
      WalkOn(f, top, n, x, met, z);
      Shrinks(space, met, next);
      met := met + {next};
      z := next;
    }
  }

  lemma Shrinks(space: set<nat>, met: set<nat>, next: nat)
    requires next in space && next !in met
    ensures |space - (met + {next})| < |space - met|
  {
    assert space - (met + {next}) == space - met - {next};
  }

  lemma OneStep(f: nat -> nat, n: nat, x: nat, steps: nat)
    requires 0 < steps && StaysAbove(f, n, x, steps)
    ensures Iterate(f, x, steps) == f(Iterate(f, x, steps - 1))
    ensures n <= Iterate(f, x, steps) ==> StaysAbove(f, n, x, steps + 1)
  {
  }

  lemma WalkStarts(f: nat -> nat, top: nat, n: nat, x: nat)
    ensures Walked(f, top, n, x, {}, x) && Iterate(f, x, 0) == x && StaysAbove(f, n, x, 1)
  {
  }
}
