/** The in-place block exchange of contrib/getopt-shim.c: `gcd` and `permute_args`. */
module Permute {
  import opened Arith

  // ----- greatest common divisor ---------------------------------------------

  function Gcd(a: nat, b: nat): (g: nat)
    requires b > 0
    ensures 0 < g <= b
    decreases b
  {
    if a % b == 0 then b else Gcd(b, a % b)
  }

  ghost predicate Divides(d: nat, a: int)
    requires d > 0
  {
    exists q: int :: Times(q, d) == a
  }

  function Times(x: int, y: int): int { x * y }

  lemma DividesIntro(q: int, d: nat, a: int)
    requires d > 0 && q * d == a
    ensures Divides(d, a)
  {
    assert Times(q, d) == a;
  }

  /** One step of the extended Euclidean algorithm, as plain arithmetic. */
  lemma EuclidStep(a: int, b: int, k: int, r: int, u: int, v: int, qb: int, qr: int, g: int)
    requires a == k * b + r && qb * g == b && qr * g == r && u * b + v * r == g
    ensures (k * qb + qr) * g == a
    ensures v * a + (u - v * k) * b == g
  {
    assert (k * qb + qr) * g == k * (qb * g) + qr * g;
    assert v * a == v * (k * b) + v * r;
    assert (u - v * k) * b == u * b - v * (k * b);
  }

  /** `Gcd` divides both arguments and is an integer combination of them. */
  lemma {:induction false} GcdIsCombination(a: nat, b: nat) returns (u: int, v: int)
    requires b > 0
    ensures Divides(Gcd(a, b), a) && Divides(Gcd(a, b), b)
    ensures u * a + v * b == Gcd(a, b)
    decreases b
  {
    DivMod(a, b);
    if a % b == 0 {
      DividesIntro(a / b, b, a);
      DividesIntro(1, b, b);
      u, v := 0, 1;
    } else {
      var r, g, k := a % b, Gcd(a, b), a / b;
      var u', v' := GcdIsCombination(b, r);
      var qb, qr := Quotient(g, b), Quotient(g, r);
      EuclidStep(a, b, k, r, u', v', qb, qr, g);
      DividesIntro(k * qb + qr, g, a);
      u, v := v', u' - v' * k;
    }
  }

  ghost function Quotient(d: nat, a: int): (q: int)
    requires d > 0 && Divides(d, a)
    ensures q * d == a
  {
    var q :| Times(q, d) == a;
    q
  }

  /** Being a combination makes it the greatest of the common divisors. */
  lemma GcdIsGreatest(a: nat, b: nat, d: nat)
    requires b > 0 && d > 0 && Divides(d, a) && Divides(d, b)
    ensures Divides(d, Gcd(a, b)) && d <= Gcd(a, b)
  {
    var u, v := GcdIsCombination(a, b);
    CombinationMultiple(u, v, Quotient(d, a), Quotient(d, b), d);
    var w := u * Quotient(d, a) + v * Quotient(d, b);
    DividesIntro(w, d, Gcd(a, b));
    Sign(w, d);
  }

  lemma CombinationMultiple(u: int, v: int, p: int, q: int, d: int)
    ensures (u * p + v * q) * d == u * (p * d) + v * (q * d)
  {
  }

  /** The loop of `gcd`, refining the recursive definition. */
  method ComputeGcd(a0: nat, b0: nat) returns (b: nat)
    requires b0 > 0
    ensures b == Gcd(a0, b0)
  {
    var a, c := a0, a0 % b0;
    b := b0;
    while c != 0
      invariant a >= 0 && b > 0 && c == a % b && Gcd(a, b) == Gcd(a0, b0)
      decreases c
    {
      a := b;
      b := c;
      c := a % b;
    }
  }

  // ----- the rotation and its cycles -----------------------------------------

  /** Where the element at offset `p` goes when a first block of `n` and a second
      block of `m` change places. */
  function Target(p: nat, n: nat, m: nat): (t: nat)
    requires p < n + m
    ensures t < n + m
  {
    if p >= n then p - n else p + m
  }

  /** The position reached from offset `c` after `j` steps of the inner loop. */
  function Orbit(c: nat, j: nat, n: nat, m: nat): (p: nat)
    requires c < n + m
    ensures p < n + m
  {
    if j == 0 then c else Target(Orbit(c, j - 1, n, m), n, m)
  }

  /** Congruence modulo `d`, carried by its quotient. */
  ghost predicate Congruent(a: int, b: int, d: nat)
    requires d > 0
  {
    Divides(d, a - b)
  }

  /** `j` steps add `j * m`, less some number of whole turns. */
  lemma {:induction false} OrbitAdds(c: nat, j: nat, n: nat, m: nat) returns (q: int)
    requires c < n + m
    ensures Orbit(c, j, n, m) == c + j * m - q * (n + m)
  {
    if j == 0 {
      q := 0;
    } else {
      q := OrbitAdds(c, j - 1, n, m);
      assert j * m == (j - 1) * m + m;
      if Orbit(c, j - 1, n, m) >= n {
        assert (q + 1) * (n + m) == q * (n + m) + (n + m);
        q := q + 1;
      }
    }
  }

  /** The arithmetic of one call: both blocks are non-empty, `g` is their gcd and
      `len` the cycle length, so `n == x*g`, `m == y*g`, `len == x+y`. */
  datatype Cycles = Cycles(n: nat, m: nat, g: nat, len: nat, x: nat, y: nat, u: int, v: int) {
    ghost predicate Valid() {
      && 0 < n && 0 < m && 0 < g && 0 < len
      && n == x * g && m == y * g && n + m == len * g && len == x + y
      && u * n + v * m == g
    }
  }

  lemma MakeCycles(n: nat, m: nat) returns (k: Cycles)
    requires n > 0 && m > 0
    ensures k.Valid() && k.n == n && k.m == m && k.g == Gcd(n, m) && k.len == (n + m) / Gcd(n, m)
    ensures k.g <= m
  {
    var g := Gcd(n, m);
    var u, v := GcdIsCombination(n, m);
    var x := Quotient(g, n);
    var y := Quotient(g, m);
    Sign(x, g);
    Sign(y, g);
    assert (x + y) * g == n + m;
    DivideExact(x + y, g);
    k := Cycles(n, m, g, x + y, x, y, u, v);
  }

  lemma DivideExact(q: nat, g: nat)
    requires g > 0
    ensures (q * g) / g == q && (q * g) % g == 0
  {
    assert (q * g) / g == q by {
      var d := (q * g) / g;
      DivMod(q * g, g);
      Sign(q - d, g);
    }
  }

  lemma CombineMultiples(q: int, len: int, j: int, y: int, g: int)
    ensures (j * y - q * len) * g == j * (y * g) - q * (len * g)
  {
  }

  /** Orbits stay in the residue class, modulo the gcd, of their start. */
  lemma OrbitResidue(k: Cycles, c: nat, j: nat)
    requires k.Valid() && c < k.n + k.m
    ensures Congruent(Orbit(c, j, k.n, k.m), c, k.g)
  {
    var q := OrbitAdds(c, j, k.n, k.m);
    CombineMultiples(q, k.len, j, k.y, k.g);
    DividesIntro(j * k.y - q * k.len, k.g, Orbit(c, j, k.n, k.m) - c);
  }

  /** If `d * m == q * N` then `d` is a multiple of the cycle length, because the
      gcd `g` is `u*n + v*m` and so `d * g` is a multiple of `N == len * g`. */
  lemma StepsDivide(n: int, m: int, g: nat, len: nat, u: int, v: int, d: int, q: int)
    requires g > 0 && n + m == len * g && u * n + v * m == g && d * m == q * (n + m)
    ensures d == (d * u + (v - u) * q) * len
  {
    var w, N := d * u + (v - u) * q, n + m;
    Combined(u, v, n, m);
    TimesSum(d, u, N, v - u, m);
    assert d * g == (d * u) * N + (v - u) * (q * N);
    Collect(d * u, v - u, q, N);
    Regroup(w, len, g);
    assert d * g == (w * len) * g;
    Minus(d, w * len, g);
    SmallMultiple(d - w * len, g);
  }

  lemma Combined(u: int, v: int, n: int, m: int)
    ensures u * n + v * m == u * (n + m) + (v - u) * m
  {
  }

  lemma TimesSum(d: int, u: int, N: int, x: int, m: int)
    ensures d * (u * N + x * m) == (d * u) * N + x * (d * m)
  {
  }

  lemma Collect(a: int, x: int, q: int, N: int)
    ensures a * N + x * (q * N) == (a + x * q) * N
  {
    Regroup(x, q, N);
    Spread(a, x * q, N);
  }

  lemma Minus(a: int, b: int, g: int)
    ensures (a - b) * g == a * g - b * g
  {
  }

  lemma SubtractTurns(i: int, j: int, m: int, qi: int, qj: int, N: int)
    requires i * m - qi * N == j * m - qj * N
    ensures (j - i) * m == (qj - qi) * N
  {
  }

  /** A cycle visits `len` different positions before it repeats. */
  lemma OrbitInjective(k: Cycles, c: nat, i: nat, j: nat)
    requires k.Valid() && c < k.n + k.m && i < j < k.len
    ensures Orbit(c, i, k.n, k.m) != Orbit(c, j, k.n, k.m)
  {
    hide Orbit;
    var qi := OrbitAdds(c, i, k.n, k.m);
    var qj := OrbitAdds(c, j, k.n, k.m);
    if Orbit(c, i, k.n, k.m) == Orbit(c, j, k.n, k.m) {
      SubtractTurns(i, j, k.m, qi, qj, k.n + k.m);
      StepsDivide(k.n, k.m, k.g, k.len, k.u, k.v, j - i, qj - qi);
      NoSmallMultiple(j - i, (j - i) * k.u + (k.v - k.u) * (qj - qi), k.len);
    }
  }

  lemma NoSmallMultiple(x: int, d: int, len: nat)
    requires 0 <= x < len && x == d * len
    ensures x == 0
  {
    SmallMultiple(d, len);
  }

  lemma CommuteFactors(len: int, y: int, g: int, q: int)
    ensures (y - q) * (len * g) == len * (y * g) - q * (len * g)
  {
  }

  /** ... and closes after exactly `len` steps. */
  lemma OrbitCloses(k: Cycles, c: nat)
    requires k.Valid() && c < k.n + k.m
    ensures Orbit(c, k.len, k.n, k.m) == c
  {
    hide Orbit;
    var q := OrbitAdds(c, k.len, k.n, k.m);
    CommuteFactors(k.len, k.y, k.g, q);
    SmallMultiple(k.y - q, k.n + k.m);
  }

  /** The cycle through `c` covers the whole residue class of `c`: to travel `t * g`
      take `t * (v - u)` steps, modulo the cycle length. */
  lemma OrbitCovers(k: Cycles, c: nat, p: nat) returns (j: nat)
    requires k.Valid() && c < k.n + k.m && p < k.n + k.m && Congruent(p, c, k.g)
    ensures j < k.len && Orbit(c, j, k.n, k.m) == p
  {
    var t := Quotient(k.g, p - c);
    var e := t * (k.v - k.u);
    j := e % k.len;
    DivMod(e, k.len);
    var q := OrbitAdds(c, j, k.n, k.m);
    var w := CoverArithmetic(k, t, e, e / k.len, j, q, c, p, Orbit(c, j, k.n, k.m));
    SmallMultiple(w, k.n + k.m);
  }

  lemma CoverArithmetic(k: Cycles, t: int, e: int, f: int, j: int, q: int, c: int, p: int, r: int) returns (w: int)
    requires k.Valid()
    requires t * k.g == p - c && e == t * (k.v - k.u) && e == f * k.len + j
    requires r == c + j * k.m - q * (k.n + k.m)
    ensures w * (k.n + k.m) == r - p
  {
    w := -q - f * k.y - t * k.u;
    var N := k.n + k.m;
    assert t * k.g == (t * k.u) * N + e * k.m by { TravelByCombination(k.n, k.m, k.g, k.u, k.v, t); }
    assert e * k.m == (f * k.y) * N + j * k.m by { WholeTurns(f, k.len, j, k.y, k.g); }
    CollectTurns(q, f * k.y, t * k.u, N);
  }

  lemma TravelByCombination(n: int, m: int, g: int, u: int, v: int, t: int)
    requires u * n + v * m == g
    ensures t * g == (t * u) * (n + m) + (t * (v - u)) * m
  {
  }

  lemma WholeTurns(f: int, len: int, j: int, y: int, g: int)
    ensures (f * len + j) * (y * g) == (f * y) * (len * g) + j * (y * g)
  {
  }

  lemma CollectTurns(a: int, b: int, c: int, N: int)
    ensures (-a - b - c) * N == -(a * N) - b * N - c * N
  {
  }

  /** The cycle started from offset `n + c` is the residue class of `c`. */
  lemma ResidueOfStart(k: Cycles, c: nat, p: nat)
    requires k.Valid() && c < k.g
    ensures Congruent(p, k.n + c, k.g) <==> p % k.g == c
  {
    DivMod(p, k.g);
    if Congruent(p, k.n + c, k.g) {
      var q := Quotient(k.g, p - (k.n + c));
      assert (q + k.x) * k.g == q * k.g + k.n;
      ModUnique(p, q + k.x, c, k.g);
    }
    if p % k.g == c {
      assert (p / k.g - k.x) * k.g == (p / k.g) * k.g - k.n;
      DividesIntro(p / k.g - k.x, k.g, p - (k.n + c));
    }
  }

  /** No step leaves its residue class. */
  lemma TargetResidue(k: Cycles, p: nat)
    requires k.Valid() && p < k.n + k.m
    ensures Target(p, k.n, k.m) % k.g == p % k.g
  {
    DivMod(p, k.g);
    var q := if p >= k.n then p / k.g - k.x else p / k.g + k.y;
    Minus(p / k.g, k.x, k.g);
    Spread(p / k.g, k.y, k.g);
    ModUnique(Target(p, k.n, k.m), q, p % k.g, k.g);
  }

  /** A closed walk over offsets below `size` that meets itself only at its end. */
  ghost predicate SimpleLoop(o: seq<nat>, size: nat)
  {
    && |o| >= 2 && o[|o| - 1] == o[0]
    && (forall j :: 0 <= j < |o| ==> o[j] < size)
    && (forall i, j :: 0 <= i < j < |o| - 1 ==> o[i] != o[j])
  }

  ghost function OrbitSeq(k: Cycles, c: nat): (o: seq<nat>)
    requires c < k.n + k.m
    ensures |o| == k.len + 1 && o[0] == c
    ensures forall j :: 0 <= j <= k.len ==> o[j] == Orbit(c, j, k.n, k.m)
  {
    seq(k.len + 1, j requires 0 <= j <= k.len => Orbit(c, j, k.n, k.m))
  }

  /** A simple loop whose every step is the move of one element. */
  ghost predicate TargetLoop(o: seq<nat>, n: nat, m: nat)
  {
    && SimpleLoop(o, n + m)
    && (forall j {:trigger Target(o[j], n, m)} :: 0 <= j < |o| - 1 ==> o[j + 1] == Target(o[j], n, m))
  }

  /** The orbit closes after `len` steps and does not meet itself before. */
  lemma OrbitIsTargetLoop(k: Cycles, c: nat)
    requires k.Valid() && c < k.n + k.m
    ensures TargetLoop(OrbitSeq(k, c), k.n, k.m)
  {
    var o := OrbitSeq(k, c);
    OrbitCloses(k, c);
    forall i, j | 0 <= i < j < k.len ensures o[i] != o[j] {
      OrbitInjective(k, c, i, j);
    }
    forall j | 0 <= j < k.len ensures o[j + 1] == Target(o[j], k.n, k.m) {
      assert Orbit(c, j + 1, k.n, k.m) == Target(Orbit(c, j, k.n, k.m), k.n, k.m);
    }
  }

  // ----- the exchange ---------------------------------------------------------

  /** The blocks `s[lo..mid]` and `s[mid..hi]` exchanged, each in its own order. */
  function Exchanged<T>(s: seq<T>, lo: nat, mid: nat, hi: nat): (r: seq<T>)
    requires lo <= mid <= hi <= |s|
    ensures |r| == |s|
  {
    s[..lo] + s[mid..hi] + s[lo..mid] + s[hi..]
  }

  /** After `j` swaps the first `j` targets hold the element one step back, the
      loop's start holds the element to be moved next, nothing else has changed. */
  ghost predicate Progress<T>(now: seq<T>, was: seq<T>, lo: nat, o: seq<nat>, size: nat, j: nat)
    requires SimpleLoop(o, size) && lo + size <= |was| && j < |o|
  {
    var len := |o| - 1;
    && |now| == |was|
    && (forall i, h :: 0 <= h < j && i == h + 1 && i < len ==> now[lo + o[i]] == was[lo + o[h]])
    && (forall i :: j < i < len ==> now[lo + o[i]] == was[lo + o[i]])
    && now[lo + o[0]] == was[lo + o[if j < len then j else j - 1]]
    && (forall p :: 0 <= p < |was| && (p < lo || p - lo !in o) ==> now[p] == was[p])
  }

  function Swapped<T>(s: seq<T>, i: nat, j: nat): (r: seq<T>)
    requires i < |s| && j < |s|
    ensures |r| == |s|
    ensures r[j] == s[i] && r[i] == s[j]
    ensures forall p :: 0 <= p < |s| && p != i && p != j ==> r[p] == s[p]
  {
    s[i := s[j]][j := s[i]]
  }

  lemma ProgressStart<T>(was: seq<T>, lo: nat, o: seq<nat>, size: nat)
    requires SimpleLoop(o, size) && lo + size <= |was|
    ensures Progress(was, was, lo, o, size, 0)
  {
  }

  lemma ProgressStep<T>(now: seq<T>, was: seq<T>, lo: nat, o: seq<nat>, size: nat, j: nat)
    requires SimpleLoop(o, size) && lo + size <= |was| && j + 1 < |o|
    requires Progress(now, was, lo, o, size, j)
    ensures Progress(Swapped(now, lo + o[j + 1], lo + o[0]), was, lo, o, size, j + 1)
  {
  }

  /** Every element on the walk has reached its target, nothing else has moved. */
  ghost predicate CycleMoved<T>(now: seq<T>, was: seq<T>, lo: nat, n: nat, m: nat, o: seq<nat>)
    requires lo + n + m <= |was|
  {
    && |now| == |was|
    && (forall p {:trigger Target(p, n, m)} :: 0 <= p < n + m && p in o ==> now[lo + Target(p, n, m)] == was[lo + p])
    && (forall p {:trigger now[p]} :: 0 <= p < |was| && (p < lo || p - lo !in o) ==> now[p] == was[p])
  }

  lemma ProgressDone<T>(now: seq<T>, was: seq<T>, lo: nat, o: seq<nat>, n: nat, m: nat)
    requires TargetLoop(o, n, m) && lo + n + m <= |was|
    requires Progress(now, was, lo, o, n + m, |o| - 1)
    ensures CycleMoved(now, was, lo, n, m, o)
  {
    forall p | 0 <= p < n + m && p in o ensures now[lo + Target(p, n, m)] == was[lo + p] {
      var j :| 0 <= j < |o| && o[j] == p;
      var h := if j == |o| - 1 then 0 else j;
      assert Target(o[h], n, m) == o[h + 1];
    }
  }

  method SwapWithStart<T>(a: array<T>, pos: nat, cstart: nat, ghost was: seq<T>, ghost lo: nat, ghost o: seq<nat>,
                          ghost size: nat, ghost j: nat)
    requires SimpleLoop(o, size) && lo + size <= a.Length == |was| && j + 1 < |o|
    requires pos == lo + o[j + 1] && cstart == lo + o[0]
    requires Progress(a[..], was, lo, o, size, j)
    modifies a
    ensures Progress(a[..], was, lo, o, size, j + 1)
  {
    ghost var now := a[..];
    var swap := a[pos];
    a[pos] := a[cstart];
    a[cstart] := swap;
    assert a[..] == Swapped(now, pos, cstart);
    ProgressStep(now, was, lo, o, size, j);
  }

  /** The inner loop: one cycle, carried by repeated swaps with its start. */
  method MoveCycle<T>(a: array<T>, start: nat, mid: nat, hi: nat, cstart: nat, cyclelen: nat, ghost o: seq<nat>)
    requires start <= mid <= hi <= a.Length && start <= cstart
    requires |o| == cyclelen + 1 && TargetLoop(o, mid - start, hi - mid) && o[0] == cstart - start
    modifies a
    ensures CycleMoved(a[..], old(a[..]), start, mid - start, hi - mid, o)
  {
    hide Progress, CycleMoved;
    ghost var was := a[..];
    var pos := cstart;
    ProgressStart(was, start, o, hi - start);
    for j := 0 to cyclelen
      invariant pos == start + o[j]
      invariant Progress(a[..], was, start, o, hi - start, j)
    {
      if pos >= mid { pos := pos - (mid - start); } else { pos := pos + (hi - mid); }
      assert pos == start + Target(o[j], mid - start, hi - mid);
      SwapWithStart(a, pos, cstart, was, start, o, hi - start, j);
    }
    ProgressDone(a[..], was, start, o, mid - start, hi - mid);
  }

  /** The cycle of every offset, numbered from 0 below `count`; no step leaves its cycle. */
  ghost predicate Classes(cls: seq<nat>, n: nat, m: nat, count: nat)
  {
    && |cls| == n + m
    && (forall p :: 0 <= p < n + m ==> cls[p] < count)
    && (forall p {:trigger Target(p, n, m)} :: 0 <= p < n + m ==> cls[Target(p, n, m)] == cls[p])
  }

  ghost function Residues(k: Cycles): (cls: seq<nat>)
    requires k.g > 0
    ensures |cls| == k.n + k.m && forall p :: 0 <= p < |cls| ==> cls[p] == p % k.g
  {
    seq(k.n + k.m, p requires 0 <= p < k.n + k.m => p % k.g)
  }

  lemma ResiduesAreClasses(k: Cycles)
    requires k.Valid()
    ensures Classes(Residues(k), k.n, k.m, k.g)
  {
    var cls := Residues(k);
    forall p | 0 <= p < k.n + k.m ensures cls[Target(p, k.n, k.m)] == cls[p] {
      TargetResidue(k, p);
    }
  }

  /** The walk `o` is a cycle of targets and is exactly class `i`. */
  ghost predicate Traverses(o: seq<nat>, cls: seq<nat>, n: nat, m: nat, i: nat)
    requires |cls| == n + m
  {
    && TargetLoop(o, n, m)
    && (forall p :: 0 <= p < n + m ==> (p in o <==> cls[p] == i))
  }

  /** The orbit of `n + i` is exactly the residue class of `i`. */
  lemma OrbitIsClass(k: Cycles, i: nat)
    requires k.Valid() && i < k.g && k.n + i < k.n + k.m
    ensures forall p :: p in OrbitSeq(k, k.n + i) ==> p % k.g == i
    ensures forall p :: 0 <= p < k.n + k.m && Residues(k)[p] == i ==> p in OrbitSeq(k, k.n + i)
  {
    var o := OrbitSeq(k, k.n + i);
    forall j | 0 <= j < k.len + 1 ensures o[j] % k.g == i {
      OrbitResidue(k, k.n + i, j);
      ResidueOfStart(k, i, o[j]);
    }
    forall p | 0 <= p < k.n + k.m && Residues(k)[p] == i ensures p in o {
      ResidueOfStart(k, i, p);
      var j := OrbitCovers(k, k.n + i, p);
      assert o[j] == p;
    }
  }

  lemma OrbitTraverses(k: Cycles, i: nat)
    requires k.Valid() && i < k.g <= k.m
    ensures Traverses(OrbitSeq(k, k.n + i), Residues(k), k.n, k.m, i)
  {
    OrbitIsTargetLoop(k, k.n + i);
    OrbitIsClass(k, i);
  }

  /** The cycles of one call partition the offsets: `Gcd(n, m)` of them, each of
      length `(n + m) / Gcd(n, m)`, the i-th starting at offset `n + i`. */
  lemma CyclesPartition(n: nat, m: nat) returns (cls: seq<nat>, orbits: seq<seq<nat>>)
    requires n > 0 && m > 0
    ensures Classes(cls, n, m, Gcd(n, m)) && |orbits| == Gcd(n, m) <= m
    ensures forall i :: 0 <= i < |orbits| ==> |orbits[i]| == (n + m) / Gcd(n, m) + 1 && orbits[i][0] == n + i
    ensures forall i :: 0 <= i < |orbits| ==> Traverses(orbits[i], cls, n, m, i)
  {
    var k := MakeCycles(n, m);
    cls, orbits := Residues(k), Orbits(k);
    ResiduesAreClasses(k);
    OrbitsTraverse(k);
    assert (n + m) / Gcd(n, m) == k.len;
  }

  ghost function Orbits(k: Cycles): (orbits: seq<seq<nat>>)
    requires k.g <= k.m
    ensures |orbits| == k.g
    ensures forall i :: 0 <= i < k.g ==> orbits[i] == OrbitSeq(k, k.n + i)
    ensures forall i :: 0 <= i < k.g ==> |orbits[i]| == k.len + 1 && orbits[i][0] == k.n + i
  {
    seq(k.g, i requires 0 <= i < k.g => OrbitSeq(k, k.n + i))
  }

  lemma OrbitsTraverse(k: Cycles)
    requires k.Valid() && k.g <= k.m
    ensures forall i :: 0 <= i < k.g ==> Traverses(Orbits(k)[i], Residues(k), k.n, k.m, i)
  {
    forall i | 0 <= i < k.g ensures Traverses(Orbits(k)[i], Residues(k), k.n, k.m, i) {
      assert Orbits(k)[i] == OrbitSeq(k, k.n + i);
      OrbitTraverses(k, i);
    }
  }

  /** The classes below `i` have been moved, the others not yet. */
  ghost predicate ClassesMoved<T>(now: seq<T>, was: seq<T>, lo: nat, n: nat, m: nat, cls: seq<nat>, i: nat)
    requires |cls| == n + m && lo + n + m <= |was|
  {
    && |now| == |was|
    && (forall p :: 0 <= p < |was| && (p < lo || lo + n + m <= p) ==> now[p] == was[p])
    && (forall p {:trigger Target(p, n, m)} :: 0 <= p < n + m && cls[p] < i ==> now[lo + Target(p, n, m)] == was[lo + p])
    && (forall p {:trigger cls[p]} :: 0 <= p < n + m && cls[p] >= i ==> now[lo + p] == was[lo + p])
  }

  lemma ClassStep<T>(now: seq<T>, mid: seq<T>, was: seq<T>, lo: nat, n: nat, m: nat,
                     cls: seq<nat>, count: nat, o: seq<nat>, i: nat)
    requires Classes(cls, n, m, count) && lo + n + m <= |was| && Traverses(o, cls, n, m, i)
    requires ClassesMoved(mid, was, lo, n, m, cls, i)
    requires CycleMoved(now, mid, lo, n, m, o)
    ensures ClassesMoved(now, was, lo, n, m, cls, i + 1)
  {
    forall p | 0 <= p < n + m
      ensures cls[p] < i + 1 ==> now[lo + Target(p, n, m)] == was[lo + p]
      ensures cls[p] >= i + 1 ==> now[lo + p] == was[lo + p]
    {
      assert p in o <==> cls[p] == i;
      assert Target(p, n, m) in o <==> cls[p] == i;
    }
    assert forall p :: p in o ==> p < n + m;
  }

  /** Where an element of the two blocks goes. */
  lemma ExchangedAt<T>(was: seq<T>, lo: nat, n: nat, m: nat, p: nat)
    requires lo + n + m <= |was| && p < n + m
    ensures var t := Target(p, n, m);
            0 <= t < n + m && Exchanged(was, lo, lo + n, lo + n + m)[lo + t] == was[lo + p]
            && p == if t < m then t + n else t - m
  {
  }

  lemma OutsideExchange<T>(was: seq<T>, lo: nat, mid: nat, hi: nat)
    requires lo <= mid <= hi <= |was|
    ensures forall i :: 0 <= i < |was| && !(lo <= i < hi) ==> Exchanged(was, lo, mid, hi)[i] == was[i]
  {
  }

  /** All classes moved is the two blocks exchanged. */
  lemma AllClassesMoved<T>(now: seq<T>, was: seq<T>, lo: nat, n: nat, m: nat, cls: seq<nat>, count: nat)
    requires Classes(cls, n, m, count) && lo + n + m <= |was|
    requires ClassesMoved(now, was, lo, n, m, cls, count)
    ensures now == Exchanged(was, lo, lo + n, lo + n + m)
  {
    var want := Exchanged(was, lo, lo + n, lo + n + m);
    forall q | lo <= q < lo + n + m ensures now[q] == want[q] {
      var p := if q - lo < m then q - lo + n else q - lo - m;
      ExchangedAt(was, lo, n, m, p);
      assert cls[p] < count;
      assert now[lo + Target(p, n, m)] == was[lo + p];
    }
    OutsideExchange(was, lo, lo + n, lo + n + m);
  }

  lemma ClassesLength(cls: seq<nat>, n: nat, m: nat, count: nat)
    requires Classes(cls, n, m, count)
    ensures |cls| == n + m
  {
  }

  lemma NothingMoved<T>(was: seq<T>, lo: nat, n: nat, m: nat, cls: seq<nat>)
    requires |cls| == n + m && lo + n + m <= |was|
    ensures ClassesMoved(was, was, lo, n, m, cls, 0)
  {
  }

  /** The body of the outer loop: cycle `i`, started one past the previous one. */
  method MoveClass<T>(a: array<T>, start: nat, mid: nat, hi: nat, i: nat, cyclelen: nat,
                      ghost was: seq<T>, ghost cls: seq<nat>, ghost o: seq<nat>)
    requires start < mid < hi <= a.Length == |was|
    requires Classes(cls, mid - start, hi - mid, Gcd(mid - start, hi - mid))
    requires Traverses(o, cls, mid - start, hi - mid, i)
    requires |o| == cyclelen + 1 && o[0] == mid - start + i
    requires ClassesMoved(a[..], was, start, mid - start, hi - mid, cls, i)
    modifies a
    ensures ClassesMoved(a[..], was, start, mid - start, hi - mid, cls, i + 1)
  {
    ghost var before := a[..];
    MoveCycle(a, start, mid, hi, mid + i, cyclelen, o);
    ClassStep(a[..], before, was, start, mid - start, hi - mid, cls, Gcd(mid - start, hi - mid), o, i);
  }

  /** `permute_args`: for non-empty blocks, exactly the exchange of the two blocks. */
  method PermuteArgs<T>(panonopt_start: nat, panonopt_end: nat, opt_end: nat, nargv: array<T>)
    requires panonopt_start < panonopt_end < opt_end <= nargv.Length
    modifies nargv
    ensures nargv[..] == Exchanged(old(nargv[..]), panonopt_start, panonopt_end, opt_end)
  {
    hide ClassesMoved, Exchanged, Traverses, Gcd;
    ghost var was := nargv[..];
    var nnonopts := panonopt_end - panonopt_start;
    var nopts := opt_end - panonopt_end;
    var ncycle := ComputeGcd(nnonopts, nopts);
    var cyclelen := (opt_end - panonopt_start) / ncycle;
    ghost var cls, orbits := CyclesPartition(nnonopts, nopts);
    ClassesLength(cls, nnonopts, nopts, ncycle);
    hide Classes;
    NothingMoved(was, panonopt_start, nnonopts, nopts, cls);
    for i := 0 to ncycle
      invariant ClassesMoved(nargv[..], was, panonopt_start, nnonopts, nopts, cls, i)
    {
      MoveClass(nargv, panonopt_start, panonopt_end, opt_end, i, cyclelen, was, cls, orbits[i]);
    }
    AllClassesMoved(nargv[..], was, panonopt_start, nnonopts, nopts, cls, ncycle);
  }
}
