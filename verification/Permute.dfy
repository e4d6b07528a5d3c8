/** gcd and permute_args of getopt_long.c: two adjacent blocks of an array change places by
    following gcd-many cycles of swaps. */
module Rotation {
  import opened Arithmetic

  // ----- the greatest common divisor -----

  function Gcd(a: nat, b: nat): (g: nat)
    requires b > 0
    ensures 0 < g <= b
    decreases b
  {
    if a % b == 0 then b else Gcd(b, a % b)
  }

  /** It divides both arguments. */
  lemma {:induction false} GcdDivides(a: nat, b: nat) returns (j: nat, k: nat)
    requires b > 0
    ensures a == Gcd(a, b) * j && b == Gcd(a, b) * k
    decreases b
  {
    var (q, r, g) := (a / b, a % b, Gcd(a, b));
    assert a == b * q + r;
    if r == 0 {
      j, k := q, 1;
    } else {
      var x, y := GcdDivides(b, r);
      Distribute(g, x * q, y);
      Associate(g, x, q);
      j, k := x * q + y, x;
    }
  }

  /** The greatest common divisor is a combination of its arguments. */
  lemma {:induction false} Bezout(a: nat, b: nat) returns (s: int, t: int)
    requires b > 0
    ensures s * a + t * b == Gcd(a, b)
    decreases b
  {
    var (q, r) := (a / b, a % b);
    if r == 0 {
      s, t := 0, 1;
    } else {
      var x, y := Bezout(b, r);
      s, t := y, x - y * q;
      assert r == a - q * b;
      assert y * r == y * a - y * q * b;
      assert t * b == x * b - y * q * b;
    }
  }

  /** No common divisor is larger. */
  lemma GcdIsGreatest(a: nat, b: nat, d: nat, j: nat, k: nat)
    requires b > 0 && a == d * j && b == d * k
    ensures d <= Gcd(a, b)
  {
    var s, t := Bezout(a, b);
    Factor(d, s, j, t, k);
    AtLeastNext(d, 0, s * j + t * k);
  }

  /** The loop of gcd. */
  method ComputeGcd(a0: nat, b0: nat) returns (g: nat)
    requires b0 > 0
    ensures g == Gcd(a0, b0)
  {
    var a, b := a0, b0;
    var c := a % b;
    while c != 0
      invariant b > 0 && c == a % b && Gcd(a, b) == Gcd(a0, b0)
      decreases c
    {
      a := b;
      b := c;
      c := a % b;
    }
    g := b;
  }

  // ----- positions as rows and columns -----

  /** Blocks of g*pp and g*qq elements side by side, and a u with u*qq == 1 + v*(pp+qq). A
      position z is in row z % g and column z / g. */
  datatype Ring = Ring(g: nat, pp: nat, qq: nat, u: int, v: int) {
    predicate Good() { g > 0 && pp > 0 && qq > 0 && u * qq == 1 + v * (pp + qq) }

    function Cols(): nat { pp + qq }
    function P(): nat { g * pp }
    function Q(): nat { g * qq }
    function Size(): nat { g * pp + g * qq }

    /** The next position of a cycle, and the one before it. */
    function Next(z: int): int { if z >= P() then z - P() else z + Q() }
    function Prev(z: int): int { if z < Q() then z + P() else z - Q() }

    function Row(z: int): int
      requires Good()
    {
      z % g
    }

    function Col(z: int): int
      requires Good()
    {
      z / g
    }

    /** When a cycle that starts in column pp comes to the position. */
    function Turn(z: int): int
      requires Good()
    {
      Spin(Col(z))
    }

    function Spin(c: int): int
      requires Good()
    {
      (c - pp) * u % Cols()
    }
  }

  /** Adding one and a multiple of m. */
  lemma ModSucc(y: int, x: int, k: int, m: int)
    requires m > 0 && y == x + 1 + k * m
    ensures y % m == (x % m + 1) % m
  {
    var (q, r) := (x / m, x % m);
    assert x == m * q + r;
    if r + 1 < m {
      assert m * (q + k) == m * q + k * m;
      DivMod(y, m, q + k, r + 1);
      DivMod(r + 1, m, 0, r + 1);
    } else {
      assert m * (q + k + 1) == m * q + k * m + m;
      DivMod(y, m, q + k + 1, 0);
      DivMod(r + 1, m, 1, 0);
    }
  }

  lemma CellOf(r: Ring, z: int)
    requires r.Good() && 0 <= z < r.Size()
    ensures z == r.g * r.Col(z) + r.Row(z) && 0 <= r.Row(z) < r.g && 0 <= r.Col(z) < r.Cols()
    ensures z >= r.P() <==> r.Col(z) >= r.pp
  {
    var (c, w) := (r.Col(z), r.Row(z));
    assert z == r.g * c + w;
    Distribute(r.g, r.pp, r.qq);
    AtLeastNext(r.g, c, r.Cols());
    if c >= r.pp { MulMonotone(r.g, r.pp, c); } else { AtLeastIfLess(r.g, c, r.pp); }
  }

  lemma AtLeastIfLess(g: int, c: int, p: int)
    requires g > 0 && c < p
    ensures g * c + g <= g * p
  {
    MulMonotone(g, c + 1, p);
    Distribute(g, c, 1);
  }

  /** A step stays in its row and moves qq columns on around the ring. */
  lemma StepColumn(r: Ring, z: int)
    requires r.Good() && 0 <= z < r.Size()
    ensures 0 <= r.Next(z) < r.Size() && r.Prev(r.Next(z)) == z && r.Row(r.Next(z)) == r.Row(z)
    ensures r.Col(r.Next(z)) == if r.Col(z) >= r.pp then r.Col(z) - r.pp else r.Col(z) + r.qq
  {
    CellOf(r, z);
    var (c, w) := (r.Col(z), r.Row(z));
    if c >= r.pp {
      assert r.g * (c - r.pp) == r.g * c - r.P();
      DivMod(r.Next(z), r.g, c - r.pp, w);
    } else {
      assert r.g * (c + r.qq) == r.g * c + r.Q();
      DivMod(r.Next(z), r.g, c + r.qq, w);
    }
  }

  lemma Expand(a: int, b: int, u: int)
    ensures (a + b) * u == a * u + b * u && (a - b) * u == a * u - b * u
  {}

  /** Going back pp columns, or on by qq, takes one turn. */
  lemma TurnBack(pp: int, qq: int, u: int, v: int, c: int)
    requires u * qq == 1 + v * (pp + qq)
    ensures (c - pp - pp) * u == (c - pp) * u + 1 + (v - u) * (pp + qq)
  {
    Expand(c - pp, pp, u);
    Expand(pp, qq, u);
    Expand(v, u, pp + qq);
  }

  lemma TurnOn(pp: int, qq: int, u: int, v: int, c: int)
    requires u * qq == 1 + v * (pp + qq)
    ensures (c + qq - pp) * u == (c - pp) * u + 1 + v * (pp + qq)
  {
    Expand(c - pp, qq, u);
  }

  /** A step stays in its row and takes one turn. */
  lemma StepCell(r: Ring, z: int)
    requires r.Good() && 0 <= z < r.Size()
    ensures 0 <= r.Next(z) < r.Size() && r.Prev(r.Next(z)) == z
    ensures r.Row(r.Next(z)) == r.Row(z) && r.Turn(r.Next(z)) == (r.Turn(z) + 1) % r.Cols()
  {
    StepColumn(r, z);
    SpinBack(r, r.Col(z));
    SpinOn(r, r.Col(z));
  }

  lemma SpinBack(r: Ring, c: int)
    requires r.Good()
    ensures r.Spin(c - r.pp) == (r.Spin(c) + 1) % r.Cols()
  {
    TurnBack(r.pp, r.qq, r.u, r.v, c);
    ModSucc((c - r.pp - r.pp) * r.u, (c - r.pp) * r.u, r.v - r.u, r.Cols());
  }

  lemma SpinOn(r: Ring, c: int)
    requires r.Good()
    ensures r.Spin(c + r.qq) == (r.Spin(c) + 1) % r.Cols()
  {
    TurnOn(r.pp, r.qq, r.u, r.v, c);
    ModSucc((c + r.qq - r.pp) * r.u, (c - r.pp) * r.u, r.v, r.Cols());
  }

  /** A position is known by its row and its turn: the cycle visits no position twice. */
  lemma OneTurnEach(r: Ring, y: int, z: int)
    requires r.Good() && 0 <= y < r.Size() && 0 <= z < r.Size()
    requires r.Row(y) == r.Row(z) && r.Turn(y) == r.Turn(z)
    ensures y == z
  {
    CellOf(r, y);
    CellOf(r, z);
    var (a, b, m) := (r.Col(y), r.Col(z), r.Cols());
    var d := a - b;
    SameRemainder((a - r.pp) * r.u, (b - r.pp) * r.u, m);
    var k := (a - r.pp) * r.u / m - (b - r.pp) * r.u / m;
    assert d * r.u == k * m by { assert d * r.u == (a - r.pp) * r.u - (b - r.pp) * r.u; }
    Cancel(d, r.u, r.qq, r.v, m, k);
  }

  lemma SameRemainder(x: int, y: int, m: int)
    requires m > 0 && x % m == y % m
    ensures x - y == (x / m - y / m) * m
  {}

  lemma Cancel(d: int, u: int, qq: int, v: int, m: int, k: int)
    requires m > 0 && -m < d < m && d * u == k * m && u * qq == 1 + v * m
    ensures d == 0
  {
    var e := k * qq - d * v;
    assert d * u * qq == d * (u * qq) == d + d * v * m;
    assert d * u * qq == k * m * qq;
    assert d == e * m;
    if e >= 1 { MulMonotone(m, 1, e); assert false; }
    if e <= -1 { MulMonotone(m, e, -1); assert false; }
  }

  lemma CycleStart(r: Ring, i: int)
    requires r.Good() && 0 <= i < r.g
    ensures 0 <= r.P() + i < r.Size() && r.Row(r.P() + i) == i && r.Turn(r.P() + i) == 0
  {
    DivMod(r.P() + i, r.g, r.pp, i);
    MulMonotone(r.g, 1, r.qq);
    DivMod(0, r.Cols(), 0, 0);
    assert (r.pp - r.pp) * r.u == 0;
  }

  lemma MakeRing(p: nat, q: nat) returns (r: Ring)
    requires p > 0 && q > 0
    ensures r.Good() && r.g == Gcd(p, q) && r.P() == p && r.Q() == q && (p + q) / r.g == r.Cols()
  {
    var g := Gcd(p, q);
    var j, k := GcdDivides(p, q);
    var s, t := Bezout(p, q);
    Factor(g, s, j, t, k);
    DivMod(g, g, s * j + t * k, 0);
    DivMod(g, g, 1, 0);
    assert s * j + t * k == 1;
    r := Ring(g, j, k, t - s, -s);
    assert (t - s) * k == t * k - s * k;
    Distribute(-s, j, k);
    Distribute(g, j, k);
    DivMod(p + q, g, j + k, 0);
  }

  // ----- the block exchange -----

  /** What the array holds at position z after i whole cycles and j steps of the next one,
      which has got to pos. */
  ghost function Held<T>(was: seq<T>, r: Ring, i: int, j: int, pos: int, z: int): T
    requires r.Good() && |was| == r.Size() && 0 <= z < r.Size() && 0 <= pos < r.Size()
  {
    var from :=
      if r.Row(z) < i then r.Prev(z)
      else if r.Row(z) > i then z
      else if r.Turn(z) == 0 then (if j < r.Cols() then pos else r.Prev(z))
      else if r.Turn(z) <= j then r.Prev(z)
      else z;
    was[from]
  }

  /** Swapping the element at the next position with the one at the cycle's start advances
      every position from step j to step j + 1. */
  lemma SwapAdvances<T>(was: seq<T>, r: Ring, i: int, j: int, pos: int, z: int)
    requires r.Good() && |was| == r.Size() && 0 <= i < r.g && 0 <= j < r.Cols()
    requires 0 <= z < r.Size() && 0 <= pos < r.Size() && r.Row(pos) == i && r.Turn(pos) == j
    ensures 0 <= r.Next(pos) < r.Size() && 0 <= r.P() + i < r.Size()
    ensures r.Row(r.Next(pos)) == i && r.Turn(r.Next(pos)) == (j + 1) % r.Cols()
    ensures Held(was, r, i, j + 1, r.Next(pos), z) ==
      Held(was, r, i, j, pos, if z == r.Next(pos) then r.P() + i else if z == r.P() + i then r.Next(pos) else z)
  {
    StepCell(r, pos);
    CycleStart(r, i);
    var (next, first, m) := (r.Next(pos), r.P() + i, r.Cols());
    if j + 1 < m {
      DivMod(j + 1, m, 0, j + 1);
      if r.Row(z) == i && r.Turn(z) == j + 1 { OneTurnEach(r, z, next); }
    } else {
      DivMod(j + 1, m, 1, 0);
      OneTurnEach(r, next, first);
    }
    if r.Row(z) == i && r.Turn(z) == 0 { OneTurnEach(r, z, first); }
    CellOf(r, z);
  }

  ghost predicate InStep<T>(s: seq<T>, was: seq<T>, r: Ring, i: int, j: int, pos: int) {
    && r.Good() && |s| == |was| == r.Size() && 0 <= pos < r.Size()
    && forall z | 0 <= z < r.Size() :: s[z] == Held(was, r, i, j, pos, z)
  }

  /** Position pos belongs to cycle i, which comes to it after j steps; after the last one it
      is back at its start. */
  ghost predicate OnCycle(r: Ring, i: int, j: int, pos: int) {
    && r.Good() && 0 <= i < r.g && 0 <= j <= r.Cols() && 0 <= pos < r.Size()
    && r.Row(pos) == i && r.Turn(pos) == if j < r.Cols() then j else 0
  }

  lemma AfterSwap<T>(s: seq<T>, was: seq<T>, r: Ring, i: int, j: int, pos: int)
    requires OnCycle(r, i, j, pos) && j < r.Cols() && InStep(s, was, r, i, j, pos)
    ensures var (next, first) := (r.Next(pos), r.P() + i);
      && 0 <= next < |s| && 0 <= first < |s| && OnCycle(r, i, j + 1, next)
      && InStep(s[next := s[first]][first := s[next]], was, r, i, j + 1, next)
  {
    StepCell(r, pos);
    CycleStart(r, i);
    if j + 1 < r.Cols() { DivMod(j + 1, r.Cols(), 0, j + 1); } else { DivMod(j + 1, r.Cols(), 1, 0); }
    var (next, first) := (r.Next(pos), r.P() + i);
    var t := s[next := s[first]][first := s[next]];
    forall z | 0 <= z < r.Size() ensures t[z] == Held(was, r, i, j + 1, next, z) {
      SwapAdvances(was, r, i, j, pos, z);
    }
  }

  /** Where cycle i starts. */
  function Head(r: Ring, i: int): int { if i < r.g then r.P() + i else 0 }

  lemma CycleDone<T>(s: seq<T>, was: seq<T>, r: Ring, i: int, pos: int)
    requires 0 <= i < r.g && InStep(s, was, r, i, r.Cols(), pos)
    ensures InStep(s, was, r, i + 1, 0, Head(r, i + 1))
  {
    if i + 1 < r.g { CycleStart(r, i + 1); }
    forall z | 0 <= z < r.Size() ensures s[z] == Held(was, r, i + 1, 0, Head(r, i + 1), z) {
      CellOf(r, z);
      if r.Row(z) == i + 1 && r.Turn(z) == 0 { OneTurnEach(r, z, r.P() + i + 1); }
    }
  }

  lemma BeforeCycles<T>(was: seq<T>, r: Ring)
    requires r.Good() && |was| == r.Size()
    ensures InStep(was, was, r, 0, 0, Head(r, 0))
  {
    CycleStart(r, 0);
    forall z | 0 <= z < r.Size() ensures was[z] == Held(was, r, 0, 0, Head(r, 0), z) {
      CellOf(r, z);
      if r.Row(z) == 0 && r.Turn(z) == 0 { OneTurnEach(r, z, r.P()); }
    }
  }

  /** After all cycles the blocks have changed places. */
  lemma AllCycles<T>(s: seq<T>, was: seq<T>, r: Ring)
    requires InStep(s, was, r, r.g, 0, 0)
    ensures s == was[r.P()..] + was[..r.P()]
  {
    forall z | 0 <= z < r.Size() ensures s[z] == was[r.Prev(z)] { CellOf(r, z); }
  }

  method SwapElements<T>(a: array<T>, x: nat, y: nat, ghost start: nat, ghost end: nat)
    requires start <= x < end <= a.Length && start <= y < end
    modifies a
    ensures a[..start] == old(a[..start]) && a[end..] == old(a[end..])
    ensures var s := old(a[start..end]);
      a[start..end] == s[x - start := s[y - start]][y - start := s[x - start]]
  {
    var swap := a[x];
    a[x] := a[y];
    a[y] := swap;
  }

  /** permute_args: the block from mid to end comes before the block from start to mid, both
      in their order; nothing else moves. */
  method PermuteArgs<T>(a: array<T>, start: nat, mid: nat, end: nat)
    requires start < mid < end <= a.Length
    modifies a
    ensures a[..] == old(a[..start] + a[mid..end] + a[start..mid] + a[end..])
  {
    var nnonopts, nopts := mid - start, end - mid;
    var ncycle := ComputeGcd(nnonopts, nopts);
    ghost var r := MakeRing(nnonopts, nopts);
    var cyclelen := (end - start) / ncycle;
    ghost var was := a[..];
    RunCycles(a, start, mid, end, ncycle, cyclelen, r);
    BlocksInPlace(was, a[..], start, mid, end);
  }

  lemma BlocksInPlace<T>(was: seq<T>, now: seq<T>, start: nat, mid: nat, end: nat)
    requires start <= mid <= end <= |was| == |now| && now[..start] == was[..start] && now[end..] == was[end..]
    requires now[start..end] == was[start..end][mid - start..] + was[start..end][..mid - start]
    ensures now == was[..start] + was[mid..end] + was[start..mid] + was[end..]
  {
    assert now == now[..start] + now[start..end] + now[end..];
    assert was[start..end][mid - start..] == was[mid..end] && was[start..end][..mid - start] == was[start..mid];
  }

  /** The outer loop: all cycles. */
  method RunCycles<T>(a: array<T>, start: nat, mid: nat, end: nat, ncycle: nat, cyclelen: nat, ghost r: Ring)
    requires start < mid < end <= a.Length && r.Good() && r.P() == mid - start && r.Q() == end - mid
    requires ncycle == r.g && cyclelen == r.Cols()
    modifies a
    ensures a[..start] == old(a[..start]) && a[end..] == old(a[end..])
    ensures a[start..end] == old(a[start..end][mid - start..] + a[start..end][..mid - start])
  {
    ghost var was := a[start..end];
    BeforeCycles(was, r);
    var i := 0;
    while i < ncycle
      invariant 0 <= i <= ncycle && a[..start] == old(a[..start]) && a[end..] == old(a[end..])
      invariant InStep(a[start..end], was, r, i, 0, Head(r, i))
    {
      RunCycle(a, start, mid, end, i, cyclelen, r, was);
      i := i + 1;
    }
    AllCycles(a[start..end], was, r);
  }

  /** The inner loop: one cycle. */
  method RunCycle<T>(a: array<T>, start: nat, mid: nat, end: nat, i: nat, cyclelen: nat, ghost r: Ring,
          ghost was: seq<T>)
    requires start < mid < end <= a.Length && r.Good() && r.P() == mid - start && r.Q() == end - mid
    requires i < r.g && cyclelen == r.Cols() && InStep(a[start..end], was, r, i, 0, Head(r, i))
    modifies a
    ensures a[..start] == old(a[..start]) && a[end..] == old(a[end..])
    ensures InStep(a[start..end], was, r, i + 1, 0, Head(r, i + 1))
  {
    CycleStart(r, i);
    var cstart := mid + i;
    var pos := cstart;
    var j := 0;
    while j < cyclelen
      invariant 0 <= j <= cyclelen && start <= pos < end && OnCycle(r, i, j, pos - start)
      invariant a[..start] == old(a[..start]) && a[end..] == old(a[end..])
      invariant InStep(a[start..end], was, r, i, j, pos - start)
    {
      AfterSwap(a[start..end], was, r, i, j, pos - start);
      if pos >= mid { pos := pos - (mid - start); } else { pos := pos + (end - mid); }
      SwapElements(a, pos, cstart, start, end);
      j := j + 1;
    }
    CycleDone(a[start..end], was, r, i, pos - start);
  }
}
