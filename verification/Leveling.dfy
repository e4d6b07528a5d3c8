/** How far the loads of a view are from level, and why the greedy plan of Balance levels
    them in as few moves as any plan could. */
module Leveling {
  import opened Tables
  import opened Arithmetic
  import opened Protocol
  import opened Handout
  import opened Moves
  import opened Balancing

  // ----- loads and their distance from level -----

  /** The sum of f over the loads. */
  function Total(c: seq<int>, f: int -> int): int {
    if c == [] then 0 else Total(c[..|c| - 1], f) + f(c[|c| - 1])
  }

  function Self(): int -> int { x => x }

  function Excess(h: int): int -> int { x => if x > h then x - h else 0 }

  function Shortage(l: int): int -> int { x => if x < l then l - x else 0 }

  /** The share of each member, rounded down and rounded up. */
  function Floor(c: seq<int>): int
    requires c != []
  {
    Total(c, Self()) / |c|
  }

  function Ceiling(c: seq<int>): int
    requires c != []
  {
    (Total(c, Self()) + |c| - 1) / |c|
  }

  /** The larger of the total excess over the share and the total shortfall below it. */
  function Unevenness(c: seq<int>): int
    requires c != []
  {
    var (over, under) := (Total(c, Excess(Ceiling(c))), Total(c, Shortage(Floor(c))));
    if over > under then over else under
  }

  predicate Level(c: seq<int>) { forall i, j | 0 <= i < |c| && 0 <= j < |c| :: c[i] - c[j] <= 1 }

  /** One entry goes from member i to member j. */
  function MoveOne(c: seq<int>, i: nat, j: nat): (r: seq<int>)
    requires i < |c| && j < |c| && i != j
    ensures |r| == |c|
  {
    c[i := c[i] - 1][j := c[j] + 1]
  }

  predicate IsMove(c: seq<int>, d: seq<int>) {
    exists i: nat, j: nat :: i < |c| && j < |c| && i != j && d == MoveOne(c, i, j)
  }

  lemma {:induction false} TotalUpdate(c: seq<int>, f: int -> int, i: nat, v: int)
    requires i < |c|
    ensures Total(c[i := v], f) == Total(c, f) - f(c[i]) + f(v)
  {
    var n := |c| - 1;
    if i == n {
      assert c[i := v][..n] == c[..n];
    } else {
      assert c[i := v][..n] == c[..n][i := v];
      TotalUpdate(c[..n], f, i, v);
    }
  }

  lemma TotalMove(c: seq<int>, f: int -> int, i: nat, j: nat)
    requires i < |c| && j < |c| && i != j
    ensures Total(MoveOne(c, i, j), f) == Total(c, f) - f(c[i]) + f(c[i] - 1) - f(c[j]) + f(c[j] + 1)
  {
    TotalUpdate(c, f, i, c[i] - 1);
    TotalUpdate(c[i := c[i] - 1], f, j, c[j] + 1);
  }

  lemma {:induction false} NotNegative(c: seq<int>, f: int -> int)
    requires forall x :: f(x) >= 0
    ensures Total(c, f) >= 0
    ensures Total(c, f) == 0 <==> forall k | 0 <= k < |c| :: f(c[k]) == 0
  {
    if c != [] {
      var n := |c| - 1;
      NotNegative(c[..n], f);
      if forall k | 0 <= k < |c| :: f(c[k]) == 0 {
        assert forall k | 0 <= k < n :: f(c[..n][k]) == f(c[k]) == 0;
      }
      if Total(c, f) == 0 {
        assert forall k | 0 <= k < n :: f(c[k]) == f(c[..n][k]);
      }
    }
  }

  lemma {:induction false} AtLeast(c: seq<int>, v: int)
    requires forall k | 0 <= k < |c| :: c[k] >= v
    ensures Total(c, Self()) >= v * |c|
    ensures (exists k | 0 <= k < |c| :: c[k] > v) ==> Total(c, Self()) > v * |c|
  {
    if c != [] {
      var n := |c| - 1;
      AtLeast(c[..n], v);
      assert v * |c| == v * n + v;
      if k :| 0 <= k < |c| && c[k] > v {
        if k < n { assert c[..n][k] > v; }
      }
    }
  }

  lemma {:induction false} AtMost(c: seq<int>, v: int)
    requires forall k | 0 <= k < |c| :: c[k] <= v
    ensures Total(c, Self()) <= v * |c|
    ensures (exists k | 0 <= k < |c| :: c[k] < v) ==> Total(c, Self()) < v * |c|
  {
    if c != [] {
      var n := |c| - 1;
      AtMost(c[..n], v);
      assert v * |c| == v * n + v;
      if k :| 0 <= k < |c| && c[k] < v {
        if k < n { assert c[..n][k] < v; }
      }
    }
  }

  lemma Shares(t: int, m: int)
    requires m > 0
    ensures (t / m) * m <= t <= ((t + m - 1) / m) * m
    ensures t / m <= (t + m - 1) / m <= t / m + 1
  {
    var (q, r) := (t / m, t % m);
    assert t == m * q + r;
    if r == 0 {
      DivMod(t + m - 1, m, q, m - 1);
    } else {
      Distribute(m, q, 1);
      DivMod(t + m - 1, m, q + 1, r - 1);
    }
  }

  /** The least and the greatest load around the shares. */
  lemma Around(c: seq<int>, lo: nat, hi: nat)
    requires lo < |c| && hi < |c| && forall k | 0 <= k < |c| :: c[lo] <= c[k] <= c[hi]
    ensures c[hi] > Ceiling(c) ==> c[lo] < Ceiling(c)
    ensures c[lo] < Floor(c) ==> c[hi] > Floor(c)
    ensures Floor(c) <= Ceiling(c) <= Floor(c) + 1
    ensures Total(c, Excess(Ceiling(c))) >= 0 && Total(c, Shortage(Floor(c))) >= 0
    ensures Total(c, Excess(Ceiling(c))) == 0 <==> c[hi] <= Ceiling(c)
    ensures Total(c, Shortage(Floor(c))) == 0 <==> c[lo] >= Floor(c)
  {
    Shares(Total(c, Self()), |c|);
    if c[hi] > Ceiling(c) && c[lo] >= Ceiling(c) { AtLeast(c, Ceiling(c)); }
    if c[lo] < Floor(c) && c[hi] <= Floor(c) { AtMost(c, Floor(c)); }
    NotNegative(c, Excess(Ceiling(c)));
    NotNegative(c, Shortage(Floor(c)));
  }

  /** Nothing is uneven exactly when no two loads differ by more than one. */
  lemma LevelIff(c: seq<int>, lo: nat, hi: nat)
    requires lo < |c| && hi < |c| && forall k | 0 <= k < |c| :: c[lo] <= c[k] <= c[hi]
    ensures Unevenness(c) >= 0
    ensures Unevenness(c) == 0 <==> c[hi] - c[lo] <= 1
    ensures Level(c) <==> c[hi] - c[lo] <= 1
  {
    Around(c, lo, hi);
  }

  lemma SameShares(c: seq<int>, i: nat, j: nat)
    requires i < |c| && j < |c| && i != j
    ensures Floor(MoveOne(c, i, j)) == Floor(c) && Ceiling(MoveOne(c, i, j)) == Ceiling(c)
  {
    TotalMove(c, Self(), i, j);
  }

  /** Moving one entry from a fullest to an emptiest member, if they differ by more than
      one, makes the loads less uneven by exactly one. */
  lemma GreedyMove(c: seq<int>, lo: nat, hi: nat)
    requires lo < |c| && hi < |c| && c[hi] - c[lo] > 1 && forall k | 0 <= k < |c| :: c[lo] <= c[k] <= c[hi]
    ensures Unevenness(MoveOne(c, hi, lo)) == Unevenness(c) - 1
  {
    Around(c, lo, hi);
    SameShares(c, hi, lo);
    TotalMove(c, Excess(Ceiling(c)), hi, lo);
    TotalMove(c, Shortage(Floor(c)), hi, lo);
  }

  /** No move of one entry makes the loads less uneven by more than one. */
  lemma NoMoveDoesBetter(c: seq<int>, i: nat, j: nat)
    requires i < |c| && j < |c| && i != j
    ensures Unevenness(MoveOne(c, i, j)) >= Unevenness(c) - 1
  {
    SameShares(c, i, j);
    TotalMove(c, Excess(Ceiling(c)), i, j);
    TotalMove(c, Shortage(Floor(c)), i, j);
  }

  /** Loads reached one after the other by single moves. */
  predicate IsPath(path: seq<seq<int>>) {
    && path != [] && path[0] != []
    && forall k | 0 <= k < |path| - 1 :: IsMove(path[k], path[k + 1])
  }

  /** Whatever moves are chosen, getting from one set of loads to another takes at least as
      many as the unevenness that disappears. */
  lemma {:induction false} PathsAreLong(path: seq<seq<int>>)
    requires IsPath(path)
    ensures path[|path| - 1] != [] && Unevenness(path[|path| - 1]) >= Unevenness(path[0]) - (|path| - 1)
  {
    var n := |path| - 1;
    if n > 0 {
      var front := path[..n];
      forall k | 0 <= k < |front| - 1 ensures IsMove(front[k], front[k + 1]) {
        assert IsMove(path[k], path[k + 1]);
      }
      PathsAreLong(front);
      assert IsMove(path[n - 1], path[n - 1 + 1]);
      var i: nat, j: nat :| i < |path[n - 1]| && j < |path[n - 1]| && i != j && path[n] == MoveOne(path[n - 1], i, j);
      NoMoveDoesBetter(path[n - 1], i, j);
    }
  }

  // ----- the loop of Balance -----

  function Loads(members: seq<Member>): (c: seq<int>)
    ensures |c| == |members| && forall k | 0 <= k < |c| :: c[k] == members[k].num
  {
    seq(|members|, k requires 0 <= k < |members| => members[k].num)
  }

  lemma RelocateLevels(names: seq<Address>, cfg: seq<Address>, q: Plan)
    requires Indexed(q) && Serving(names, cfg, q.sh) && AllMovable(q.sh.table) && Scan(q) == q && Gap(q) > 1
    ensures Loads(Relocate(q).sh.members) == MoveOne(Loads(q.sh.members), q.hi, q.lo)
    ensures Unevenness(Loads(Relocate(q).sh.members)) == Unevenness(Loads(q.sh.members)) - 1
  {
    RichCanMove(names, cfg, q);
    var c := Loads(q.sh.members);
    assert Loads(Relocate(q).sh.members) == MoveOne(c, q.hi, q.lo);
    GreedyMove(c, q.lo, q.hi);
  }

  predicate Progress(p: Plan, q: Plan, allowed: int)
    requires Indexed(p) && Indexed(q)
  {
    var before := Unevenness(Loads(p.sh.members));
    var made := |q.moves| - |p.moves|;
    && made == (if before < allowed then before else allowed)
    && Unevenness(Loads(q.sh.members)) == before - made
  }

  predicate Steady(names: seq<Address>, cfg: seq<Address>, p: Plan) {
    Indexed(p) && Serving(names, cfg, p.sh) && AllMovable(p.sh.table)
  }

  lemma OneMoreRelocation(names: seq<Address>, cfg: seq<Address>, p: Plan)
    requires Steady(names, cfg, p) && Gap(Scan(p)) > 1
    ensures Steady(names, cfg, Relocate(Scan(p))) && |Relocate(Scan(p)).moves| == |p.moves| + 1
    ensures Unevenness(Loads(Relocate(Scan(p)).sh.members)) == Unevenness(Loads(p.sh.members)) - 1
  {
    var q := Scan(p);
    ScanAgain(p);
    RelocateMovesOne(names, cfg, q);
    RelocateLevels(names, cfg, q);
    RichCanMove(names, cfg, q);
    RelocateIsMove(names, cfg, q);
    MoveServes(names, cfg, q.sh, Move(names[q.lo], q.sh.table[Movable(q.sh.table, names[q.hi])].pseudo));
  }

  lemma NothingToDo(p: Plan)
    requires Indexed(p)
    ensures Unevenness(Loads(p.sh.members)) >= 0
    ensures Unevenness(Loads(p.sh.members)) == 0 <==> Gap(Scan(p)) <= 1
  {
    LevelIff(Loads(p.sh.members), Scan(p).lo, Scan(p).hi);
  }

  predicate Lowers(good: Plan -> bool, worth: Plan -> int, q: Plan) {
    Indexed(q) && good(q) ==>
      var (s, r) := (Scan(q), Relocate(Scan(q)));
      && worth(q) >= 0 && worth(s) == worth(q) && (worth(q) == 0 <==> Gap(s) <= 1)
      && (Gap(s) > 1 ==> good(r) && worth(r) == worth(q) - 1 && |r.moves| == |q.moves| + 1)
  }

  ghost predicate AllLower(good: Plan -> bool, worth: Plan -> int) { forall q: Plan :: Lowers(good, worth, q) }

  /** The loop from p on ends with this plan, and how many moves that makes. */
  predicate LoopEnds(p: Plan, k: nat, rate: nat, end: Plan) { Indexed(p) && k <= rate && Loop(p, k, rate).1 == end }

  predicate Made(worth: Plan -> int, p: Plan, allowed: int, end: Plan) {
    var made := if worth(p) < allowed then worth(p) else allowed;
    |end.moves| == |p.moves| + made && worth(end) == worth(p) - made
  }

  lemma LowersNext(good: Plan -> bool, worth: Plan -> int, p: Plan, k: nat, rate: nat, end: Plan)
    returns (more: bool, r: Plan)
    requires LoopEnds(p, k, rate, end) && good(p) && AllLower(good, worth)
    ensures !more ==> Made(worth, p, rate - k, end)
    ensures more ==> k < rate && good(r) && LoopEnds(r, k + 1, rate, end)
    ensures more && Made(worth, r, rate - k - 1, end) ==> Made(worth, p, rate - k, end)
  {
    assert Lowers(good, worth, p);
    more, r := k < rate && Gap(Scan(p)) > 1, p;
    if more { r := Relocate(Scan(p)); }
  }

  /** A quantity that a relocation lowers by one, and that is 0 exactly when there is nothing
      to do, tells how many moves the loop makes. */
  lemma {:induction false} LoopLowers(good: Plan -> bool, worth: Plan -> int, p: Plan, k: nat, rate: nat, end: Plan)
    requires LoopEnds(p, k, rate, end) && good(p) && AllLower(good, worth)
    ensures Made(worth, p, rate - k, end)
    decreases rate - k
  {
    var more, r := LowersNext(good, worth, p, k, rate, end);
    if more { LoopLowers(good, worth, r, k + 1, rate, end); }
  }

  /** With every entry movable, the loop makes as many moves as the rate allows and the
      unevenness needs, and each takes away one unit of it. */
  lemma LoopLevels(names: seq<Address>, cfg: seq<Address>, p: Plan, rate: nat)
    requires Steady(names, cfg, p)
    ensures Progress(p, Loop(p, 0, rate).1, rate)
  {
    var good := (q: Plan) => Steady(names, cfg, q);
    var worth := (q: Plan) => if q.sh.members == [] then 0 else Unevenness(Loads(q.sh.members));
    forall q: Plan ensures Lowers(good, worth, q) {
      if Indexed(q) && good(q) {
        NothingToDo(q);
        if Gap(Scan(q)) > 1 { OneMoreRelocation(names, cfg, q); }
      }
    }
    LoopLowers(good, worth, p, 0, rate, Loop(p, 0, rate).1);
  }

  /** A relocation changes an owner and no priority. */
  lemma {:induction false} LoopKeepsMovable(p: Plan, k: nat, rate: nat)
    requires Indexed(p) && AllMovable(p.sh.table) && k <= rate
    ensures AllMovable(Loop(p, k, rate).1.sh.table)
    decreases rate - k
  {
    if k < rate && Gap(Scan(p)) > 1 {
      LoopRound(p, k, rate);
      LoopKeepsMovable(Relocate(Scan(p)), k + 1, rate);
    }
  }

  // ----- rounds of balancing -----

  /** The table and counts once a planned message has been replayed. */
  function Round(sh: Shared, rate: nat): Shared {
    if sh.members == [] then sh
    else
      match BalanceMessage(sh, rate)
      case None => sh
      case Some((_, moves)) => ShareMoves(sh, moves)
  }

  function RoundAt(rate: nat): Shared -> Shared { (sh: Shared) => Round(sh, rate) }

  function Iterate<T>(step: T -> T, x: T, n: nat): T {
    if n == 0 then x else step(Iterate(step, x, n - 1))
  }

  function Rounds(sh: Shared, rate: nat, n: nat): Shared { Iterate(RoundAt(rate), sh, n) }

  /** What is left of an unevenness after so many moves. */
  function Left(before: int, made: int): int { if before < made then 0 else before - made }

  lemma LeftAgain(before: int, rate: nat, n: nat)
    requires before >= 0 && n > 0
    ensures Left(Left(before, (n - 1) * rate), rate) == Left(before, n * rate)
  {
    assert n * rate == (n - 1) * rate + rate && (n - 1) * rate >= 0;
  }

  /** Replaying the planned message brings every member to the planner's working copy. */
  lemma RoundIsPlan(names: seq<Address>, cfg: seq<Address>, sh: Shared, rate: nat)
    requires Serving(names, cfg, sh) && AllMovable(sh.table)
    ensures Round(sh, rate) == Loop(Plan(sh, 0, 0, []), 0, rate).1.sh && Serving(names, cfg, Round(sh, rate))
  {
    var p := Plan(sh, 0, 0, []);
    assert Sound(names, cfg, sh, p);
    ReplayIsPlan(names, cfg, sh, p, 0, rate);
    HeaderCountsMoves(names, cfg, sh, p, 0, rate);
    assert Loop(p, 0, rate).1.moves == [] ==> ShareMoves(sh, []) == sh;
  }

  lemma RoundLevels(names: seq<Address>, cfg: seq<Address>, sh: Shared, rate: nat)
    requires Serving(names, cfg, sh) && AllMovable(sh.table)
    ensures Serving(names, cfg, Round(sh, rate)) && AllMovable(Round(sh, rate).table)
    ensures Unevenness(Loads(Round(sh, rate).members)) == Left(Unevenness(Loads(sh.members)), rate)
  {
    var p := Plan(sh, 0, 0, []);
    RoundIsPlan(names, cfg, sh, rate);
    LoopLevels(names, cfg, p, rate);
    LoopKeepsMovable(p, 0, rate);
  }

  predicate StepLowers<T>(step: T -> T, good: T -> bool, worth: T -> int, rate: nat, x: T) {
    good(x) ==> worth(x) >= 0 && good(step(x)) && worth(step(x)) == Left(worth(x), rate)
  }

  lemma {:induction false} StepsLower<T(!new)>(step: T -> T, good: T -> bool, worth: T -> int, x: T, rate: nat, n: nat)
    requires good(x) && forall y: T :: StepLowers(step, good, worth, rate, y)
    ensures good(Iterate(step, x, n)) && worth(Iterate(step, x, n)) == Left(worth(x), n * rate)
  {
    assert StepLowers(step, good, worth, rate, x);
    if n > 0 {
      StepsLower(step, good, worth, x, rate, n - 1);
      assert StepLowers(step, good, worth, rate, Iterate(step, x, n - 1));
      LeftAgain(worth(x), rate, n);
    }
  }

  /** After n rounds at a given rate the unevenness has gone down by n times the rate, or is
      gone. */
  lemma RoundsLevel(names: seq<Address>, cfg: seq<Address>, sh: Shared, rate: nat, n: nat)
    requires Serving(names, cfg, sh) && AllMovable(sh.table)
    ensures Serving(names, cfg, Rounds(sh, rate, n)) && AllMovable(Rounds(sh, rate, n).table)
    ensures Unevenness(Loads(Rounds(sh, rate, n).members)) == Left(Unevenness(Loads(sh.members)), n * rate)
  {
    var good := (s: Shared) => Serving(names, cfg, s) && AllMovable(s.table);
    var worth := (s: Shared) => if s.members == [] then 0 else Unevenness(Loads(s.members));
    forall s: Shared ensures StepLowers(RoundAt(rate), good, worth, rate, s) {
      if good(s) {
        LoadsKnown(names, cfg, s);
        RoundLevels(names, cfg, s, rate);
      }
    }
    StepsLower(RoundAt(rate), good, worth, sh, rate, n);
  }

  lemma LoadsKnown(names: seq<Address>, cfg: seq<Address>, sh: Shared)
    requires Serving(names, cfg, sh)
    ensures Unevenness(Loads(sh.members)) >= 0
    ensures Level(Loads(sh.members)) <==> Unevenness(Loads(sh.members)) == 0
  {
    var q := Scan(Plan(sh, 0, 0, []));
    LevelIff(Loads(sh.members), q.lo, q.hi);
  }

  /** Balancing ends with loads that differ by at most one exactly when the rounds allow as
      many moves as the loads were uneven. */
  lemma LeveledIff(names: seq<Address>, cfg: seq<Address>, sh: Shared, rate: nat, n: nat)
    requires Serving(names, cfg, sh) && AllMovable(sh.table)
    ensures Level(Loads(Rounds(sh, rate, n).members)) <==> Unevenness(Loads(sh.members)) <= n * rate
  {
    RoundsLevel(names, cfg, sh, rate, n);
    LoadsKnown(names, cfg, sh);
    LoadsKnown(names, cfg, Rounds(sh, rate, n));
  }

  /** And no sequence of moves whatever levels the same loads with fewer. */
  lemma FewestMoves(names: seq<Address>, cfg: seq<Address>, sh: Shared, path: seq<seq<int>>)
    requires Serving(names, cfg, sh) && IsPath(path) && path[0] == Loads(sh.members) && Level(path[|path| - 1])
    ensures |path| - 1 >= Unevenness(Loads(sh.members))
  {
    PathsAreLong(path);
    var c := path[|path| - 1];
    var (lo, hi) := Extremes(c);
    LevelIff(c, lo, hi);
  }

  function Extremes(c: seq<int>): (r: (nat, nat))
    requires c != []
    ensures r.0 < |c| && r.1 < |c| && forall k | 0 <= k < |c| :: c[r.0] <= c[k] <= c[r.1]
  {
    if |c| == 1 then (0, 0)
    else
      var n := |c| - 1;
      var (lo, hi) := Extremes(c[..n]);
      assert forall k | 0 <= k < n :: c[..n][k] == c[k];
      (if c[n] < c[lo] then n else lo, if c[n] > c[hi] then n else hi)
  }

  // ----- complete balancing: one round at half the number of entries -----

  /** The entries among the first i members' sets. */
  function OwnedByFirst(table: seq<Entry>, names: seq<Address>, i: nat): set<nat>
    requires i <= |names|
  {
    set j: nat | j < |table| && table[j].owner in names[..i]
  }

  lemma {:induction false} LoadsAddUp(names: seq<Address>, table: seq<Entry>, c: seq<int>, i: nat)
    requires Distinct(names) && i <= |names| == |c|
    requires forall k | 0 <= k < |names| :: c[k] == |OwnedSet(table, names[k])|
    ensures Total(c[..i], Self()) == |OwnedByFirst(table, names, i)|
  {
    if i == 0 {
      assert OwnedByFirst(table, names, 0) == {};
    } else {
      LoadsAddUp(names, table, c, i - 1);
      assert c[..i][..i - 1] == c[..i - 1];
      OneMoreOwner(names, table, i);
    }
  }

  lemma OneMoreOwner(names: seq<Address>, table: seq<Entry>, i: nat)
    requires Distinct(names) && 0 < i <= |names|
    ensures |OwnedByFirst(table, names, i)| == |OwnedByFirst(table, names, i - 1)| + |OwnedSet(table, names[i - 1])|
  {
    var (a, b) := (OwnedByFirst(table, names, i - 1), OwnedSet(table, names[i - 1]));
    assert names[..i] == names[..i - 1] + [names[i - 1]];
    assert OwnedByFirst(table, names, i) == a + b;
    assert names[i - 1] !in names[..i - 1];
    assert a !! b;
  }

  /** The loads of a table in service add up to the number of entries. */
  lemma EveryEntryIsALoad(names: seq<Address>, cfg: seq<Address>, sh: Shared)
    requires Serving(names, cfg, sh)
    ensures Total(Loads(sh.members), Self()) == |cfg|
  {
    var (n, c) := (|names|, Loads(sh.members));
    LoadsAddUp(names, sh.table, c, n);
    assert c[..n] == c && names[..n] == names;
    forall j | 0 <= j < |cfg| ensures sh.table[j].owner in names { assert Placed(names, sh.table[j]); }
    assert OwnedByFirst(sh.table, names, n) == Upto(|cfg|);
  }

  lemma TwoLoads(c: seq<int>)
    requires |c| == 2 && c[0] >= 0 && c[1] >= 0
    ensures Unevenness(c) <= Total(c, Self()) / 2
  {
    assert c[..1][..0] == [] && c == [c[0], c[1]] && c[..1] == [c[0]];
    assert Total(c[..1], Self()) == c[0];
    var (h, l) := (Ceiling(c), Floor(c));
    assert Total(c[..1], Excess(h)) == Excess(h)(c[0]);
    assert Total(c[..1], Shortage(l)) == Shortage(l)(c[0]);
  }

  /** With two members a single round at half the number of entries levels the loads. */
  lemma TwoMembersOneRound(names: seq<Address>, cfg: seq<Address>, sh: Shared)
    requires Serving(names, cfg, sh) && AllMovable(sh.table) && |names| == 2
    ensures Level(Loads(Round(sh, |cfg| / 2).members))
  {
    assert sh.members[0].num >= 0 && sh.members[1].num >= 0;
    TwoLoads(Loads(sh.members));
    EveryEntryIsALoad(names, cfg, sh);
    LeveledIff(names, cfg, sh, |cfg| / 2, 1);
    assert Rounds(sh, |cfg| / 2, 0) == sh && Rounds(sh, |cfg| / 2, 1) == Round(sh, |cfg| / 2);
  }

  /** Six entries on one of three members: the counts are four units uneven. */
  lemma SixOnOne()
    ensures Unevenness([6, 0, 0]) == 4
  {
    var c := [6, 0, 0];
    assert c[..2] == [6, 0] && c[..2][..1] == [6] && c[..2][..1][..0] == [];
    assert Total([6], Self()) == 6 && Total([6, 0], Self()) == 6 && Total(c, Self()) == 6;
    assert Ceiling(c) == 2 && Floor(c) == 2;
    assert Total([6], Excess(2)) == 4 && Total([6, 0], Excess(2)) == 4 && Total(c, Excess(2)) == 4;
    assert Total([6], Shortage(2)) == 0 && Total([6, 0], Shortage(2)) == 2 && Total(c, Shortage(2)) == 4;
  }

  /** Member 1 was alone and had all entries when members 2 and 3 came. */
  function Crowd(cfg: seq<Address>): Shared {
    Shared(seq(|cfg|, j requires 0 <= j < |cfg| => Entry(cfg[j], 1, CLAIMED)),
           [Member(1, |cfg|, true), Member(2, 0, true), Member(3, 0, true)])
  }

  lemma CrowdServes(cfg: seq<Address>)
    requires Distinct(cfg)
    ensures Serving([1, 2, 3], cfg, Crowd(cfg)) && AllMovable(Crowd(cfg).table)
  {
    var (names, sh) := ([1, 2, 3], Crowd(cfg));
    CrowdOwns(cfg, sh.table);
    assert names[0] == 1;
    forall j | 0 <= j < |cfg| ensures Placed(names, sh.table[j]) {}
  }

  lemma CrowdOwns(cfg: seq<Address>, table: seq<Entry>)
    requires |table| == |cfg| && forall j | 0 <= j < |cfg| :: table[j] == Entry(cfg[j], 1, CLAIMED)
    ensures |OwnedSet(table, 1)| == |cfg| && |OwnedSet(table, 2)| == |OwnedSet(table, 3)| == 0
  {
    assert OwnedSet(table, 1) == Upto(|cfg|) && OwnedSet(table, 2) == {} == OwnedSet(table, 3);
  }

  /** With three members one round need not be enough: six entries on one of them take four
      moves, and the round makes three. */
  lemma ThreeMembersOneRound(cfg: seq<Address>)
    requires Distinct(cfg) && |cfg| == 6
    ensures Serving([1, 2, 3], cfg, Crowd(cfg)) && AllMovable(Crowd(cfg).table)
    ensures !Level(Loads(Round(Crowd(cfg), |cfg| / 2).members))
  {
    var sh := Crowd(cfg);
    CrowdServes(cfg);
    SixOnOne();
    assert Loads(sh.members) == [6, 0, 0];
    LeveledIff([1, 2, 3], cfg, sh, 3, 1);
    assert Rounds(sh, 3, 0) == sh && Rounds(sh, 3, 1) == Round(sh, 3);
  }
}
