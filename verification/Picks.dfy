/** Which entry each move of a BALANCE message takes from whom, and who gets it; and when the
    message ends. */
module Picking {
  import opened Tables
  import opened Protocol
  import opened Handout
  import opened Balancing

  /** The poorest member: the one picked before if nobody has less, else the first with the
      least. */
  predicate PicksPoorest(c: seq<Member>, before: nat, now: nat) {
    && before < |c| && now < |c| && (forall k | 0 <= k < |c| :: c[now].num <= c[k].num)
    && (now != before ==> c[now].num < c[before].num && forall k | 0 <= k < now :: c[k].num > c[now].num)
  }

  predicate PicksRichest(c: seq<Member>, before: nat, now: nat) {
    && before < |c| && now < |c| && (forall k | 0 <= k < |c| :: c[now].num >= c[k].num)
    && (now != before ==> c[now].num > c[before].num && forall k | 0 <= k < now :: c[k].num < c[now].num)
  }

  /** Entry j is the first that a owns below PREFER. */
  predicate FirstToMove(table: seq<Entry>, a: Address, j: nat) {
    && j < |table| && table[j].owner == a && table[j].prio < PREFER
    && forall i | 0 <= i < j :: table[i].owner == a ==> table[i].prio >= PREFER
  }

  predicate NothingToMove(table: seq<Entry>, a: Address) {
    forall i | 0 <= i < |table| :: table[i].owner == a ==> table[i].prio >= PREFER
  }

  /** On table and counts s the move takes the first entry of the richest member, hi, to the
      poorest, lo; the members picked last were wasLo and wasHi. */
  ghost predicate Takes(s: Shared, mv: Move, wasLo: nat, lo: nat, wasHi: nat, hi: nat) {
    && PicksPoorest(s.members, wasLo, lo) && PicksRichest(s.members, wasHi, hi)
    && s.members[hi].num - s.members[lo].num > 1 && mv.target == s.members[lo].addr
    && exists j: nat :: FirstToMove(s.table, s.members[hi].addr, j) && s.table[j].pseudo == mv.pseudo
  }

  /** The picks, one after the other: los[t] and his[t] before move t, where all begins at 0. */
  ghost predicate Trail(start: Shared, moves: seq<Move>, los: seq<nat>, his: seq<nat>) {
    && |los| == |his| == |moves| + 1 && los[0] == his[0] == 0
    && forall t | 0 <= t < |moves| ::
      Takes(ShareMoves(start, moves[..t]), moves[t], los[t], los[t + 1], his[t], his[t + 1])
  }

  /** On table and counts s there is no further move. */
  ghost predicate Ends(s: Shared, wasLo: nat, wasHi: nat) {
    exists lo: nat, hi: nat ::
      && PicksPoorest(s.members, wasLo, lo) && PicksRichest(s.members, wasHi, hi)
      && (s.members[hi].num - s.members[lo].num <= 1 || NothingToMove(s.table, s.members[hi].addr))
  }

  /** The scan keeps the start unless someone has less (or more), and then finds the first of
      those with the least (or the most). */
  lemma {:induction false} ScanFindsFirst(c: seq<Member>, start: nat, i: nat)
    requires start < |c| && i <= |c|
    ensures var m := ScanMin(c, start, i);
      m != start ==> c[m].num < c[start].num && forall k | 0 <= k < m :: c[k].num > c[m].num
    ensures var m := ScanMax(c, start, i);
      m != start ==> c[m].num > c[start].num && forall k | 0 <= k < m :: c[k].num < c[m].num
  {
    if i > 0 { ScanFindsFirst(c, start, i - 1); }
  }

  lemma ScanPicks(p: Plan)
    requires Indexed(p)
    ensures PicksPoorest(p.sh.members, p.lo, Scan(p).lo) && PicksRichest(p.sh.members, p.hi, Scan(p).hi)
  {
    ScanFindsFirst(p.sh.members, p.lo, |p.sh.members|);
    ScanFindsFirst(p.sh.members, p.hi, |p.sh.members|);
  }

  lemma OneMorePick(start: Shared, moves: seq<Move>, mv: Move, los: seq<nat>, his: seq<nat>, lo: nat, hi: nat)
    requires Trail(start, moves, los, his)
    requires Takes(ShareMoves(start, moves), mv, los[|moves|], lo, his[|moves|], hi)
    ensures Trail(start, moves + [mv], los + [lo], his + [hi])
  {
    var (more, los', his') := (moves + [mv], los + [lo], his + [hi]);
    forall t | 0 <= t < |more|
      ensures Takes(ShareMoves(start, more[..t]), more[t], los'[t], los'[t + 1], his'[t], his'[t + 1])
    {
      assert more[..t] == moves[..t];
      if t == |moves| { assert moves[..t] == moves; }
    }
  }

  /** A relocation is such a move. */
  lemma RelocateTakes(names: seq<Address>, cfg: seq<Address>, start: Shared, p: Plan)
    requires Sound(names, cfg, start, p) && Gap(Scan(p)) > 1
    requires Movable(p.sh.table, p.sh.members[Scan(p).hi].addr) < |p.sh.table|
    ensures var (q, r) := (Scan(p), Relocate(Scan(p)));
      && r.lo == q.lo && r.hi == q.hi && |r.moves| == |p.moves| + 1 && r.moves[..|p.moves|] == p.moves
      && Takes(ShareMoves(start, p.moves), r.moves[|p.moves|], p.lo, q.lo, p.hi, q.hi)
  {
    ScanPicks(p);
    var j := Movable(p.sh.table, p.sh.members[Scan(p).hi].addr);
    assert FirstToMove(p.sh.table, p.sh.members[Scan(p).hi].addr, j);
  }

  /** The loop under way at plan p, with the picks so far; it will end with plan end. */
  ghost predicate Going(names: seq<Address>, cfg: seq<Address>, start: Shared, p: Plan, rate: nat, los: seq<nat>,
          his: seq<nat>, end: Plan)
  {
    var k := |p.moves|;
    && Sound(names, cfg, start, p) && k <= rate && Loop(p, k, rate).1 == end
    && Trail(start, p.moves, los, his) && los[k] == p.lo && his[k] == p.hi
  }

  ghost predicate Done(start: Shared, moves: seq<Move>, los: seq<nat>, his: seq<nat>, rate: nat) {
    && Trail(start, moves, los, his) && |moves| <= rate
    && (|moves| == rate || Ends(ShareMoves(start, moves), los[|moves|], his[|moves|]))
  }

  lemma StepsOn(names: seq<Address>, cfg: seq<Address>, start: Shared, p: Plan, rate: nat, los: seq<nat>, his: seq<nat>,
          end: Plan)
    requires Going(names, cfg, start, p, rate, los, his, end) && |p.moves| < rate && Gap(Scan(p)) > 1
    requires Movable(p.sh.table, p.sh.members[Scan(p).hi].addr) < |p.sh.table|
    ensures var (q, r) := (Scan(p), Relocate(Scan(p)));
      Going(names, cfg, start, r, rate, los + [q.lo], his + [q.hi], end) && |r.moves| == |p.moves| + 1
  {
    var (k, q) := (|p.moves|, Scan(p));
    LoopRound(p, k, rate);
    RelocateTakes(names, cfg, start, p);
    var r := Relocate(q);
    assert r.moves == p.moves + [r.moves[k]];
    OneMorePick(start, p.moves, r.moves[k], los, his, q.lo, q.hi);
    RelocateIsSound(names, cfg, start, q);
  }

  lemma StopsHere(names: seq<Address>, cfg: seq<Address>, start: Shared, p: Plan, rate: nat, los: seq<nat>,
          his: seq<nat>, end: Plan)
    requires Going(names, cfg, start, p, rate, los, his, end)
    requires |p.moves| < rate ==>
      Gap(Scan(p)) <= 1 || Movable(p.sh.table, p.sh.members[Scan(p).hi].addr) == |p.sh.table|
    ensures Done(start, end.moves, los, his, rate)
  {
    var k := |p.moves|;
    if k < rate {
      LoopRound(p, k, rate);
      ScanPicks(p);
      if Gap(Scan(p)) > 1 { SpinsOn(p, k, rate, Loop(Scan(p), k + 1, rate).0, end); }
      assert Ends(p.sh, p.lo, p.hi);
    }
  }

  lemma {:induction false} TrailOn(names: seq<Address>, cfg: seq<Address>, start: Shared, p: Plan, rate: nat,
          los: seq<nat>, his: seq<nat>, end: Plan)
    returns (los': seq<nat>, his': seq<nat>)
    requires Going(names, cfg, start, p, rate, los, his, end)
    ensures Done(start, end.moves, los', his', rate)
    decreases rate - |p.moves|
  {
    var q := Scan(p);
    if |p.moves| < rate && Gap(q) > 1 && Movable(p.sh.table, p.sh.members[q.hi].addr) < |p.sh.table| {
      StepsOn(names, cfg, start, p, rate, los, his, end);
      los', his' := TrailOn(names, cfg, start, Relocate(q), rate, los + [q.lo], his + [q.hi], end);
    } else {
      StopsHere(names, cfg, start, p, rate, los, his, end);
      los', his' := los, his;
    }
  }

  /** Every BALANCE message, move by move: each move takes the first entry that may be moved
      from the richest member to the poorest, on the table and counts that the moves before it
      leave; among equals the member picked before, else the first, is picked. It ends at the
      rate, or when the counts are level, or when the richest has nothing to give. */
  lemma MessageTargets(names: seq<Address>, cfg: seq<Address>, sh: Shared, rate: nat)
    returns (los: seq<nat>, his: seq<nat>)
    requires Serving(names, cfg, sh) && BalanceMessage(sh, rate).Some?
    ensures Done(sh, BalanceMessage(sh, rate).value.1, los, his, rate)
  {
    var p := Plan(sh, 0, 0, []);
    assert Trail(sh, [], [0], [0]);
    los, his := TrailOn(names, cfg, sh, p, rate, [0], [0], Loop(p, 0, rate).1);
  }

  /** There is no message exactly if there was a round to make and no two counts differ by more
      than one. */
  lemma NoMessageIff(sh: Shared, rate: nat)
    requires |sh.members| >= 1
    ensures BalanceMessage(sh, rate) == None
      <==> rate > 0 && forall i, k | 0 <= i < |sh.members| && 0 <= k < |sh.members| ::
        sh.members[i].num <= sh.members[k].num + 1
  {
    var p := Plan(sh, 0, 0, []);
    if rate > 0 {
      LoopRound(p, 0, rate);
      if Gap(Scan(p)) > 1 {
        HeaderAtLeast(Relocate(Scan(p)), 1, rate);
        assert sh.members[Scan(p).hi].num > sh.members[Scan(p).lo].num + 1;
      }
    }
  }

  lemma {:induction false} HeaderAtLeast(p: Plan, k: nat, rate: nat)
    requires Indexed(p) && k <= rate
    ensures Loop(p, k, rate).0 >= k
    decreases rate - k
  {
    if k < rate && Gap(Scan(p)) > 1 { HeaderAtLeast(Relocate(Scan(p)), k + 1, rate); }
  }
}
