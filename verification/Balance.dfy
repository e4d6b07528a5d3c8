/** The rebalancing plan that the first member of a view draws up, the BALANCE message it
    becomes, and what replaying that message does at every member. */
module Balancing {
  import opened Tables
  import opened Protocol
  import opened Handout
  import opened Moves

  /** The working copies of table and counts, the two member indices that persist from one
      iteration to the next, and the moves written so far. */
  datatype Plan = Plan(sh: Shared, lo: nat, hi: nat, moves: seq<Move>)

  predicate Indexed(p: Plan) { p.lo < |p.sh.members| && p.hi < |p.sh.members| }

  /** The running minimum after looking at the first i members: the start, unless someone has
      less, and then the first of those with the least. */
  function ScanMin(members: seq<Member>, start: nat, i: nat): (m: nat)
    requires start < |members| && i <= |members|
    ensures m < |members| && members[m].num <= members[start].num
    ensures forall k | 0 <= k < i :: members[m].num <= members[k].num
  {
    if i == 0 then start
    else
      var m := ScanMin(members, start, i - 1);
      if members[i - 1].num < members[m].num then i - 1 else m
  }

  function ScanMax(members: seq<Member>, start: nat, i: nat): (m: nat)
    requires start < |members| && i <= |members|
    ensures m < |members| && members[m].num >= members[start].num
    ensures forall k | 0 <= k < i :: members[m].num >= members[k].num
  {
    if i == 0 then start
    else
      var m := ScanMax(members, start, i - 1);
      if members[i - 1].num > members[m].num then i - 1 else m
  }

  function Scan(p: Plan): (r: Plan)
    requires Indexed(p)
    ensures Indexed(r) && r.sh == p.sh && r.moves == p.moves
    ensures forall k | 0 <= k < |p.sh.members| ::
      p.sh.members[r.lo].num <= p.sh.members[k].num <= p.sh.members[r.hi].num
  {
    p.(lo := ScanMin(p.sh.members, p.lo, |p.sh.members|), hi := ScanMax(p.sh.members, p.hi, |p.sh.members|))
  }

  function Gap(p: Plan): int
    requires Indexed(p)
  {
    p.sh.members[p.hi].num - p.sh.members[p.lo].num
  }

  /** The first entry that a owns and that may be moved, or the length of the table. */
  function Movable(table: seq<Entry>, a: Address): (j: nat)
    ensures j <= |table|
    ensures j < |table| ==> table[j].owner == a && table[j].prio < PREFER
    ensures forall i | 0 <= i < j :: !(table[i].owner == a && table[i].prio < PREFER)
  {
    if table == [] then 0
    else if table[0].owner == a && table[0].prio < PREFER then 0
    else 1 + Movable(table[1..], a)
  }

  /** Take one unit from member hi and give it to member lo, in this order of updates. */
  function Shift(members: seq<Member>, lo: nat, hi: nat): (r: seq<Member>)
    requires lo < |members| && hi < |members|
    ensures |r| == |members|
  {
    var up := members[lo := members[lo].(num := members[lo].num + 1)];
    up[hi := up[hi].(num := up[hi].num - 1)]
  }

  /** One move of a scanned plan, if the richest member has an entry that may be moved. */
  function Relocate(p: Plan): (r: Plan)
    requires Indexed(p)
    ensures Indexed(r) && |r.sh.members| == |p.sh.members| && |r.sh.table| == |p.sh.table|
  {
    var j := Movable(p.sh.table, p.sh.members[p.hi].addr);
    if j == |p.sh.table| then p
    else
      var target := p.sh.members[p.lo].addr;
      p.(sh := Shared(p.sh.table[j := p.sh.table[j].(owner := target)], Shift(p.sh.members, p.lo, p.hi)),
         moves := p.moves + [Move(target, p.sh.table[j].pseudo)])
  }

  /** The loop of Balance from iteration k on: the header it writes and the final plan. */
  function Loop(p: Plan, k: nat, rate: nat): (r: (nat, Plan))
    requires Indexed(p) && k <= rate
    ensures Indexed(r.1) && r.0 <= rate && |r.1.sh.members| == |p.sh.members| && |r.1.sh.table| == |p.sh.table|
    decreases rate - k
  {
    if k == rate then (rate, p)
    else
      var q := Scan(p);
      if Gap(q) <= 1 then (k, q) else Loop(Relocate(q), k + 1, rate)
  }

  lemma LoopRound(p: Plan, k: nat, rate: nat)
    requires Indexed(p) && k < rate
    ensures Loop(p, k, rate) == if Gap(Scan(p)) <= 1 then (k, Scan(p)) else Loop(Relocate(Scan(p)), k + 1, rate)
  {}

  /** The BALANCE message: none if the very first look finds nothing to do. */
  function BalanceMessage(sh: Shared, rate: nat): (r: Option<(nat, seq<Move>)>)
    requires |sh.members| >= 1
  {
    var (header, p) := Loop(Plan(sh, 0, 0, []), 0, rate);
    if header == 0 && rate > 0 then None else Some((header, p.moves))
  }

  // ----- the header counts the moves -----

  /** Scanning a scanned plan changes nothing. */
  lemma ScanAgain(p: Plan)
    requires Indexed(p)
    ensures Gap(Scan(Scan(p))) == Gap(Scan(p)) && Scan(Scan(p)).sh == Scan(p).sh
    ensures p.sh.members[Scan(Scan(p)).hi].num == p.sh.members[Scan(p).hi].num
    ensures Scan(Scan(p)) == Scan(p)
  {
    ScanMinStays(p.sh.members, Scan(p).lo, |p.sh.members|);
    ScanMaxStays(p.sh.members, Scan(p).hi, |p.sh.members|);
  }

  lemma {:induction false} ScanMinStays(members: seq<Member>, start: nat, i: nat)
    requires start < |members| && i <= |members|
    requires forall k | 0 <= k < |members| :: members[start].num <= members[k].num
    ensures ScanMin(members, start, i) == start
  {
    if i > 0 { ScanMinStays(members, start, i - 1); }
  }

  lemma {:induction false} ScanMaxStays(members: seq<Member>, start: nat, i: nat)
    requires start < |members| && i <= |members|
    requires forall k | 0 <= k < |members| :: members[start].num >= members[k].num
    ensures ScanMax(members, start, i) == start
  {
    if i > 0 { ScanMaxStays(members, start, i - 1); }
  }

  /** If the richest member owns nothing that may be moved, the loop spins without moving. */
  lemma {:induction false} StuckStays(q: Plan, k: nat, rate: nat)
    requires Indexed(q) && k <= rate && Scan(q) == q && Gap(q) > 1 && Relocate(q) == q
    ensures Loop(q, k, rate) == (rate, q)
    decreases rate - k
  {
    if k < rate { StuckStays(q, k + 1, rate); }
  }

  lemma SpinsOn(p: Plan, k: nat, rate: nat, header: nat, end: Plan)
    requires Indexed(p) && k < rate && Gap(Scan(p)) > 1 && Relocate(Scan(p)) == Scan(p)
    requires Loop(Scan(p), k + 1, rate) == (header, end)
    ensures header == rate && end == Scan(p)
  {
    ScanAgain(p);
    StuckStays(Scan(p), k + 1, rate);
  }

  lemma PinnedServes()
    ensures Serving([7, 8], [1, 2], Shared([Entry(1, 7, PREFER_CLAIMED), Entry(2, 7, PREFER_CLAIMED)],
                                           [Member(7, 2, true), Member(8, 0, true)]))
  {
    var (names, table) := ([7, 8], [Entry(1, 7, PREFER_CLAIMED), Entry(2, 7, PREFER_CLAIMED)]);
    assert OwnedSet(table, 7) == {0, 1} && OwnedSet(table, 8) == {};
    assert names[0] == 7;
  }

  /** Two members, the richer with two PREFER_CLAIMED entries: nothing may be moved, and
      the message announces one move but carries none. */
  lemma HeaderWithoutMoves()
    ensures var sh := Shared([Entry(1, 7, PREFER_CLAIMED), Entry(2, 7, PREFER_CLAIMED)],
                             [Member(7, 2, true), Member(8, 0, true)]);
      Serving([7, 8], [1, 2], sh) && BalanceMessage(sh, 1) == Some((1, []))
  {
    PinnedServes();
    var sh := Shared([Entry(1, 7, PREFER_CLAIMED), Entry(2, 7, PREFER_CLAIMED)],
                     [Member(7, 2, true), Member(8, 0, true)]);
    var q := Scan(Plan(sh, 0, 0, []));
    assert ScanMin(sh.members, 0, 1) == 0 && ScanMax(sh.members, 0, 1) == 0;
    assert q.lo == 1 && q.hi == 0;
    assert Movable(sh.table[1..], 7) == 1 by { assert sh.table[1..][1..] == []; }
    assert Movable(sh.table, 7) == 2;
    assert Loop(q, 1, 1) == (1, q);
  }

  // ----- the plan on a table in service -----

  predicate AllMovable(table: seq<Entry>) { forall j | 0 <= j < |table| :: table[j].prio < PREFER }

  /** A plan under way: its table is in service, and replaying its moves on the original
      table would give exactly this table and these counts. */
  predicate Sound(names: seq<Address>, cfg: seq<Address>, start: Shared, p: Plan) {
    && Indexed(p) && Serving(names, cfg, p.sh) && GoodMoves(names, start, p.moves) && ShareMoves(start, p.moves) == p.sh
  }

  lemma ShiftIsRecredit(names: seq<Address>, sh: Shared, lo: nat, hi: nat)
    requires Distinct(names) && Counted(names, sh) && lo < |names| && hi < |names| && lo != hi
    ensures Shift(sh.members, lo, hi) == Recredit(sh.members, names[hi], names[lo])
  {
    forall k | 0 <= k < |names|
      ensures Shift(sh.members, lo, hi)[k] == Recredit(sh.members, names[hi], names[lo])[k]
    {
      assert sh.members[k].addr == names[k];
    }
  }

  /** A relocation is one good move. */
  lemma RelocateIsMove(names: seq<Address>, cfg: seq<Address>, q: Plan)
    requires Indexed(q) && Serving(names, cfg, q.sh) && Gap(q) > 1
    requires Movable(q.sh.table, q.sh.members[q.hi].addr) < |q.sh.table|
    ensures var mv := Move(names[q.lo], q.sh.table[Movable(q.sh.table, names[q.hi])].pseudo);
      GoodMove(names, q.sh, mv) && Relocate(q) == q.(sh := ShareMove(q.sh, mv), moves := q.moves + [mv])
  {
    assert q.sh.members[q.hi].addr == names[q.hi] && q.sh.members[q.lo].addr == names[q.lo];
    var j := Movable(q.sh.table, names[q.hi]);
    FindsItself(q.sh.table, cfg, j);
    ShiftIsRecredit(names, q.sh, q.lo, q.hi);
  }

  lemma OneMoreMove(names: seq<Address>, start: Shared, moves: seq<Move>, mv: Move)
    requires GoodMoves(names, start, moves) && GoodMove(names, ShareMoves(start, moves), mv)
    ensures GoodMoves(names, start, moves + [mv])
    ensures ShareMoves(start, moves + [mv]) == ShareMove(ShareMoves(start, moves), mv)
  {
    assert (moves + [mv])[..|moves|] == moves;
  }

  lemma RelocateIsSound(names: seq<Address>, cfg: seq<Address>, start: Shared, q: Plan)
    requires Sound(names, cfg, start, q) && Gap(q) > 1
    ensures Sound(names, cfg, start, Relocate(q))
  {
    if Movable(q.sh.table, q.sh.members[q.hi].addr) < |q.sh.table| {
      RelocateIsMove(names, cfg, q);
      var mv := Move(names[q.lo], q.sh.table[Movable(q.sh.table, names[q.hi])].pseudo);
      MoveServes(names, cfg, q.sh, mv);
      OneMoreMove(names, start, q.moves, mv);
    }
  }

  /** Replaying the message on the table it was planned for gives, at every member, the
      planner's final working copy: same owners, same counts. Every move in it is good,
      though an entry may move twice. */
  lemma {:induction false} ReplayIsPlan(names: seq<Address>, cfg: seq<Address>, start: Shared, p: Plan, k: nat,
          rate: nat)
    requires Sound(names, cfg, start, p) && k <= rate
    ensures Sound(names, cfg, start, Loop(p, k, rate).1)
    decreases rate - k
  {
    if k < rate {
      var q := Scan(p);
      if Gap(q) > 1 {
        RelocateIsSound(names, cfg, start, q);
        ReplayIsPlan(names, cfg, start, Relocate(q), k + 1, rate);
      }
    }
  }

  /** If every entry may be moved, the richest member has one to give. */
  lemma RichCanMove(names: seq<Address>, cfg: seq<Address>, q: Plan)
    requires Indexed(q) && Serving(names, cfg, q.sh) && AllMovable(q.sh.table) && Gap(q) > 1
    ensures Movable(q.sh.table, q.sh.members[q.hi].addr) < |q.sh.table|
  {
    var own := OwnedSet(q.sh.table, names[q.hi]);
    assert q.sh.members[q.hi] == Member(names[q.hi], |own|, true);
    assert q.sh.members[q.lo] == Member(names[q.lo], |OwnedSet(q.sh.table, names[q.lo])|, true);
    assert own != {};
    var j :| j in own;
  }

  lemma RelocateMovesOne(names: seq<Address>, cfg: seq<Address>, q: Plan)
    requires Indexed(q) && Serving(names, cfg, q.sh) && AllMovable(q.sh.table) && Gap(q) > 1
    ensures |Relocate(q).moves| == |q.moves| + 1 && AllMovable(Relocate(q).sh.table)
  {
    RichCanMove(names, cfg, q);
  }

  lemma {:induction false} HeaderCountsMoves(names: seq<Address>, cfg: seq<Address>, start: Shared, p: Plan, k: nat,
          rate: nat)
    requires Sound(names, cfg, start, p) && AllMovable(p.sh.table) && k <= rate && |p.moves| == k
    ensures Loop(p, k, rate).0 == |Loop(p, k, rate).1.moves|
    decreases rate - k
  {
    if k < rate {
      var q := Scan(p);
      if Gap(q) > 1 {
        RelocateMovesOne(names, cfg, q);
        RelocateIsSound(names, cfg, start, q);
        HeaderCountsMoves(names, cfg, start, Relocate(q), k + 1, rate);
      }
    }
  }

  // ----- the exact condition for the header -----

  /** The entries of a that may not be moved. */
  function Pinned(table: seq<Entry>, a: Address): set<nat> {
    set j: nat | j < |table| && table[j].owner == a && table[j].prio >= PREFER
  }

  function Pins(table: seq<Entry>, names: seq<Address>): (r: seq<nat>)
    ensures |r| == |names| && forall k | 0 <= k < |r| :: r[k] == |Pinned(table, names[k])|
  {
    seq(|names|, k requires 0 <= k < |names| => |Pinned(table, names[k])|)
  }

  /** What the loop would make of the counts if every entry could be moved. */
  function LevelCounts(members: seq<Member>, lo: nat, hi: nat, k: nat, rate: nat): (r: seq<Member>)
    requires lo < |members| && hi < |members| && k <= rate
    ensures |r| == |members|
    decreases rate - k
  {
    var (l, h) := (ScanMin(members, lo, |members|), ScanMax(members, hi, |members|));
    if k == rate || members[h].num - members[l].num <= 1 then members
    else LevelCounts(Shift(members, l, h), l, h, k + 1, rate)
  }

  /** Whenever it is a member's turn to give, the member has an entry that may be moved. */
  predicate CanGive(members: seq<Member>, pins: seq<nat>, lo: nat, hi: nat, k: nat, rate: nat)
    requires lo < |members| == |pins| && hi < |members| && k <= rate
    decreases rate - k
  {
    var (l, h) := (ScanMin(members, lo, |members|), ScanMax(members, hi, |members|));
    k == rate || members[h].num - members[l].num <= 1
    || (members[h].num > pins[h] && CanGive(Shift(members, l, h), pins, l, h, k + 1, rate))
  }

  predicate Above(members: seq<Member>, pins: seq<nat>)
    requires |members| == |pins|
  {
    forall i | 0 <= i < |members| :: members[i].num >= pins[i]
  }

  lemma ShiftAt(members: seq<Member>, l: nat, h: nat, i: nat)
    requires l < |members| && h < |members| && l != h && i < |members|
    ensures Shift(members, l, h)[i].num == members[i].num + (if i == l then 1 else 0) - (if i == h then 1 else 0)
  {}

  /** A member within one of the fullest never receives anything. */
  lemma {:induction false} GiversDoNotReceive(members: seq<Member>, lo: nat, hi: nat, k: nat, rate: nat, i: nat)
    requires lo < |members| && hi < |members| && k <= rate && i < |members|
    requires forall x | 0 <= x < |members| :: members[i].num >= members[x].num - 1
    ensures LevelCounts(members, lo, hi, k, rate)[i].num <= members[i].num
    decreases rate - k
  {
    var (l, h) := (ScanMin(members, lo, |members|), ScanMax(members, hi, |members|));
    if k < rate && members[h].num - members[l].num > 1 {
      var m := Shift(members, l, h);
      forall x | 0 <= x < |m| ensures m[i].num >= m[x].num - 1 {
        ShiftAt(members, l, h, i);
        ShiftAt(members, l, h, x);
      }
      GiversDoNotReceive(m, l, h, k + 1, rate, i);
      ShiftAt(members, l, h, i);
    }
  }

  /** Every giver can give exactly if no member is levelled below what it may not move. */
  lemma {:induction false} CanGiveIff(members: seq<Member>, pins: seq<nat>, lo: nat, hi: nat, k: nat, rate: nat)
    requires lo < |members| == |pins| && hi < |members| && k <= rate && Above(members, pins)
    ensures CanGive(members, pins, lo, hi, k, rate) <==> Above(LevelCounts(members, lo, hi, k, rate), pins)
    decreases rate - k
  {
    var (l, h) := (ScanMin(members, lo, |members|), ScanMax(members, hi, |members|));
    if k < rate && members[h].num - members[l].num > 1 {
      var m := Shift(members, l, h);
      forall i | 0 <= i < |m|
        ensures m[i].num == members[i].num + (if i == l then 1 else 0) - (if i == h then 1 else 0)
      {
        ShiftAt(members, l, h, i);
      }
      if members[h].num > pins[h] {
        CanGiveIff(m, pins, l, h, k + 1, rate);
      } else {
        GiversDoNotReceive(m, l, h, k + 1, rate, h);
      }
    }
  }

  lemma CanMoveIff(names: seq<Address>, cfg: seq<Address>, q: Plan)
    requires Indexed(q) && Serving(names, cfg, q.sh)
    ensures Movable(q.sh.table, q.sh.members[q.hi].addr) < |q.sh.table|
      <==> q.sh.members[q.hi].num > |Pinned(q.sh.table, names[q.hi])|
  {
    var a := names[q.hi];
    assert q.sh.members[q.hi] == Member(a, |OwnedSet(q.sh.table, a)|, true);
    var (own, pinned, j) := (OwnedSet(q.sh.table, a), Pinned(q.sh.table, a), Movable(q.sh.table, a));
    SubsetSize(pinned, own);
    if j < |q.sh.table| {
      assert j in own && j !in pinned;
    } else {
      assert own == pinned;
    }
  }

  /** The counts of a table in service are at least what is pinned. */
  lemma CountsAbovePins(names: seq<Address>, cfg: seq<Address>, sh: Shared)
    requires Serving(names, cfg, sh)
    ensures Above(sh.members, Pins(sh.table, names))
  {
    forall i | 0 <= i < |names| ensures sh.members[i].num >= Pins(sh.table, names)[i] {
      assert sh.members[i] == Member(names[i], |OwnedSet(sh.table, names[i])|, true);
      SubsetSize(Pinned(sh.table, names[i]), OwnedSet(sh.table, names[i]));
    }
  }

  lemma PinnedStays(table: seq<Entry>, j: nat, target: Address, a: Address)
    requires j < |table| && table[j].prio < PREFER
    ensures Pinned(table[j := table[j].(owner := target)], a) == Pinned(table, a)
  {}

  /** A relocation moves no pinned entry. */
  lemma PinsStay(names: seq<Address>, q: Plan)
    requires Indexed(q)
    ensures Pins(Relocate(q).sh.table, names) == Pins(q.sh.table, names)
  {
    var j := Movable(q.sh.table, q.sh.members[q.hi].addr);
    forall k | 0 <= k < |names| ensures Pins(Relocate(q).sh.table, names)[k] == Pins(q.sh.table, names)[k] {
      if j < |q.sh.table| { PinnedStays(q.sh.table, j, q.sh.members[q.lo].addr, names[k]); }
    }
  }

  /** The header is right from iteration k on: what it adds is what the moves add. */
  predicate HeaderRight(p: Plan, k: nat, header: nat, end: Plan) { header - k == |end.moves| - |p.moves| }

  lemma OneGives(names: seq<Address>, cfg: seq<Address>, p: Plan)
    requires Indexed(p) && Serving(names, cfg, p.sh) && Gap(Scan(p)) > 1
    requires Movable(p.sh.table, p.sh.members[Scan(p).hi].addr) < |p.sh.table|
    ensures var (q, r) := (Scan(p), Relocate(Scan(p)));
      && Serving(names, cfg, r.sh) && |r.moves| == |p.moves| + 1 && r.lo == q.lo && r.hi == q.hi
      && r.sh.members == Shift(p.sh.members, q.lo, q.hi)
  {
    var q := Scan(p);
    RelocateIsMove(names, cfg, q);
    MoveServes(names, cfg, q.sh, Move(names[q.lo], q.sh.table[Movable(q.sh.table, names[q.hi])].pseudo));
  }

  /** What one round does: it moves one entry if the richest member is above its pins, and
      otherwise leaves the plan as it is. */
  predicate Gives(good: Plan -> bool, pins: seq<nat>, p: Plan) {
    Indexed(p) && good(p) && Gap(Scan(p)) > 1 ==>
      var (q, r) := (Scan(p), Relocate(Scan(p)));
      && |p.sh.members| == |pins|
      && if p.sh.members[q.hi].num > pins[q.hi] then
           && good(r) && |r.moves| == |p.moves| + 1 && r.lo == q.lo && r.hi == q.hi
           && r.sh.members == Shift(p.sh.members, q.lo, q.hi)
         else r == q
  }

  /** The loop from p on, at iteration k, ends with this header and this plan. */
  predicate EndsWith(p: Plan, pins: seq<nat>, k: nat, rate: nat, header: nat, end: Plan) {
    Indexed(p) && k <= rate && |p.sh.members| == |pins| && Loop(p, k, rate) == (header, end)
  }

  predicate RightIff(p: Plan, pins: seq<nat>, k: nat, rate: nat, header: nat, end: Plan) {
    && EndsWith(p, pins, k, rate, header, end)
    && (HeaderRight(p, k, header, end) <==> CanGive(p.sh.members, pins, p.lo, p.hi, k, rate))
  }

  lemma HeaderAtEnd(p: Plan, pins: seq<nat>, k: nat, rate: nat, header: nat, end: Plan)
    requires EndsWith(p, pins, k, rate, header, end) && (k == rate || Gap(Scan(p)) <= 1)
    ensures RightIff(p, pins, k, rate, header, end)
  {}

  lemma HeaderStuck(p: Plan, pins: seq<nat>, k: nat, rate: nat, header: nat, end: Plan)
    requires EndsWith(p, pins, k, rate, header, end) && k < rate && Gap(Scan(p)) > 1
    requires Relocate(Scan(p)) == Scan(p) && p.sh.members[Scan(p).hi].num <= pins[Scan(p).hi]
    ensures RightIff(p, pins, k, rate, header, end)
  {
    CanGiveRound(p, pins, k, rate);
    LoopRound(p, k, rate);
    SpinsOn(p, k, rate, header, end);
  }

  lemma HeaderGiven(p: Plan, r: Plan, pins: seq<nat>, k: nat, rate: nat, header: nat, end: Plan)
    requires EndsWith(p, pins, k, rate, header, end) && k < rate && Gap(Scan(p)) > 1 && r == Relocate(Scan(p))
    requires p.sh.members[Scan(p).hi].num > pins[Scan(p).hi]
    requires |r.moves| == |p.moves| + 1 && r.lo == Scan(p).lo && r.hi == Scan(p).hi
    requires r.sh.members == Shift(p.sh.members, r.lo, r.hi)
    ensures EndsWith(r, pins, k + 1, rate, header, end)
    ensures RightIff(r, pins, k + 1, rate, header, end) ==> RightIff(p, pins, k, rate, header, end)
  {
    CanGiveRound(p, pins, k, rate);
    LoopRound(p, k, rate);
  }

  ghost predicate AllGive(good: Plan -> bool, pins: seq<nat>) { forall q: Plan :: Gives(good, pins, q) }

  /** Either nothing is given from here on, or one entry is. */
  lemma HeaderNext(good: Plan -> bool, pins: seq<nat>, p: Plan, k: nat, rate: nat, header: nat, end: Plan)
    returns (more: bool, r: Plan)
    requires EndsWith(p, pins, k, rate, header, end) && good(p) && AllGive(good, pins)
    ensures !more ==> RightIff(p, pins, k, rate, header, end)
    ensures more ==> k < rate && good(r) && EndsWith(r, pins, k + 1, rate, header, end)
    ensures more && RightIff(r, pins, k + 1, rate, header, end) ==> RightIff(p, pins, k, rate, header, end)
  {
    var q := Scan(p);
    assert Gives(good, pins, p);
    more, r := false, p;
    if k == rate || Gap(q) <= 1 {
      HeaderAtEnd(p, pins, k, rate, header, end);
    } else if p.sh.members[q.hi].num > pins[q.hi] {
      more, r := true, Relocate(q);
      HeaderGiven(p, r, pins, k, rate, header, end);
    } else {
      HeaderStuck(p, pins, k, rate, header, end);
    }
  }

  lemma {:induction false} HeaderFrom(good: Plan -> bool, pins: seq<nat>, p: Plan, k: nat, rate: nat, header: nat,
          end: Plan)
    requires EndsWith(p, pins, k, rate, header, end) && good(p) && AllGive(good, pins)
    ensures RightIff(p, pins, k, rate, header, end)
    decreases rate - k
  {
    var more, r := HeaderNext(good, pins, p, k, rate, header, end);
    if more {
      HeaderFrom(good, pins, r, k + 1, rate, header, end);
      assert RightIff(r, pins, k + 1, rate, header, end);
    }
  }

  lemma CanGiveRound(p: Plan, pins: seq<nat>, k: nat, rate: nat)
    requires Indexed(p) && |p.sh.members| == |pins| && k < rate && Gap(Scan(p)) > 1
    ensures var (q, c) := (Scan(p), p.sh.members);
      CanGive(c, pins, p.lo, p.hi, k, rate)
      == (c[q.hi].num > pins[q.hi] && CanGive(Shift(c, q.lo, q.hi), pins, q.lo, q.hi, k + 1, rate))
  {}

  lemma RoundGives(names: seq<Address>, cfg: seq<Address>, pins: seq<nat>, p: Plan)
    requires Indexed(p) && Serving(names, cfg, p.sh) && Pins(p.sh.table, names) == pins && Gap(Scan(p)) > 1
    ensures var (q, r) := (Scan(p), Relocate(Scan(p)));
      && |p.sh.members| == |pins|
      && if p.sh.members[q.hi].num > pins[q.hi] then
           && Serving(names, cfg, r.sh) && Pins(r.sh.table, names) == pins
           && |r.moves| == |p.moves| + 1 && r.lo == q.lo && r.hi == q.hi
           && r.sh.members == Shift(p.sh.members, q.lo, q.hi)
         else r == q
  {
    var q := Scan(p);
    CanMoveIff(names, cfg, q);
    if p.sh.members[q.hi].num > pins[q.hi] {
      OneGives(names, cfg, p);
      PinsStay(names, q);
    }
  }

  /** The header of a BALANCE message is the number of its moves if and only if levelling the
      counts, as if every entry could be moved, leaves each member with at least the entries
      that may not be moved: PREFER_CLAIMED ones. */
  lemma HeaderIff(names: seq<Address>, cfg: seq<Address>, sh: Shared, rate: nat)
    requires Serving(names, cfg, sh) && BalanceMessage(sh, rate).Some?
    ensures var (header, moves) := BalanceMessage(sh, rate).value;
      header == |moves| <==> Above(LevelCounts(sh.members, 0, 0, 0, rate), Pins(sh.table, names))
  {
    var (p, pins) := (Plan(sh, 0, 0, []), Pins(sh.table, names));
    var good := (q: Plan) => Serving(names, cfg, q.sh) && Pins(q.sh.table, names) == pins;
    forall q: Plan ensures Gives(good, pins, q) {
      if Indexed(q) && good(q) && Gap(Scan(q)) > 1 { RoundGives(names, cfg, pins, q); }
    }
    HeaderFrom(good, pins, p, 0, rate, Loop(p, 0, rate).0, Loop(p, 0, rate).1);
    assert RightIff(p, pins, 0, rate, Loop(p, 0, rate).0, Loop(p, 0, rate).1);
    CountsAbovePins(names, cfg, sh);
    CanGiveIff(sh.members, Pins(sh.table, names), 0, 0, 0, rate);
  }

  /** A BALANCE message planned on a table in service: its moves are good, and if no entry
      is beyond PREFER its header is the number of its moves. */
  lemma MessageIsGood(names: seq<Address>, cfg: seq<Address>, sh: Shared, rate: nat)
    requires Serving(names, cfg, sh) && BalanceMessage(sh, rate).Some?
    ensures GoodMoves(names, sh, BalanceMessage(sh, rate).value.1)
    ensures AllMovable(sh.table) ==> BalanceMessage(sh, rate).value.0 == |BalanceMessage(sh, rate).value.1|
  {
    var p := Plan(sh, 0, 0, []);
    assert Sound(names, cfg, sh, p);
    ReplayIsPlan(names, cfg, sh, p, 0, rate);
    if AllMovable(sh.table) { HeaderCountsMoves(names, cfg, sh, p, 0, rate); }
  }

  /** With two BALANCE messages in flight the second repeats the moves of the first: a node
      that gained an entry by the first takes it down again, though the table gives it to
      that node. */
  lemma TwiceIsTooMuch()
    ensures var table := [Entry(1, 8, CLAIMED)];
      var lo := Local(table, {0}, 1, multiset{});
      Holds(lo, table, 8) && !Holds(LocalMove(lo, 8, table, Move(8, 1)), table, 8)
  {
    var table := [Entry(1, 8, CLAIMED)];
    assert Find(table, 1) == 0;
    MoveKeepsHoldsIff(Local(table, {0}, 1, multiset{}), 8, table, Move(8, 1));
    assert OwnedSet(table, 8) == {0};
    assert table[0 := table[0].(owner := 8)] == table;
  }
}
