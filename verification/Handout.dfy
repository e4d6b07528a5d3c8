/** Who ends up holding what when a gather settles. */
module Handout {
  import opened Tables
  import opened Protocol
  import opened Gather
  import opened Contest
  import opened Roster
  import opened Settle

  predicate Counted(names: seq<Address>, sh: Shared) {
    && |sh.members| == |names| >= 1
    && forall k | 0 <= k < |names| :: sh.members[k] == Member(names[k], |OwnedSet(sh.table, names[k])|, true)
  }

  predicate Vacant(e: Entry) { e.owner == 0 && e.prio == UNCLAIMED }

  predicate Placed(names: seq<Address>, e: Entry) { e.owner in names && Managed(e.prio) }

  /** A table in service: every entry is managed by some member, every count is right. */
  predicate Serving(names: seq<Address>, cfg: seq<Address>, sh: Shared) {
    && Distinct(names) && Distinct(cfg) && Wears(sh.table, cfg) && Counted(names, sh)
    && forall j | 0 <= j < |cfg| :: Placed(names, sh.table[j])
  }

  /** Claim_unclaimed after i entries: those are placed, the others as before. */
  predicate HandedOut(names: seq<Address>, cfg: seq<Address>, base: Shared, sh: Shared, i: nat) {
    && Wears(sh.table, cfg) && Counted(names, sh) && i <= |cfg| == |base.table|
    && (forall j | 0 <= j < i :: Placed(names, sh.table[j]))
    && (forall j | i <= j < |cfg| :: sh.table[j] == base.table[j])
  }

  /** Giving a vacant entry to a member changes the set of that member only. */
  lemma GiveSets(sh: Shared, j: nat, m: nat, a: Address)
    requires j < |sh.table| && m < |sh.members| && sh.table[j].owner == 0 && sh.members[m].addr != 0 && a != 0
    ensures OwnedSet(Give(sh, j, m).table, a)
      == OwnedSet(sh.table, a) + (if sh.members[m].addr == a then {j} else {})
    ensures j !in OwnedSet(sh.table, a)
  {}

  lemma GiveCounts(names: seq<Address>, sh: Shared, j: nat, m: nat)
    requires Distinct(names) && Counted(names, sh) && j < |sh.table| && m < |names| && sh.table[j].owner == 0
    ensures Counted(names, Give(sh, j, m))
  {
    forall k | 0 <= k < |names|
      ensures Give(sh, j, m).members[k] == Member(names[k], |OwnedSet(Give(sh, j, m).table, names[k])|, true)
    {
      GiveSets(sh, j, m, names[k]);
    }
  }

  predicate Ready(names: seq<Address>, cfg: seq<Address>, base: Shared) {
    && Distinct(names) && Counted(names, base) && Wears(base.table, cfg)
    && forall j | 0 <= j < |cfg| :: Vacant(base.table[j]) || Placed(names, base.table[j])
  }

  lemma GiveStep(names: seq<Address>, cfg: seq<Address>, base: Shared, sh: Shared, i: nat)
    requires Ready(names, cfg, base) && i < |cfg| && HandedOut(names, cfg, base, sh, i)
    ensures HandedOut(names, cfg, base, GiveUnclaimed(sh, i), i + 1)
  {
    assert sh.table[i] == base.table[i];
    if sh.table[i].prio == UNCLAIMED {
      var m := Poorest(sh.members, |sh.members|);
      GiveCounts(names, sh, i, m);
      assert sh.members[m].addr == names[m];
    } else {
      assert Placed(names, base.table[i]);
    }
  }

  /** Claim_unclaimed places the vacant entries one by one and keeps every count right. */
  lemma {:induction false} HandoutFacts(names: seq<Address>, cfg: seq<Address>, base: Shared, i: nat)
    requires Ready(names, cfg, base) && i <= |cfg|
    ensures HandedOut(names, cfg, base, ShareUnclaimed(base, i), i)
  {
    if i > 0 {
      HandoutFacts(names, cfg, base, i - 1);
      GiveStep(names, cfg, base, ShareUnclaimed(base, i - 1), i - 1);
    }
  }

  // ----- with counts that may be wrong -----

  /** Where Claim_unclaimed starts from, leaving the counts open. */
  predicate Begins(names: seq<Address>, cfg: seq<Address>, sh: Shared) {
    && Distinct(names) && |names| >= 1 && |sh.members| == |names| && Wears(sh.table, cfg)
    && (forall k | 0 <= k < |names| :: sh.members[k].addr == names[k] && sh.members[k].got)
    && (forall j | 0 <= j < |cfg| :: Vacant(sh.table[j]) || Placed(names, sh.table[j]))
  }

  /** After i entries: those are placed, the others as before. */
  predicate HalfWay(names: seq<Address>, cfg: seq<Address>, base: Shared, sh: Shared, i: nat) {
    && Begins(names, cfg, sh) && i <= |cfg| == |base.table|
    && (forall j | 0 <= j < i :: Placed(names, sh.table[j]))
    && (forall j | i <= j < |cfg| :: sh.table[j] == base.table[j])
    && (forall j | 0 <= j < |cfg| && base.table[j].prio != UNCLAIMED :: sh.table[j] == base.table[j])
  }

  lemma GiveGoesOn(names: seq<Address>, cfg: seq<Address>, base: Shared, sh: Shared, i: nat)
    requires Begins(names, cfg, base) && i < |cfg| && HalfWay(names, cfg, base, sh, i)
    ensures HalfWay(names, cfg, base, GiveUnclaimed(sh, i), i + 1)
  {
    assert sh.table[i] == base.table[i];
    if sh.table[i].prio == UNCLAIMED {
      var m := Poorest(sh.members, |sh.members|);
      var r := GiveUnclaimed(sh, i);
      assert r.table[i].owner == names[m] && Placed(names, r.table[i]);
      forall j | 0 <= j < |cfg| ensures Vacant(r.table[j]) || Placed(names, r.table[j]) {
        if j != i { assert r.table[j] == sh.table[j]; }
      }
    }
  }

  lemma {:induction false} HandsOn(names: seq<Address>, cfg: seq<Address>, base: Shared, i: nat)
    requires Begins(names, cfg, base) && i <= |cfg|
    ensures HalfWay(names, cfg, base, ShareUnclaimed(base, i), i)
  {
    if i > 0 {
      HandsOn(names, cfg, base, i - 1);
      GiveGoesOn(names, cfg, base, ShareUnclaimed(base, i - 1), i - 1);
    }
  }

  // ----- what a node holds -----

  /** A node holds exactly what the table gives to address a, and counts it. */
  predicate Holds(lo: Local, table: seq<Entry>, a: Address) {
    lo.held == OwnedSet(table, a) && lo.num == |lo.held|
  }

  /** It holds and counts the entries in extra besides, which the table gives to others. */
  ghost predicate HoldsBesides(lo: Local, table: seq<Entry>, a: Address, extra: set<nat>) {
    && lo.num == |lo.held|
    && (forall j: nat :: j in lo.held <==> (j < |table| && table[j].owner == a) || j in extra)
    && (forall j: nat | j in extra && j < |table| :: table[j].owner != a)
  }

  lemma HoldsIff(lo: Local, table: seq<Entry>, a: Address, extra: set<nat>)
    requires HoldsBesides(lo, table, a, extra)
    ensures lo.held == OwnedSet(table, a) + extra
    ensures (forall j | j in extra :: j < |table|) ==> (Holds(lo, table, a) <==> extra == {})
  {
    assert lo.held == OwnedSet(table, a) + extra;
    if Holds(lo, table, a) && forall j | j in extra :: j < |table| {
      forall j: nat ensures j !in extra { assert j in extra ==> j in lo.held; }
    }
  }

  /** Holding nothing besides its own. */
  lemma HoldsNoOther(lo: Local, table: seq<Entry>, a: Address)
    ensures HoldsBesides(lo, table, a, {}) <==> Holds(lo, table, a)
  {
    if HoldsBesides(lo, table, a, {}) { assert lo.held == OwnedSet(table, a); }
  }

  predicate TakenUp(names: seq<Address>, cfg: seq<Address>, base: Shared, extra: set<nat>) {
    Begins(names, cfg, base) && forall j | j in extra :: j < |cfg| && base.table[j].prio != UNCLAIMED
  }

  lemma TakeStep(names: seq<Address>, cfg: seq<Address>, base: Shared, sh: Shared, lo: Local, index: nat, i: nat,
          extra: set<nat>)
    requires TakenUp(names, cfg, base, extra) && i < |cfg| && HalfWay(names, cfg, base, sh, i) && index < |names|
    requires HoldsBesides(lo, sh.table, names[index], extra)
    ensures HoldsBesides(TakeUnclaimed(lo, index, sh, i), GiveUnclaimed(sh, i).table, names[index], extra)
    ensures TakeUnclaimed(lo, index, sh, i).downs == lo.downs
  {
    assert sh.table[i] == base.table[i];
    if sh.table[i].prio == UNCLAIMED {
      var m := Poorest(sh.members, |sh.members|);
      assert sh.members[m].addr == names[m];
      GiveSets(sh, i, m, names[index]);
    }
  }

  lemma TakeNext(names: seq<Address>, cfg: seq<Address>, base: Shared, lo: Local, index: nat, i: nat, extra: set<nat>)
    requires TakenUp(names, cfg, base, extra) && i < |cfg| && index < |names|
    requires HoldsBesides(lo, ShareUnclaimed(base, i).table, names[index], extra)
    ensures var sh := ShareUnclaimed(base, i);
      && HoldsBesides(TakeUnclaimed(lo, index, sh, i), ShareUnclaimed(base, i + 1).table, names[index], extra)
      && TakeUnclaimed(lo, index, sh, i).downs == lo.downs
  {
    HandsOn(names, cfg, base, i);
    TakeStep(names, cfg, base, ShareUnclaimed(base, i), lo, index, i, extra);
  }

  /** Meanwhile, whatever the counts are, a node that holds its own entries, and perhaps some
      others, goes on holding exactly those. */
  lemma {:induction false} HandoutLocal(names: seq<Address>, cfg: seq<Address>, base: Shared, lo: Local, index: nat,
          i: nat, extra: set<nat>)
    requires TakenUp(names, cfg, base, extra) && i <= |cfg| && index < |names|
    requires HoldsBesides(lo, base.table, names[index], extra)
    ensures HoldsBesides(LocalUnclaimed(lo, index, base, i), ShareUnclaimed(base, i).table, names[index], extra)
    ensures LocalUnclaimed(lo, index, base, i).downs == lo.downs
  {
    if i > 0 {
      HandoutLocal(names, cfg, base, lo, index, i - 1, extra);
      TakeNext(names, cfg, base, LocalUnclaimed(lo, index, base, i - 1), index, i - 1, extra);
    }
  }

  /** Priority_claim after i entries, on what a node holds: preferred entries it won are
      brought up, those it lost are taken down, unless they are in extra. */
  predicate PriorityHeld(lo: Local, me: Address, table: seq<Entry>, i: nat, extra: set<nat>, r: Local) {
    && r.num == |r.held|
    && (forall j | j in r.held :: j < |table|)
    && (forall j: nat | j < |table| :: j in r.held <==>
          if j < i && table[j].prio == PREFER then table[j].owner == me || j in extra else j in lo.held)
  }

  /** The node holds entry j, which it does not own and its old table gives to another. */
  predicate Stray(lo: Local, me: Address, table: seq<Entry>, j: nat)
    requires j < |table| == |lo.prior|
  {
    j in lo.held && lo.prior[j].owner != me && table[j].owner != me
  }

  /** Whether the preference loop is right about row j. */
  predicate Tracks(lo: Local, me: Address, table: seq<Entry>, extra: set<nat>, j: nat)
    requires j < |table| == |lo.prior|
  {
    table[j].prio == PREFER ==>
      if j in extra then Stray(lo, me, table, j) else j in lo.held <==> lo.prior[j].owner == me
  }

  lemma SettleOne(lo: Local, me: Address, e: Entry, o: Entry, j: nat)
    requires lo.num == |lo.held|
    requires e.prio == PREFER ==> (j in lo.held <==> o.owner == me) || (j in lo.held && o.owner != me && e.owner != me)
    ensures var r := SettlePreferred(lo, me, e, o, j);
      && r.num == |r.held| && (forall k | k != j :: k in r.held <==> k in lo.held)
      && (j in r.held <==> if e.prio != PREFER || (j in lo.held && o.owner != me) then j in lo.held else e.owner == me)
  {}

  lemma PriorityLocalStep(lo: Local, me: Address, table: seq<Entry>, i: nat, extra: set<nat>, r: Local)
    requires 0 < i <= |table| == |lo.prior| && PriorityHeld(lo, me, table, i - 1, extra, r)
    requires Tracks(lo, me, table, extra, i - 1)
    ensures PriorityHeld(lo, me, table, i, extra, SettlePreferred(r, me, table[i - 1], lo.prior[i - 1], i - 1))
  {
    assert i - 1 in r.held <==> i - 1 in lo.held;
    SettleOne(r, me, table[i - 1], lo.prior[i - 1], i - 1);
  }

  lemma {:induction false} PriorityLocal(lo: Local, me: Address, table: seq<Entry>, i: nat, extra: set<nat>)
    requires i <= |table| == |lo.prior| && lo.num == |lo.held|
    requires forall j: nat | j < |table| :: Tracks(lo, me, table, extra, j)
    requires forall j | j in lo.held :: j < |table|
    ensures PriorityHeld(lo, me, table, i, extra, LocalPriority(lo, me, table, i))
  {
    if i > 0 {
      PriorityLocal(lo, me, table, i - 1, extra);
      PriorityLocalStep(lo, me, table, i, extra, LocalPriority(lo, me, table, i - 1));
    }
  }

  /** The preferred entries on which node e came to harm: it held them, its claim came too
      late, and two others took effect. */
  function Spoiled(cfg: seq<Address>, e: NodeState, ms: seq<StateMsg>): set<nat> {
    set j | j in e.local.held && j < |cfg| && EntryAfter(ms, cfg[j]).prio == PREFER && !Unharmed(ms, e.me, cfg[j])
  }

  /** What a node holds, entry by entry, once every STATE message has been delivered. */
  lemma HoldsWhatItWon(names: seq<Address>, cfg: seq<Address>, gid: int, e: NodeState, ms: seq<StateMsg>, j: nat)
    requires Enters(names, cfg, gid, e) && Heard(names, cfg, ms) && TrueToSelf(e, ms) && j < |cfg|
    requires Spoke(ms, e.me) && InRange(ms, |names|)
    ensures var lo := LocalGathered(e.local, e.me, cfg, |names|, ms);
      var row := EntryAfter(ms, cfg[j]);
      && |lo.prior| == |cfg|
      && (row.prio != PREFER ==> (j in lo.held <==> row.owner == e.me))
      && (row.prio == PREFER ==>
            if j in Spoiled(cfg, e, ms) then j in lo.held && lo.prior[j].owner != e.me && row.owner != e.me
            else j in lo.held <==> lo.prior[j].owner == e.me)
      && lo.downs[j] == (if j in e.local.held && j !in lo.held then 1 else 0)
  {
    LocalFacts(names, cfg, gid, e, ms);
    HonestCells(names, cfg, gid, e, ms, j);
    CellFacts(names, cfg, e.me, CellOf(e.local, j), ms, cfg[j]);
    PriorFacts(names, cfg, e.me, CellOf(e.local, j), ms, cfg[j]);
    var lo := LocalGathered(e.local, e.me, cfg, |names|, ms);
    assert CellOf(lo, j) == CellAfter(CellOf(e.local, j), e.me, ms, cfg[j]);
  }

  lemma RowFacts(names: seq<Address>, cfg: seq<Address>, ms: seq<StateMsg>, p: Address)
    requires Heard(names, cfg, ms)
    ensures Vacant(EntryAfter(ms, p)) || Placed(names, Promoted(EntryAfter(ms, p)))
  {
    EntryFacts(names, cfg, ms, p);
    var r := EntryAfter(ms, p);
    if r.owner != 0 {
      var i :| 0 <= i < |ms| && ms[i].sender == r.owner;
      assert WellFormed(names, cfg, ms[i]);
    }
  }

  /** Base is a proper starting point for Claim_unclaimed. */
  lemma BaseFacts(names: seq<Address>, cfg: seq<Address>, ms: seq<StateMsg>)
    requires Heard(names, cfg, ms) && AllSpoke(names, ms) && |names| >= 1
    ensures InRange(ms, |names|)
    ensures Ready(names, cfg, Base(Gathered(cfg, |names|, ms)))
  {
    GatheredFacts(names, cfg, ms);
    var g := Gathered(cfg, |names|, ms);
    PromoteOwned(g.table);
    forall k | 0 <= k < |names|
      ensures Base(g).members[k] == Member(names[k], |OwnedSet(Base(g).table, names[k])|, true)
    {
      assert Known(names, cfg, ms, k, g.members[k]);
    }
    forall j | 0 <= j < |cfg| ensures Vacant(Base(g).table[j]) || Placed(names, Base(g).table[j]) {
      RowFacts(names, cfg, ms, cfg[j]);
    }
  }

  /** The settled table serves every entry. */
  lemma SettledServes(names: seq<Address>, cfg: seq<Address>, ms: seq<StateMsg>)
    requires Heard(names, cfg, ms) && AllSpoke(names, ms) && |names| >= 1
    ensures InRange(ms, |names|)
    ensures Serving(names, cfg, Settled(Gathered(cfg, |names|, ms)))
  {
    BaseFacts(names, cfg, ms);
    HandoutFacts(names, cfg, Base(Gathered(cfg, |names|, ms)), |cfg|);
  }

  /** After the preference loop of Priority_claim a node holds what the table gives it, and
      besides that exactly the preferred entries on which it came to harm. */
  lemma HoldsAfterPriority(names: seq<Address>, cfg: seq<Address>, gid: int, e: NodeState, ms: seq<StateMsg>)
    requires Enters(names, cfg, gid, e) && Heard(names, cfg, ms) && TrueToSelf(e, ms) && AllSpoke(names, ms)
    ensures InRange(ms, |names|)
    ensures var g := Gathered(cfg, |names|, ms);
      var lo := LocalPriority(LocalGathered(e.local, e.me, cfg, |names|, ms), e.me, g.table, |cfg|);
      HoldsBesides(lo, g.table, e.me, Spoiled(cfg, e, ms))
  {
    GatheredFacts(names, cfg, ms);
    LocalFacts(names, cfg, gid, e, ms);
    var (g, extra) := (Gathered(cfg, |names|, ms), Spoiled(cfg, e, ms));
    var lo := LocalGathered(e.local, e.me, cfg, |names|, ms);
    assert Spoke(ms, names[e.index]);
    forall j: nat | j < |cfg|
      ensures Tracks(lo, e.me, g.table, extra, j) && (j in extra ==> g.table[j].owner != e.me)
      ensures g.table[j].prio != PREFER ==> (j in lo.held <==> g.table[j].owner == e.me)
    {
      HoldsWhatItWon(names, cfg, gid, e, ms, j);
    }
    PriorityLocal(lo, e.me, g.table, |cfg|, extra);
  }

  /** And the same when Claim_unclaimed has started from the common counts. */
  lemma HoldsWhenSettled(names: seq<Address>, cfg: seq<Address>, gid: int, e: NodeState, ms: seq<StateMsg>)
    requires Enters(names, cfg, gid, e) && Heard(names, cfg, ms) && TrueToSelf(e, ms) && AllSpoke(names, ms)
    requires Spoiled(cfg, e, ms) == {}
    ensures InRange(ms, |names|)
    ensures var g := Gathered(cfg, |names|, ms);
      var lo := LocalPriority(LocalGathered(e.local, e.me, cfg, |names|, ms), e.me, g.table, |cfg|);
      var r := LocalUnclaimed(lo, e.index, Base(g), |cfg|);
      Holds(r, Settled(g).table, e.me) && r.downs == lo.downs
  {
    HoldsAfterPriority(names, cfg, gid, e, ms);
    BaseFacts(names, cfg, ms);
    var g := Gathered(cfg, |names|, ms);
    PromoteOwned(g.table);
    var lo := LocalPriority(LocalGathered(e.local, e.me, cfg, |names|, ms), e.me, g.table, |cfg|);
    assert HoldsBesides(lo, Base(g).table, e.me, {});
    HandoutLocal(names, cfg, Base(g), lo, e.index, |cfg|, {});
    HoldsNoOther(LocalUnclaimed(lo, e.index, Base(g), |cfg|), Settled(g).table, e.me);
  }
}
