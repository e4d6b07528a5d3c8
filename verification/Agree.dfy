/** When two members of a view end a gather alike, whatever preferences were installed and
    whatever old tables they brought: exactly when they blame every member alike. */
module Agreeing {
  import opened Tables
  import opened Protocol
  import opened Gather
  import opened Contest
  import opened Roster
  import opened Settle
  import opened Handout
  import opened Regimes

  // ----- Priority_claim -----

  /** For how many preferred entries a node takes one off the count of a: those its old table
      gives to a, or, if it counts anew, those that were counted. */
  function Blamed(cfg: seq<Address>, ms: seq<StateMsg>, prior: seq<Entry>, recount: bool, a: Address): nat
    requires |prior| == |cfg|
  {
    if recount then |CountedPreferred(cfg, ms, a)| else |PriorPreferred(cfg, ms, prior, a)|
  }

  /** What Priority_claim makes of the gathered table and counts. */
  function AfterPriority(g: Shared, prior: seq<Entry>, recount: bool): (r: Shared)
    requires |prior| == |g.table|
    ensures |r.members| == |g.members| && |r.table| == |g.table|
  {
    var sh := SharePriority(g, prior, |g.table|);
    if recount then sh.(members := Recount(sh.members, sh.table)) else sh
  }

  /** The table does not depend on the node, and each count is off by what is blamed amiss. */
  lemma CorrectedTo(names: seq<Address>, cfg: seq<Address>, ms: seq<StateMsg>, prior: seq<Entry>, recount: bool, k: nat)
    requires Heard(names, cfg, ms) && InRange(ms, |names|) && AllSpoke(names, ms) && |prior| == |cfg| && k < |names|
    ensures var (g, a) := (Gathered(cfg, |names|, ms), names[k]);
      && AfterPriority(g, prior, recount).table == Promote(g.table)
      && AfterPriority(g, prior, recount).members[k] == Member(a, |OwnedSet(g.table, a)|
           + |CountedPreferred(cfg, ms, a)| - Blamed(cfg, ms, prior, recount, a), true)
  {
    var g := Gathered(cfg, |names|, ms);
    GatheredFacts(names, cfg, ms);
    PriorityShared(g, prior, |cfg|);
    PromoteOwned(g.table);
    assert SharePriority(g, prior, |cfg|).table == Promote(g.table);
    assert Known(names, cfg, ms, k, g.members[k]);
    CorrectionError(names, cfg, ms, g.table, prior, names[k]);
  }

  lemma SameAfterPriorityIff(names: seq<Address>, cfg: seq<Address>, ms: seq<StateMsg>,
          p: seq<Entry>, p': seq<Entry>, recount: bool, recount': bool)
    requires Heard(names, cfg, ms) && InRange(ms, |names|) && AllSpoke(names, ms) && |p| == |p'| == |cfg|
    requires |names| >= 1
    ensures var g := Gathered(cfg, |names|, ms);
      AfterPriority(g, p, recount) == AfterPriority(g, p', recount')
      <==> forall k | 0 <= k < |names| ::
        Blamed(cfg, ms, p, recount, names[k]) == Blamed(cfg, ms, p', recount', names[k])
  {
    var g := Gathered(cfg, |names|, ms);
    var (r, r') := (AfterPriority(g, p, recount), AfterPriority(g, p', recount'));
    forall k | 0 <= k < |names|
      ensures r.table == r'.table
      ensures r.members[k] == r'.members[k]
        <==> Blamed(cfg, ms, p, recount, names[k]) == Blamed(cfg, ms, p', recount', names[k])
    {
      CorrectedTo(names, cfg, ms, p, recount, k);
      CorrectedTo(names, cfg, ms, p', recount', k);
    }
    if forall k | 0 <= k < |names| :: r.members[k] == r'.members[k] { assert r.members == r'.members; }
    assert r.table == r'.table by { CorrectedTo(names, cfg, ms, p, recount, 0); }
  }

  // ----- Claim_unclaimed, with counts that may be wrong -----

  /** The vacant entries among the first i that went to a. */
  function Received(before: seq<Entry>, after: seq<Entry>, a: Address, i: nat): set<nat>
    requires i <= |before| == |after|
  {
    set j: nat | j < i && before[j].prio == UNCLAIMED && after[j].owner == a
  }

  lemma ReceivedNext(before: seq<Entry>, after: seq<Entry>, next: seq<Entry>, a: Address, i: nat)
    requires i < |before| == |after| == |next| && forall j | 0 <= j < i :: next[j] == after[j]
    ensures |Received(before, next, a, i + 1)|
      == |Received(before, after, a, i)| + (if before[i].prio == UNCLAIMED && next[i].owner == a then 1 else 0)
  {
    var r := Received(before, after, a, i);
    assert i !in r;
    assert Received(before, next, a, i + 1)
      == r + if before[i].prio == UNCLAIMED && next[i].owner == a then {i} else {};
  }

  lemma OneGift(names: seq<Address>, cfg: seq<Address>, base: Shared, sh: Shared, i: nat, k: nat)
    requires Begins(names, cfg, base) && i < |cfg| && HalfWay(names, cfg, base, sh, i) && k < |names|
    requires GrewByGifts(names, base, sh, i, k)
    ensures GrewByGifts(names, base, GiveUnclaimed(sh, i), i + 1, k)
  {
    var r := GiveUnclaimed(sh, i);
    assert sh.table[i] == base.table[i];
    ReceivedNext(base.table, sh.table, r.table, names[k], i);
    if sh.table[i].prio == UNCLAIMED {
      var m := Poorest(sh.members, |sh.members|);
      assert r.table[i].owner == names[m] && (names[m] == names[k] <==> m == k);
    }
  }

  lemma NextGift(names: seq<Address>, cfg: seq<Address>, base: Shared, i: nat, k: nat)
    requires Begins(names, cfg, base) && i < |cfg| && k < |names|
    requires GrewByGifts(names, base, ShareUnclaimed(base, i), i, k)
    ensures GrewByGifts(names, base, ShareUnclaimed(base, i + 1), i + 1, k)
  {
    HandsOn(names, cfg, base, i);
    OneGift(names, cfg, base, ShareUnclaimed(base, i), i, k);
  }

  predicate GrewByGifts(names: seq<Address>, base: Shared, r: Shared, i: nat, k: nat)
    requires i <= |base.table| == |r.table| && k < |names| == |base.members| == |r.members|
  {
    r.members[k].num == base.members[k].num + |Received(base.table, r.table, names[k], i)|
  }

  /** Each count grows by what the member receives. */
  lemma {:induction false} GrowsByGifts(names: seq<Address>, cfg: seq<Address>, base: Shared, i: nat, k: nat)
    requires Begins(names, cfg, base) && i <= |cfg| && k < |names|
    ensures GrewByGifts(names, base, ShareUnclaimed(base, i), i, k)
  {
    if i == 0 {
      assert Received(base.table, base.table, names[k], 0) == {};
    } else {
      GrowsByGifts(names, cfg, base, i - 1, k);
      NextGift(names, cfg, base, i - 1, k);
    }
  }

  /** Once handed out, a row stays. */
  lemma {:induction false} RowStays(base: Shared, i: nat, n: nat, j: nat)
    requires j < i <= n <= |base.table| && |base.members| >= 1
    ensures ShareUnclaimed(base, n).table[j] == ShareUnclaimed(base, i).table[j]
  {
    if i < n { RowStays(base, i, n - 1, j); }
  }

  /** What member k counts when row j comes up, given the table in the end. */
  function LoadAt(names: seq<Address>, base: Shared, end: seq<Entry>, j: nat, k: nat): int
    requires j <= |base.table| == |end| && k < |names| == |base.members|
  {
    base.members[k].num + |Received(base.table, end, names[k], j)|
  }

  /** Member m is the first with the least load when row j comes up. */
  predicate NextInLine(names: seq<Address>, base: Shared, end: seq<Entry>, j: nat, m: nat)
    requires j <= |base.table| == |end| && |names| == |base.members|
  {
    && m < |names|
    && forall k | 0 <= k < |names| ::
      && LoadAt(names, base, end, j, m) <= LoadAt(names, base, end, j, k)
      && (k < m ==> LoadAt(names, base, end, j, m) < LoadAt(names, base, end, j, k))
  }

  lemma LoadIs(names: seq<Address>, cfg: seq<Address>, base: Shared, end: seq<Entry>, j: nat, k: nat)
    requires Begins(names, cfg, base) && j <= |cfg| && end == ShareUnclaimed(base, |cfg|).table && k < |names|
    ensures ShareUnclaimed(base, j).members[k].num == LoadAt(names, base, end, j, k)
  {
    GrowsByGifts(names, cfg, base, j, k);
    var part := ShareUnclaimed(base, j).table;
    forall i: nat | i < j ensures part[i] == end[i] { RowStays(base, j, |cfg|, i); }
    assert Received(base.table, part, names[k], j) == Received(base.table, end, names[k], j);
  }

  /** Who gets each vacant entry: in table order, the first of the members with the least load,
      which takes it as CLAIMED; the loads are those at the start and what was handed out. */
  lemma HandedOutInTurn(names: seq<Address>, cfg: seq<Address>, base: Shared, j: nat)
    requires Begins(names, cfg, base) && j < |cfg| && base.table[j].prio == UNCLAIMED
    ensures var end := ShareUnclaimed(base, |cfg|).table;
      exists m: nat :: NextInLine(names, base, end, j, m) && end[j] == Entry(cfg[j], names[m], CLAIMED)
  {
    var end := ShareUnclaimed(base, |cfg|).table;
    HandsOn(names, cfg, base, j);
    var sh := ShareUnclaimed(base, j);
    assert sh.table[j] == base.table[j];
    var m := Poorest(sh.members, |sh.members|);
    forall k | 0 <= k < |names| ensures sh.members[k].num == LoadAt(names, base, end, j, k) {
      LoadIs(names, cfg, base, end, j, k);
    }
    RowStays(base, j + 1, |cfg|, j);
    assert NextInLine(names, base, end, j, m) && end[j] == Entry(cfg[j], names[m], CLAIMED);
  }

  lemma GrowsTo(names: seq<Address>, cfg: seq<Address>, sh: Shared, end: Shared, k: nat)
    requires Begins(names, cfg, sh) && end == ShareUnclaimed(sh, |cfg|) && k < |names|
    ensures |end.table| == |cfg| && |end.members| == |names| && GrewByGifts(names, sh, end, |cfg|, k)
  {
    GrowsByGifts(names, cfg, sh, |cfg|, k);
  }

  lemma SameStartAt(names: seq<Address>, cfg: seq<Address>, sh: Shared, sh': Shared, end: Shared, k: nat)
    requires Begins(names, cfg, sh) && Begins(names, cfg, sh') && sh.table == sh'.table && k < |names|
    requires end == ShareUnclaimed(sh, |cfg|) && end == ShareUnclaimed(sh', |cfg|)
    ensures sh.members[k] == sh'.members[k]
  {
    GrowsTo(names, cfg, sh, end, k);
    GrowsTo(names, cfg, sh', end, k);
  }

  /** Members that end Claim_unclaimed alike, from the same table, began it alike. */
  lemma SameEndSameStart(names: seq<Address>, cfg: seq<Address>, sh: Shared, sh': Shared, end: Shared)
    requires Begins(names, cfg, sh) && Begins(names, cfg, sh') && sh.table == sh'.table
    requires end == ShareUnclaimed(sh, |cfg|) && end == ShareUnclaimed(sh', |cfg|)
    ensures sh == sh'
  {
    forall k | 0 <= k < |sh.members| ensures sh.members[k] == sh'.members[k] {
      SameStartAt(names, cfg, sh, sh', end, k);
    }
    assert sh.members == sh'.members;
  }

  // ----- the end of a gather -----

  /** The old table of a member when the last STATE message has arrived. */
  function PriorAt(cfg: seq<Address>, n: nat, e: NodeState, ms: seq<StateMsg>): (r: seq<Entry>)
    requires InRange(ms, n) && |e.local.prior| == |cfg|
    ensures |r| == |cfg|
  {
    LocalGathered(e.local, e.me, cfg, n, ms).prior
  }

  function BlamedBy(cfg: seq<Address>, n: nat, e: NodeState, ms: seq<StateMsg>, a: Address): nat
    requires InRange(ms, n) && |e.local.prior| == |cfg|
  {
    Blamed(cfg, ms, PriorAt(cfg, n, e, ms), !e.oldMaturity, a)
  }

  /** What a member's handlers make of the complete gather. */
  function Outcome(cfg: seq<Address>, e: NodeState, mature: bool, ms: seq<StateMsg>): NodeState
    requires InRange(ms, |e.shared.members|) && |e.local.prior| == |cfg| && |e.shared.members| >= 1
  {
    ClaimUnclaimed(PriorityClaim(GatherState(cfg, e, mature, ms)))
  }

  lemma OutcomeShared(names: seq<Address>, cfg: seq<Address>, gid: int, e: NodeState, mature: bool, ms: seq<StateMsg>)
    requires Enters(names, cfg, gid, e) && Heard(names, cfg, ms) && AllSpoke(names, ms) && (e.maturity || mature)
    ensures InRange(ms, |names|) && |e.shared.members| == |names| && |e.local.prior| == |cfg|
    ensures var base := AfterPriority(Gathered(cfg, |names|, ms), PriorAt(cfg, |names|, e, ms), !e.oldMaturity);
      && Begins(names, cfg, base) && base.table == Promote(Gathered(cfg, |names|, ms).table)
      && Outcome(cfg, e, mature, ms).shared == ShareUnclaimed(base, |cfg|)
  {
    GatheredFacts(names, cfg, ms);
    var g := Gathered(cfg, |names|, ms);
    var prior := PriorAt(cfg, |names|, e, ms);
    var base := AfterPriority(g, prior, !e.oldMaturity);
    forall k | 0 <= k < |names| ensures base.members[k].addr == names[k] && base.members[k].got {
      CorrectedTo(names, cfg, ms, prior, !e.oldMaturity, k);
    }
    CorrectedTo(names, cfg, ms, prior, !e.oldMaturity, e.index);
    forall j | 0 <= j < |cfg| ensures Vacant(base.table[j]) || Placed(names, base.table[j]) {
      RowFacts(names, cfg, ms, cfg[j]);
    }
    assert PriorityClaim(GatherState(cfg, e, mature, ms)).shared == base;
  }

  /** Two members of a complete gather end with the same owners, priorities and counts if and
      only if they blame every member for as many preferred entries: their old tables do, or
      the one that counts anew finds as many as the other's old table says. */
  lemma AgreeIff(names: seq<Address>, cfg: seq<Address>, gid: int, e: NodeState, e': NodeState,
          mature: bool, ms: seq<StateMsg>)
    requires Enters(names, cfg, gid, e) && Enters(names, cfg, gid, e') && Heard(names, cfg, ms) && AllSpoke(names, ms)
    requires mature || (e.maturity && e'.maturity)
    ensures InRange(ms, |names|) && |e.shared.members| == |e'.shared.members| == |names|
    ensures Outcome(cfg, e, mature, ms).shared == Outcome(cfg, e', mature, ms).shared
      <==> forall k | 0 <= k < |names| ::
        BlamedBy(cfg, |names|, e, ms, names[k]) == BlamedBy(cfg, |names|, e', ms, names[k])
  {
    OutcomeShared(names, cfg, gid, e, mature, ms);
    OutcomeShared(names, cfg, gid, e', mature, ms);
    var g := Gathered(cfg, |names|, ms);
    var (p, p') := (PriorAt(cfg, |names|, e, ms), PriorAt(cfg, |names|, e', ms));
    SameAfterPriorityIff(names, cfg, ms, p, p', !e.oldMaturity, !e'.oldMaturity);
    var (b, b') := (AfterPriority(g, p, !e.oldMaturity), AfterPriority(g, p', !e'.oldMaturity));
    if ShareUnclaimed(b, |cfg|) == ShareUnclaimed(b', |cfg|) {
      SameEndSameStart(names, cfg, b, b', ShareUnclaimed(b, |cfg|));
    }
  }

  // ----- and what they hold -----

  /** A member ends with its own entries up, as its own table has them, and besides those
      exactly the ones on which it came to harm; and it counts what it holds. */
  lemma OutcomeHolds(names: seq<Address>, cfg: seq<Address>, gid: int, e: NodeState, mature: bool, ms: seq<StateMsg>)
    requires Enters(names, cfg, gid, e) && Heard(names, cfg, ms) && AllSpoke(names, ms) && (e.maturity || mature)
    requires TrueToSelf(e, ms)
    ensures InRange(ms, |names|) && |e.shared.members| == |names|
    ensures var r := Outcome(cfg, e, mature, ms);
      HoldsBesides(r.local, r.shared.table, e.me, Spoiled(cfg, e, ms))
  {
    OutcomeShared(names, cfg, gid, e, mature, ms);
    HoldsAfterPriority(names, cfg, gid, e, ms);
    var g := Gathered(cfg, |names|, ms);
    var base := AfterPriority(g, PriorAt(cfg, |names|, e, ms), !e.oldMaturity);
    var lo := LocalPriority(LocalGathered(e.local, e.me, cfg, |names|, ms), e.me, g.table, |cfg|);
    SpoiledTaken(names, cfg, e, ms, base, lo);
    HandoutLocal(names, cfg, base, lo, e.index, |cfg|, Spoiled(cfg, e, ms));
    assert Outcome(cfg, e, mature, ms).local == LocalUnclaimed(lo, e.index, base, |cfg|);
  }

  lemma SpoiledTaken(names: seq<Address>, cfg: seq<Address>, e: NodeState, ms: seq<StateMsg>, base: Shared, lo: Local)
    requires Heard(names, cfg, ms) && Begins(names, cfg, base) && InRange(ms, |names|)
    requires base.table == Promote(Gathered(cfg, |names|, ms).table)
    requires HoldsBesides(lo, Gathered(cfg, |names|, ms).table, e.me, Spoiled(cfg, e, ms))
    ensures TakenUp(names, cfg, base, Spoiled(cfg, e, ms)) && HoldsBesides(lo, base.table, e.me, Spoiled(cfg, e, ms))
  {
    GatheredFacts(names, cfg, ms);
  }

  /** So it holds exactly its own if and only if it came to no harm on a preferred entry. */
  lemma OutcomeHoldsIff(names: seq<Address>, cfg: seq<Address>, gid: int, e: NodeState, mature: bool,
          ms: seq<StateMsg>)
    requires Enters(names, cfg, gid, e) && Heard(names, cfg, ms) && AllSpoke(names, ms) && (e.maturity || mature)
    requires TrueToSelf(e, ms)
    ensures CanEnd(cfg, e, ms)
    ensures Holds(Outcome(cfg, e, mature, ms).local, Outcome(cfg, e, mature, ms).shared.table, e.me)
      <==> Untouched(cfg, e, ms)
  {
    OutcomeHolds(names, cfg, gid, e, mature, ms);
    var r := Outcome(cfg, e, mature, ms);
    HoldsIff(r.local, r.shared.table, e.me, Spoiled(cfg, e, ms));
    NothingSpoiled(cfg, e, ms);
  }

  /** Each preferred entry that the node held on entering: its claim took effect, or at most
      one other did. */
  predicate Untouched(cfg: seq<Address>, e: NodeState, ms: seq<StateMsg>) {
    forall j | j in e.local.held && j < |cfg| && EntryAfter(ms, cfg[j]).prio == PREFER :: Unharmed(ms, e.me, cfg[j])
  }

  lemma NothingSpoiled(cfg: seq<Address>, e: NodeState, ms: seq<StateMsg>)
    ensures Spoiled(cfg, e, ms) == {} <==> Untouched(cfg, e, ms)
  {
    if Untouched(cfg, e, ms) {
      assert Spoiled(cfg, e, ms) == {};
    } else {
      var j :| j in e.local.held && j < |cfg| && EntryAfter(ms, cfg[j]).prio == PREFER && !Unharmed(ms, e.me, cfg[j]);
      assert j in Spoiled(cfg, e, ms);
    }
  }

  // ----- all members together -----

  /** All members entered as es, all were heard, and someone is mature. */
  predicate Complete(names: seq<Address>, cfg: seq<Address>, gid: int, es: seq<NodeState>, mature: bool,
          ms: seq<StateMsg>)
  {
    && Company(names, cfg, gid, es, ms) && AllSpoke(names, ms) && |names| >= 1
    && (forall l | 0 <= l < |es| :: mature || es[l].maturity)
    && InRange(ms, |names|) && (forall l | 0 <= l < |es| :: CanEnd(cfg, es[l], ms))
  }

  predicate CanEnd(cfg: seq<Address>, e: NodeState, ms: seq<StateMsg>) {
    InRange(ms, |e.shared.members|) && |e.local.prior| == |cfg| && |e.shared.members| >= 1
  }

  predicate BlameAlike(names: seq<Address>, cfg: seq<Address>, es: seq<NodeState>, ms: seq<StateMsg>)
    requires InRange(ms, |names|)
  {
    forall l, k | 0 <= l < |es| && 0 <= k < |names| :: AlikeOn(cfg, es[l], es[0], ms, |names|, names[k])
  }

  predicate AlikeOn(cfg: seq<Address>, e: NodeState, e': NodeState, ms: seq<StateMsg>, n: nat, a: Address)
    requires InRange(ms, n)
  {
    && |e.local.prior| == |e'.local.prior| == |cfg|
    && BlamedBy(cfg, n, e, ms, a) == BlamedBy(cfg, n, e', ms, a)
  }

  lemma MemberFacts(names: seq<Address>, cfg: seq<Address>, gid: int, es: seq<NodeState>, mature: bool,
          ms: seq<StateMsg>, l: nat)
    requires Complete(names, cfg, gid, es, mature, ms) && l < |es|
    ensures es[l].me == names[l] && Enters(names, cfg, gid, es[l]) && TrueToSelf(es[l], ms)
    ensures var (r, z) := (Outcome(cfg, es[l], mature, ms), Outcome(cfg, es[0], mature, ms));
      && HoldsBesides(r.local, r.shared.table, names[l], Spoiled(cfg, es[l], ms))
      && (r.shared == z.shared <==> forall k | 0 <= k < |names| ::
            AlikeOn(cfg, es[l], es[0], ms, |names|, names[k]))
  {
    assert Enters(names, cfg, gid, es[l]) && Enters(names, cfg, gid, es[0]);
    assert (mature || es[l].maturity) && (mature || es[0].maturity);
    assert TrueToSelf(es[l], ms);
    AgreeIff(names, cfg, gid, es[l], es[0], mature, ms);
    OutcomeHolds(names, cfg, gid, es[l], mature, ms);
  }

  /** A member ends as it should: with the common table, its own entries up and counted. */
  predicate EndsWell(cfg: seq<Address>, e: NodeState, mature: bool, ms: seq<StateMsg>, sh: Shared)
    requires CanEnd(cfg, e, ms)
  {
    var r := Outcome(cfg, e, mature, ms);
    r.shared == sh && Holds(r.local, sh.table, e.me)
  }

  lemma EndsWellIff(names: seq<Address>, cfg: seq<Address>, gid: int, es: seq<NodeState>, mature: bool,
          ms: seq<StateMsg>, l: nat)
    requires Complete(names, cfg, gid, es, mature, ms) && l < |es|
    ensures EndsWell(cfg, es[l], mature, ms, Outcome(cfg, es[0], mature, ms).shared)
      <==> Spoiled(cfg, es[l], ms) == {} && forall k | 0 <= k < |names| ::
        AlikeOn(cfg, es[l], es[0], ms, |names|, names[k])
  {
    MemberFacts(names, cfg, gid, es, mature, ms, l);
    var r := Outcome(cfg, es[l], mature, ms);
    HoldsIff(r.local, r.shared.table, names[l], Spoiled(cfg, es[l], ms));
  }

  /** All members end a gather with one table, each with exactly its own entries up and counted,
      if and only if they blame every member alike and none came to harm on a preferred entry:
      in and out of the regimes. */
  lemma AllEndWellIff(names: seq<Address>, cfg: seq<Address>, gid: int, es: seq<NodeState>, mature: bool,
          ms: seq<StateMsg>)
    requires Complete(names, cfg, gid, es, mature, ms)
    ensures (forall l | 0 <= l < |es| :: EndsWell(cfg, es[l], mature, ms, Outcome(cfg, es[0], mature, ms).shared))
      <==> BlameAlike(names, cfg, es, ms) && forall l | 0 <= l < |es| :: Spoiled(cfg, es[l], ms) == {}
  {
    forall l | 0 <= l < |es|
      ensures EndsWell(cfg, es[l], mature, ms, Outcome(cfg, es[0], mature, ms).shared)
        <==> Spoiled(cfg, es[l], ms) == {} && forall k | 0 <= k < |names| ::
          AlikeOn(cfg, es[l], es[0], ms, |names|, names[k])
    {
      EndsWellIff(names, cfg, gid, es, mature, ms, l);
    }
  }

  // ----- which entries are up just once -----

  /** Member k, and no other, has the entry up after the gather. */
  predicate OnlyUp(cfg: seq<Address>, es: seq<NodeState>, mature: bool, ms: seq<StateMsg>, j: nat, k: nat) {
    && k < |es|
    && forall l | 0 <= l < |es| ::
      CanEnd(cfg, es[l], ms) && (j in Outcome(cfg, es[l], mature, ms).local.held <==> l == k)
  }

  /** The owner of a row that was claimed or preferred does not depend on the counts. */
  lemma RowOf(names: seq<Address>, cfg: seq<Address>, gid: int, e: NodeState, mature: bool, ms: seq<StateMsg>, j: nat)
    requires Enters(names, cfg, gid, e) && Heard(names, cfg, ms) && AllSpoke(names, ms)
    requires (e.maturity || mature) && j < |cfg|
    ensures CanEnd(cfg, e, ms) && |Outcome(cfg, e, mature, ms).shared.table| == |cfg|
    ensures var (x, row) := (Outcome(cfg, e, mature, ms).shared.table[j], EntryAfter(ms, cfg[j]));
      Placed(names, x) && (row.prio != UNCLAIMED ==> x == Promoted(row))
  {
    OutcomeShared(names, cfg, gid, e, mature, ms);
    GatheredFacts(names, cfg, ms);
    var base := AfterPriority(Gathered(cfg, |names|, ms), PriorAt(cfg, |names|, e, ms), !e.oldMaturity);
    HandsOn(names, cfg, base, |cfg|);
  }

  lemma OwnerAt(names: seq<Address>, cfg: seq<Address>, gid: int, es: seq<NodeState>, mature: bool, ms: seq<StateMsg>,
          j: nat)
    returns (k: nat)
    requires Complete(names, cfg, gid, es, mature, ms) && j < |cfg|
    requires BlameAlike(names, cfg, es, ms) || EntryAfter(ms, cfg[j]).prio != UNCLAIMED
    ensures k < |names|
    ensures forall l | 0 <= l < |es| ::
      var table := Outcome(cfg, es[l], mature, ms).shared.table;
      j < |table| && table[j].owner == names[k]
  {
    assert Enters(names, cfg, gid, es[0]) && (mature || es[0].maturity);
    RowOf(names, cfg, gid, es[0], mature, ms, j);
    k :| 0 <= k < |names| && names[k] == Outcome(cfg, es[0], mature, ms).shared.table[j].owner;
    forall l | 0 <= l < |es|
      ensures var table := Outcome(cfg, es[l], mature, ms).shared.table;
        j < |table| && table[j].owner == names[k]
    {
      MemberFacts(names, cfg, gid, es, mature, ms, l);
      assert mature || es[l].maturity;
      RowOf(names, cfg, gid, es[l], mature, ms, j);
    }
  }

  lemma UpAt(names: seq<Address>, cfg: seq<Address>, gid: int, es: seq<NodeState>, mature: bool, ms: seq<StateMsg>,
          j: nat, k: nat, l: nat)
    requires Complete(names, cfg, gid, es, mature, ms) && j < |cfg| && k < |names| && l < |es|
    requires var table := Outcome(cfg, es[l], mature, ms).shared.table;
      j < |table| && table[j].owner == names[k]
    ensures j in Outcome(cfg, es[l], mature, ms).local.held <==> l == k || j in Spoiled(cfg, es[l], ms)
    ensures l == k ==> j !in Spoiled(cfg, es[l], ms)
  {
    MemberFacts(names, cfg, gid, es, mature, ms, l);
    assert names[l] == names[k] <==> l == k;
    assert j in OwnedSet(Outcome(cfg, es[l], mature, ms).shared.table, names[l]) <==> l == k;
  }

  /** An entry that was claimed or preferred is up at exactly one member if and only if no
      member came to harm on it, whether the members agree on the counts or not; where they
      do agree, the same holds for every entry. */
  lemma CoveredIff(names: seq<Address>, cfg: seq<Address>, gid: int, es: seq<NodeState>, mature: bool,
          ms: seq<StateMsg>, j: nat)
    requires Complete(names, cfg, gid, es, mature, ms) && j < |cfg|
    requires BlameAlike(names, cfg, es, ms) || EntryAfter(ms, cfg[j]).prio != UNCLAIMED
    ensures (exists k :: OnlyUp(cfg, es, mature, ms, j, k))
      <==> forall l | 0 <= l < |es| :: j !in Spoiled(cfg, es[l], ms)
  {
    var k := OwnerAt(names, cfg, gid, es, mature, ms, j);
    forall l | 0 <= l < |es|
      ensures CanEnd(cfg, es[l], ms)
      ensures j in Outcome(cfg, es[l], mature, ms).local.held <==> l == k || j in Spoiled(cfg, es[l], ms)
      ensures l == k ==> j !in Spoiled(cfg, es[l], ms)
    {
      UpAt(names, cfg, gid, es, mature, ms, j, k, l);
    }
    OneUpIff(cfg, es, mature, ms, j, k);
  }

  lemma OneUpIff(cfg: seq<Address>, es: seq<NodeState>, mature: bool, ms: seq<StateMsg>, j: nat, k: nat)
    requires k < |es|
    requires forall l | 0 <= l < |es| ::
      && CanEnd(cfg, es[l], ms)
      && (j in Outcome(cfg, es[l], mature, ms).local.held <==> l == k || j in Spoiled(cfg, es[l], ms))
    requires j !in Spoiled(cfg, es[k], ms)
    ensures (exists h :: OnlyUp(cfg, es, mature, ms, j, h))
      <==> forall l | 0 <= l < |es| :: j !in Spoiled(cfg, es[l], ms)
  {
    if forall l | 0 <= l < |es| :: j !in Spoiled(cfg, es[l], ms) {
      assert OnlyUp(cfg, es, mature, ms, j, k);
    } else {
      var l :| 0 <= l < |es| && j in Spoiled(cfg, es[l], ms);
      forall h ensures !OnlyUp(cfg, es, mature, ms, j, h) {
        assert OnlyUp(cfg, es, mature, ms, j, h) ==> h == k && h == l;
      }
    }
  }
}
