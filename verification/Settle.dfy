/** The end of a gather: Priority_claim turns preferences into ownership and corrects the
    counts, Claim_unclaimed gives away what nobody claimed. The settled table is a function
    of the STATE messages alone; the question is when every member computes it. */
module Settle {
  import opened Tables
  import opened Protocol
  import opened Gather
  import opened Contest
  import opened Tally
  import opened Roster

  function Promoted(e: Entry): Entry { if e.prio == PREFER then e.(prio := PREFER_CLAIMED) else e }

  function Promote(table: seq<Entry>): (r: seq<Entry>)
    ensures |r| == |table|
    ensures forall j | 0 <= j < |r| :: r[j] == Promoted(table[j])
  {
    seq(|table|, j requires 0 <= j < |table| => Promoted(table[j]))
  }

  /** Where Claim_unclaimed should start from: preferences granted, every count equal to
      the number of entries owned. */
  function Base(sh: Shared): (r: Shared)
    ensures |r.table| == |sh.table| && |r.members| == |sh.members|
  {
    Shared(Promote(sh.table), Recount(sh.members, sh.table))
  }

  function Settled(sh: Shared): (r: Shared)
    requires |sh.members| >= 1
    ensures |r.table| == |sh.table| && |r.members| == |sh.members|
  {
    ShareUnclaimed(Base(sh), |sh.table|)
  }

  // ----- the counts after Priority_claim -----

  /** Preferred entries among the first i that a gains (or loses) against the old table. */
  function Gain(table: seq<Entry>, prior: seq<Entry>, a: Address, i: nat): set<nat>
    requires i <= |table| == |prior|
  {
    set j: nat | j < i && table[j].prio == PREFER && table[j].owner == a && prior[j].owner != a
  }

  function Loss(table: seq<Entry>, prior: seq<Entry>, a: Address, i: nat): set<nat>
    requires i <= |table| == |prior|
  {
    set j: nat | j < i && table[j].prio == PREFER && table[j].owner != a && prior[j].owner == a
  }

  lemma GainStep(table: seq<Entry>, prior: seq<Entry>, a: Address, i: nat)
    requires 0 < i <= |table| == |prior|
    ensures |Gain(table, prior, a, i)| == |Gain(table, prior, a, i - 1)|
      + (if table[i - 1].prio == PREFER && table[i - 1].owner == a && prior[i - 1].owner != a then 1 else 0)
  {
    var g := Gain(table, prior, a, i - 1);
    assert i - 1 !in g;
    assert Gain(table, prior, a, i) == g
      + if table[i - 1].prio == PREFER && table[i - 1].owner == a && prior[i - 1].owner != a then {i - 1} else {};
  }

  lemma LossStep(table: seq<Entry>, prior: seq<Entry>, a: Address, i: nat)
    requires 0 < i <= |table| == |prior|
    ensures |Loss(table, prior, a, i)| == |Loss(table, prior, a, i - 1)|
      + (if table[i - 1].prio == PREFER && table[i - 1].owner != a && prior[i - 1].owner == a then 1 else 0)
  {
    var l := Loss(table, prior, a, i - 1);
    assert i - 1 !in l;
    assert Loss(table, prior, a, i) == l
      + if table[i - 1].prio == PREFER && table[i - 1].owner != a && prior[i - 1].owner == a then {i - 1} else {};
  }

  function Corrected(x: Member, table: seq<Entry>, prior: seq<Entry>, i: nat): Member
    requires i <= |table| == |prior|
  {
    x.(num := x.num + |Gain(table, prior, x.addr, i)| - |Loss(table, prior, x.addr, i)|)
  }

  /** The preference loop promotes the preferred entries and corrects each count by what the
      member gains and loses through them. */
  lemma {:induction false} PriorityShared(sh: Shared, prior: seq<Entry>, i: nat)
    requires i <= |sh.table| == |prior|
    ensures forall j | 0 <= j < |sh.table| ::
      SharePriority(sh, prior, i).table[j] == if j < i then Promoted(sh.table[j]) else sh.table[j]
    ensures forall k | 0 <= k < |sh.members| ::
      SharePriority(sh, prior, i).members[k] == Corrected(sh.members[k], sh.table, prior, i)
  {
    if i > 0 {
      PriorityShared(sh, prior, i - 1);
      forall k | 0 <= k < |sh.members|
        ensures SharePriority(sh, prior, i).members[k] == Corrected(sh.members[k], sh.table, prior, i)
      {
        GainStep(sh.table, prior, sh.members[k].addr, i);
        LossStep(sh.table, prior, sh.members[k].addr, i);
      }
    } else {
      forall a ensures Gain(sh.table, prior, a, 0) == {} && Loss(sh.table, prior, a, 0) == {} {}
    }
  }

  /** Preferred entries counted for a by the STATE messages, and by the old table. */
  function CountedPreferred(cfg: seq<Address>, ms: seq<StateMsg>, a: Address): set<nat> {
    set j: nat | j < |cfg| && EntryAfter(ms, cfg[j]).prio == PREFER && CountedAt(ms, cfg[j], a)
  }

  function PriorPreferred(cfg: seq<Address>, ms: seq<StateMsg>, prior: seq<Entry>, a: Address): set<nat>
    requires |prior| == |cfg|
  {
    set j: nat | j < |cfg| && EntryAfter(ms, cfg[j]).prio == PREFER && prior[j].owner == a
  }

  /** By how much the incremental correction of a count goes wrong. */
  lemma CorrectionError(names: seq<Address>, cfg: seq<Address>, ms: seq<StateMsg>, table: seq<Entry>, prior: seq<Entry>,
          a: Address)
    requires Heard(names, cfg, ms) && a != 0 && |table| == |prior| == |cfg|
    requires forall j | 0 <= j < |cfg| :: table[j] == EntryAfter(ms, cfg[j])
    ensures |CountedSet(cfg, ms, a)| + |Gain(table, prior, a, |cfg|)| - |Loss(table, prior, a, |cfg|)|
      == |OwnedSet(table, a)| + |CountedPreferred(cfg, ms, a)| - |PriorPreferred(cfg, ms, prior, a)|
  {
    forall j: nat | j < |cfg| && table[j].prio != PREFER
      ensures j in CountedSet(cfg, ms, a) <==> table[j].owner == a
    {
      CountedForOwner(names, cfg, ms, cfg[j], a);
    }
    CorrectionOnSets(table, prior, a, CountedSet(cfg, ms, a));
    assert CountedPreferred(cfg, ms, a) == CountedSet(cfg, ms, a) * PreferredRows(table);
    assert PriorPreferred(cfg, ms, prior, a) == OwnedSet(prior, a) * PreferredRows(table);
  }

  /** The incremental correction of a count is right exactly when the old table blames the
      member for as many preferred entries as the STATE messages counted for it. */
  lemma CorrectionIsExactIff(names: seq<Address>, cfg: seq<Address>, ms: seq<StateMsg>, table: seq<Entry>,
          prior: seq<Entry>, a: Address)
    requires Heard(names, cfg, ms) && a != 0 && |table| == |prior| == |cfg|
    requires forall j | 0 <= j < |cfg| :: table[j] == EntryAfter(ms, cfg[j])
    ensures |CountedSet(cfg, ms, a)| + |Gain(table, prior, a, |cfg|)| - |Loss(table, prior, a, |cfg|)|
              == |OwnedSet(table, a)|
        <==> |CountedPreferred(cfg, ms, a)| == |PriorPreferred(cfg, ms, prior, a)|
  {
    CorrectionError(names, cfg, ms, table, prior, a);
  }

  function PreferredRows(table: seq<Entry>): set<nat> { set j: nat | j < |table| && table[j].prio == PREFER }

  lemma CorrectionOnSets(table: seq<Entry>, prior: seq<Entry>, a: Address, counted: set<nat>)
    requires |table| == |prior|
    requires forall j | j in counted :: j < |table|
    requires forall j: nat | j < |table| && table[j].prio != PREFER :: j in counted <==> table[j].owner == a
    ensures |counted| + |Gain(table, prior, a, |table|)| - |Loss(table, prior, a, |table|)| - |OwnedSet(table, a)|
      == |counted * PreferredRows(table)| - |OwnedSet(prior, a) * PreferredRows(table)|
  {
    GainLossSets(table, prior, a);
    SetBalance(counted, OwnedSet(table, a), OwnedSet(prior, a), PreferredRows(table));
  }

  lemma GainLossSets(table: seq<Entry>, prior: seq<Entry>, a: Address)
    requires |table| == |prior|
    ensures Gain(table, prior, a, |table|)
      == OwnedSet(table, a) * PreferredRows(table) - OwnedSet(prior, a) * PreferredRows(table)
    ensures Loss(table, prior, a, |table|)
      == OwnedSet(prior, a) * PreferredRows(table) - OwnedSet(table, a) * PreferredRows(table)
  {}

  lemma SetBalance(counted: set<nat>, owned: set<nat>, blamed: set<nat>, rows: set<nat>)
    requires counted - rows == owned - rows
    ensures |counted| + |owned * rows - blamed * rows| - |blamed * rows - owned * rows| - |owned|
      == |counted * rows| - |blamed * rows|
  {
    assert counted == counted * rows + (counted - rows) && owned == owned * rows + (owned - rows);
    SumOfParts(counted * rows, counted - rows);
    SumOfParts(owned * rows, owned - rows);
    Differences(owned * rows, blamed * rows);
  }

  lemma SumOfParts(a: set<nat>, b: set<nat>)
    requires a !! b
    ensures |a + b| == |a| + |b|
  {}

  lemma Differences(a: set<nat>, b: set<nat>)
    ensures |a - b| - |b - a| == |a| - |b|
  {
    assert a == (a - b) + (a * b) && b == (b - a) + (a * b);
  }

  /** The incremental counts of a node agree with a recount for every member. */
  predicate CountsRight(names: seq<Address>, cfg: seq<Address>, ms: seq<StateMsg>, prior: seq<Entry>)
    requires |prior| == |cfg|
  {
    forall k | 0 <= k < |names| ::
      |CountedPreferred(cfg, ms, names[k])| == |PriorPreferred(cfg, ms, prior, names[k])|
  }

  predicate AllSpoke(names: seq<Address>, ms: seq<StateMsg>) { forall k | 0 <= k < |names| :: Spoke(ms, names[k]) }

  /** Priority_claim leaves a node with the right table and the right counts if and only if
      it recounts (because it has just matured) or its incremental counts are right. */
  lemma PriorityAgreesIff(names: seq<Address>, cfg: seq<Address>, gid: int, e: NodeState, mature: bool,
          ms: seq<StateMsg>)
    requires Enters(names, cfg, gid, e) && Heard(names, cfg, ms) && TrueToSelf(e, ms) && AllSpoke(names, ms)
    requires e.maturity || mature
    ensures InRange(ms, |names|)
    ensures Wears(LocalGathered(e.local, e.me, cfg, |names|, ms).prior, cfg)
    ensures PriorityClaim(GatherState(cfg, e, mature, ms)).shared == Base(Gathered(cfg, |names|, ms))
      <==> !e.oldMaturity || CountsRight(names, cfg, ms, LocalGathered(e.local, e.me, cfg, |names|, ms).prior)
  {
    GatheredFacts(names, cfg, ms);
    LocalFacts(names, cfg, gid, e, ms);
    var st := GatherState(cfg, e, mature, ms);
    CorrectedShared(names, cfg, ms, st.local.prior, !e.oldMaturity);
  }

  lemma CorrectedShared(names: seq<Address>, cfg: seq<Address>, ms: seq<StateMsg>, prior: seq<Entry>, recount: bool)
    requires Heard(names, cfg, ms) && InRange(ms, |names|) && AllSpoke(names, ms) && |prior| == |cfg|
    ensures var g := Gathered(cfg, |names|, ms);
      var sh := SharePriority(g, prior, |cfg|);
      (if recount then sh.(members := Recount(sh.members, sh.table)) else sh) == Base(g)
      <==> recount || CountsRight(names, cfg, ms, prior)
  {
    var g := Gathered(cfg, |names|, ms);
    var sh := SharePriority(g, prior, |cfg|);
    PriorityShared(g, prior, |cfg|);
    assert sh.table == Base(g).table;
    PromoteOwned(g.table);
    if recount {
      assert Recount(sh.members, sh.table) == Base(g).members;
    } else {
      forall k | 0 <= k < |names| { CorrectedCount(names, cfg, ms, prior, k); }
      if CountsRight(names, cfg, ms, prior) {
        assert sh.members == Base(g).members;
      } else {
        var k :| 0 <= k < |names|
          && |CountedPreferred(cfg, ms, names[k])| != |PriorPreferred(cfg, ms, prior, names[k])|;
        assert sh.members[k] != Base(g).members[k];
      }
    }
  }

  lemma PromoteOwned(table: seq<Entry>)
    ensures forall a :: OwnedSet(Promote(table), a) == OwnedSet(table, a)
  {}

  lemma CorrectedCount(names: seq<Address>, cfg: seq<Address>, ms: seq<StateMsg>, prior: seq<Entry>, k: nat)
    requires Heard(names, cfg, ms) && InRange(ms, |names|) && AllSpoke(names, ms) && |prior| == |cfg| && k < |names|
    ensures var g := Gathered(cfg, |names|, ms);
      SharePriority(g, prior, |cfg|).members[k] == Base(g).members[k]
      <==> |CountedPreferred(cfg, ms, names[k])| == |PriorPreferred(cfg, ms, prior, names[k])|
  {
    var g := Gathered(cfg, |names|, ms);
    GatheredFacts(names, cfg, ms);
    PriorityShared(g, prior, |cfg|);
    assert Known(names, cfg, ms, k, g.members[k]);
    CorrectionIsExactIff(names, cfg, ms, g.table, prior, names[k]);
  }
}
