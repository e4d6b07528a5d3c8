/** When every member settles on the same counts: either no preference is installed, or all
    the members that were in service before come with the same old table. */
module Regimes {
  import opened Tables
  import opened Protocol
  import opened Gather
  import opened Contest
  import opened Tally
  import opened Roster
  import opened Settle
  import opened Handout

  /** Regime A: the gather ends without a preference to install. */
  predicate NoPreference(cfg: seq<Address>, ms: seq<StateMsg>) {
    forall j | 0 <= j < |cfg| :: EntryAfter(ms, cfg[j]).prio != PREFER
  }

  predicate OwnersAre(table: seq<Entry>, O: seq<Address>) {
    |table| == |O| && forall j | 0 <= j < |O| :: table[j].owner == O[j]
  }

  /** A member that was in service comes with the owners O in its old table; a newcomer is not
      among them. */
  predicate Heir(e: NodeState, O: seq<Address>) { if e.oldMaturity then OwnersAre(e.local.prior, O) else e.me !in O }

  /** Regime B: all members are heirs of the same owners. */
  predicate SameHistory(names: seq<Address>, cfg: seq<Address>, es: seq<NodeState>, O: seq<Address>) {
    |es| == |names| && |O| == |cfg| && forall k | 0 <= k < |es| :: Heir(es[k], O)
  }

  /** All members, as they entered, and what they said. */
  predicate Company(names: seq<Address>, cfg: seq<Address>, gid: int, es: seq<NodeState>, ms: seq<StateMsg>) {
    && |es| == |names| && Heard(names, cfg, ms)
    && (forall k | 0 <= k < |es| :: Enters(names, cfg, gid, es[k]) && es[k].index == k)
    && (forall i | 0 <= i < |ms| :: ms[i].index < |es| && ms[i] == MakeState(es[ms[i].index]))
  }

  /** In regime A there is nothing to correct. */
  lemma QuietCountsRight(names: seq<Address>, cfg: seq<Address>, ms: seq<StateMsg>, prior: seq<Entry>)
    requires NoPreference(cfg, ms) && |prior| == |cfg|
    ensures CountsRight(names, cfg, ms, prior)
  {
    forall k | 0 <= k < |names|
      ensures |CountedPreferred(cfg, ms, names[k])| == |PriorPreferred(cfg, ms, prior, names[k])|
    {
      assert CountedPreferred(cfg, ms, names[k]) == {} == PriorPreferred(cfg, ms, prior, names[k]);
    }
  }

  /** If all claimants of an address are the same member, there is at most one claim. */
  lemma {:induction false} OneClaimant(names: seq<Address>, cfg: seq<Address>, ms: seq<StateMsg>, p: Address,
          a: Address)
    requires Heard(names, cfg, ms)
    requires forall i | 0 <= i < |ms| && Claims(ms[i], p) :: ms[i].sender == a
    ensures Claimants(ms, p) <= if Spoke(ms, a) then 1 else 0
  {
    if ms != [] {
      SpeaksOnce(names, cfg, ms);
      OneClaimant(names, cfg, ms[..|ms| - 1], p, a);
    }
  }

  /** Without rivals an old-table entry is never overwritten. */
  lemma {:induction false} PriorKept(names: seq<Address>, cfg: seq<Address>, me: Address, c: Cell, ms: seq<StateMsg>,
          p: Address)
    requires Heard(names, cfg, ms) && Claimants(ms, p) <= 1
    ensures CellAfter(c, me, ms, p).prior == c.prior
  {
    if ms != [] {
      var n := |ms| - 1;
      SpeaksOnce(names, cfg, ms);
      PriorKept(names, cfg, me, c, ms[..n], p);
      EntryFacts(names, cfg, ms[..n], p);
      ClaimsAreManaged(ms[n].claims, p);
    }
  }

  /** An heir claims an entry exactly when O gives it the entry. */
  lemma HeirClaims(names: seq<Address>, cfg: seq<Address>, gid: int, e: NodeState, O: seq<Address>, j: nat)
    requires Enters(names, cfg, gid, e) && Heir(e, O) && |O| == |cfg| && j < |cfg|
    ensures Claims(MakeState(e), cfg[j]) <==> O[j] == e.me
  {
    OwnClaimsPrio(e.local.prior, cfg, e.me);
    if !e.oldMaturity { assert j !in OwnedSet(e.local.prior, e.me); }
  }

  predicate ClaimedBy(cfg: seq<Address>, O: seq<Address>, ms: seq<StateMsg>)
    requires |O| == |cfg|
  {
    forall i, j | 0 <= i < |ms| && 0 <= j < |cfg| :: Claims(ms[i], cfg[j]) <==> O[j] == ms[i].sender
  }

  lemma HistoryClaims(names: seq<Address>, cfg: seq<Address>, gid: int, es: seq<NodeState>, O: seq<Address>,
          ms: seq<StateMsg>)
    requires Company(names, cfg, gid, es, ms) && SameHistory(names, cfg, es, O)
    ensures ClaimedBy(cfg, O, ms)
  {
    forall i, j | 0 <= i < |ms| && 0 <= j < |cfg| ensures Claims(ms[i], cfg[j]) <==> O[j] == ms[i].sender {
      assert Enters(names, cfg, gid, es[ms[i].index]);
      HeirClaims(names, cfg, gid, es[ms[i].index], O, j);
    }
  }

  lemma HistoryOneClaimant(names: seq<Address>, cfg: seq<Address>, O: seq<Address>, ms: seq<StateMsg>, j: nat)
    requires Heard(names, cfg, ms) && |O| == |cfg| && ClaimedBy(cfg, O, ms) && j < |cfg|
    ensures Claimants(ms, cfg[j]) <= 1
  {
    OneClaimant(names, cfg, ms, cfg[j], O[j]);
  }

  /** Among heirs of the same owners nothing is overwritten: the old table stays. */
  lemma HeirKeeps(names: seq<Address>, cfg: seq<Address>, gid: int, e: NodeState, O: seq<Address>, ms: seq<StateMsg>)
    requires Enters(names, cfg, gid, e) && Heard(names, cfg, ms) && TrueToSelf(e, ms)
    requires |O| == |cfg| && ClaimedBy(cfg, O, ms) && OwnersAre(e.local.prior, O)
    ensures InRange(ms, |names|)
    ensures OwnersAre(LocalGathered(e.local, e.me, cfg, |names|, ms).prior, O)
  {
    LocalFacts(names, cfg, gid, e, ms);
    var lo := LocalGathered(e.local, e.me, cfg, |names|, ms);
    forall j | 0 <= j < |cfg| ensures lo.prior[j].owner == O[j] {
      HistoryOneClaimant(names, cfg, O, ms, j);
      PriorKept(names, cfg, e.me, CellOf(e.local, j), ms, cfg[j]);
      assert CellOf(lo, j) == CellAfter(CellOf(e.local, j), e.me, ms, cfg[j]);
    }
  }

  lemma HistoryRow(names: seq<Address>, cfg: seq<Address>, O: seq<Address>, ms: seq<StateMsg>, a: Address, j: nat)
    requires Heard(names, cfg, ms) && |O| == |cfg| && ClaimedBy(cfg, O, ms) && Spoke(ms, a) && j < |cfg|
    ensures CountedAt(ms, cfg[j], a) <==> O[j] == a
  {
    HistoryOneClaimant(names, cfg, O, ms, j);
    CountedForClaimant(names, cfg, ms, cfg[j], a);
    var i :| 0 <= i < |ms| && ms[i].sender == a;
    assert Claims(ms[i], cfg[j]) <==> O[j] == ms[i].sender;
  }

  /** In regime B the old table blames the member that the STATE messages counted. */
  lemma HistoryCountsRight(names: seq<Address>, cfg: seq<Address>, gid: int, es: seq<NodeState>, O: seq<Address>,
          ms: seq<StateMsg>, n: nat)
    requires Company(names, cfg, gid, es, ms) && SameHistory(names, cfg, es, O) && AllSpoke(names, ms)
    requires n < |es| && es[n].oldMaturity && InRange(ms, |names|)
    ensures |LocalGathered(es[n].local, es[n].me, cfg, |names|, ms).prior| == |cfg|
    ensures CountsRight(names, cfg, ms, LocalGathered(es[n].local, es[n].me, cfg, |names|, ms).prior)
  {
    var prior := LocalGathered(es[n].local, es[n].me, cfg, |names|, ms).prior;
    assert Enters(names, cfg, gid, es[n]) && TrueToSelf(es[n], ms) && Heir(es[n], O);
    HistoryClaims(names, cfg, gid, es, O, ms);
    HeirKeeps(names, cfg, gid, es[n], O, ms);
    forall k | 0 <= k < |names|
      ensures |CountedPreferred(cfg, ms, names[k])| == |PriorPreferred(cfg, ms, prior, names[k])|
    {
      forall j: nat | j < |cfg| ensures CountedAt(ms, cfg[j], names[k]) <==> prior[j].owner == names[k] {
        HistoryRow(names, cfg, O, ms, names[k], j);
      }
      assert CountedPreferred(cfg, ms, names[k]) == PriorPreferred(cfg, ms, prior, names[k]);
    }
  }

  /** In either regime member n settles on the common counts, and comes to no harm on a
      preferred entry. */
  lemma RegimesSettle(names: seq<Address>, cfg: seq<Address>, gid: int, es: seq<NodeState>, ms: seq<StateMsg>, n: nat)
    requires Company(names, cfg, gid, es, ms) && AllSpoke(names, ms) && n < |es| && InRange(ms, |names|)
    requires NoPreference(cfg, ms) || exists O :: SameHistory(names, cfg, es, O)
    ensures |LocalGathered(es[n].local, es[n].me, cfg, |names|, ms).prior| == |cfg|
    ensures !es[n].oldMaturity
      || CountsRight(names, cfg, ms, LocalGathered(es[n].local, es[n].me, cfg, |names|, ms).prior)
    ensures Spoiled(cfg, es[n], ms) == {}
  {
    assert Enters(names, cfg, gid, es[n]);
    if NoPreference(cfg, ms) {
      QuietCountsRight(names, cfg, ms, LocalGathered(es[n].local, es[n].me, cfg, |names|, ms).prior);
    } else {
      var O :| SameHistory(names, cfg, es, O);
      if es[n].oldMaturity { HistoryCountsRight(names, cfg, gid, es, O, ms, n); }
      HistoryClaims(names, cfg, gid, es, O, ms);
      forall j: nat | j < |cfg| ensures Unharmed(ms, es[n].me, cfg[j]) {
        HistoryOneClaimant(names, cfg, O, ms, j);
        EffectiveAreClaims(ms, es[n].me, cfg[j]);
      }
    }
  }
}
