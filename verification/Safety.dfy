/** What holds in every run, and how narrow the hypotheses are. */
module Safety {
  import opened Tables
  import opened Protocol
  import opened Gather
  import opened Contest
  import opened Roster
  import opened Settle
  import opened Handout
  import opened Regimes
  import opened View
  import opened World
  import opened Runs

  /** Agreement: two members of a view that have handled the same events of it are in the
      same state of the automaton with the same table and the same counts. */
  lemma Agreement(cfg: seq<Address>, ws: seq<World>, acts: seq<Action>, i: nat, a: Address, b: Address)
    requires IsRun(cfg, ws, acts) && i < |ws|
    requires a in ws[i].nodes && b in ws[i].nodes && a in ws[i].places && b in ws[i].places
    requires ws[i].places[a].In? && ws[i].places[a] == ws[i].places[b]
    ensures ws[i].nodes[a].shared == ws[i].nodes[b].shared && ws[i].nodes[a].phase == ws[i].nodes[b].phase
    ensures ws[i].nodes[a].phase == RUN ==> ws[i].nodes[a].maturity && ws[i].nodes[b].maturity
  {
    RunKeeps(cfg, ws, acts, i);
    assert NodeOk(cfg, ws[i], a) && NodeOk(cfg, ws[i], b);
  }

  /** Every member of view v is in service after the same pos events of it. */
  predicate Together(w: World, v: nat, pos: nat) {
    && v < |w.views| && |w.views[v].names| >= 1
    && forall k | 0 <= k < |w.views[v].names| :: Here(w, w.views[v].names[k], v, pos)
  }

  predicate Here(w: World, a: Address, v: nat, pos: nat) {
    a in w.nodes && a in w.places && w.places[a] == In(v, pos) && w.nodes[a].phase == RUN
  }

  /** Member k, and no other, holds entry j. */
  predicate OnlyHolder(w: World, names: seq<Address>, j: nat, k: nat)
    requires forall l | 0 <= l < |names| :: names[l] in w.nodes
  {
    k < |names| && forall l | 0 <= l < |names| :: j in w.nodes[names[l]].local.held <==> l == k
  }

  lemma HereFacts(cfg: seq<Address>, w: World, v: nat, pos: nat, k: nat)
    requires Inv(cfg, w) && Together(w, v, pos) && k < |w.views[v].names|
    ensures pos <= |w.views[v].log|
    ensures var (a, b) := (w.views[v].names[k], BoardOf(cfg, w, v, pos));
      && b.Running? && Serving(w.views[v].names, cfg, b.sh)
      && w.nodes[a].shared == b.sh && Holds(w.nodes[a].local, b.sh.table, a)
  {
    var a := w.views[v].names[k];
    assert Here(w, a, v, pos) && NodeOk(cfg, w, a);
  }

  ghost predicate HeldOnce(w: World, names: seq<Address>, j: nat)
    requires forall l | 0 <= l < |names| :: names[l] in w.nodes
  {
    exists k :: OnlyHolder(w, names, j, k)
  }

  /** What member k of a view in service holds, given the common table. */
  predicate HoldsOwn(w: World, a: Address, k: nat, sh: Shared) {
    && a in w.nodes && k < |sh.members| && w.nodes[a].shared == sh
    && w.nodes[a].local.held == OwnedSet(sh.table, a) && sh.members[k].num == |w.nodes[a].local.held|
  }

  ghost predicate Covered(cfg: seq<Address>, w: World, names: seq<Address>, sh: Shared) {
    && |sh.members| == |names| && |sh.table| == |cfg|
    && (forall k | 0 <= k < |names| :: HoldsOwn(w, names[k], k, sh))
    && (forall j | 0 <= j < |cfg| :: HeldOnce(w, names, j))
  }

  lemma CoverAt(cfg: seq<Address>, w: World, v: nat, pos: nat)
    requires Inv(cfg, w) && Together(w, v, pos)
    ensures w.views[v].names[0] in w.nodes
    ensures Covered(cfg, w, w.views[v].names, w.nodes[w.views[v].names[0]].shared)
  {
    var names := w.views[v].names;
    assert Here(w, names[0], v, pos);
    HereFacts(cfg, w, v, pos, 0);
    var sh := w.nodes[names[0]].shared;
    forall k | 0 <= k < |names| ensures HoldsOwn(w, names[k], k, sh) {
      assert Here(w, names[k], v, pos);
      HereFacts(cfg, w, v, pos, k);
    }
    forall j | 0 <= j < |cfg| ensures HeldOnce(w, names, j) {
      EntryHeldOnce(cfg, w, names, sh, j);
    }
  }

  /** Exact cover: when every member of a view has reached RUN after the same events, each
      node holds exactly the entries that are its own in the common table, every entry is
      held by exactly one member, and every count is the number of entries held. */
  lemma ExactCover(cfg: seq<Address>, ws: seq<World>, acts: seq<Action>, i: nat, v: nat, pos: nat)
    requires IsRun(cfg, ws, acts) && i < |ws| && Together(ws[i], v, pos)
    ensures ws[i].views[v].names[0] in ws[i].nodes
    ensures Covered(cfg, ws[i], ws[i].views[v].names, ws[i].nodes[ws[i].views[v].names[0]].shared)
  {
    RunKeeps(cfg, ws, acts, i);
    CoverAt(cfg, ws[i], v, pos);
  }

  lemma EntryHeldOnce(cfg: seq<Address>, w: World, names: seq<Address>, sh: Shared, j: nat)
    requires Serving(names, cfg, sh) && j < |cfg|
    requires forall k | 0 <= k < |names| ::
      names[k] in w.nodes && w.nodes[names[k]].local.held == OwnedSet(sh.table, names[k])
    ensures HeldOnce(w, names, j)
  {
    assert Placed(names, sh.table[j]);
    var k :| 0 <= k < |names| && names[k] == sh.table[j].owner;
    assert OnlyHolder(w, names, j, k);
  }

  /** In every world of every run each node counts exactly what it holds. */
  lemma CountsWhatItHolds(cfg: seq<Address>, ws: seq<World>, acts: seq<Action>, i: nat, a: Address)
    requires IsRun(cfg, ws, acts) && i < |ws| && a in ws[i].nodes
    ensures ws[i].nodes[a].local.num == |ws[i].nodes[a].local.held|
  {
    RunKeeps(cfg, ws, acts, i);
    assert NodeOk(cfg, ws[i], a);
    if ws[i].places[a].In? {
      var st := ws[i].nodes[a];
      var s := ws[i].views[ws[i].places[a].v];
      var b := BoardOf(cfg, ws[i], ws[i].places[a].v, ws[i].places[a].pos);
      if !b.Running? { LocalFacts(s.names, cfg, ws[i].places[a].v, s.entered[st.index], b.ms); }
    }
  }

  /** The assertion in Send_state_message holds whenever it is reached in a run: the number
      of old-table entries that the node owns is its count, and they are what it holds. */
  lemma SendStateAssertion(cfg: seq<Address>, ws: seq<World>, acts: seq<Action>, i: nat)
    requires IsRun(cfg, ws, acts) && i < |acts| && acts[i].Enter?
    ensures acts[i].a in ws[i + 1].nodes
    ensures var st := ws[i + 1].nodes[acts[i].a];
      |MakeState(st).claims| == st.local.num == |st.local.held| && st.local.held == OwnedSet(st.local.prior, st.me)
  {
    RunKeeps(cfg, ws, acts, i);
    var Enter(a, v, q) := acts[i];
    assert Next(cfg, ws[i], acts[i], ws[i + 1]);
    EnterStart(cfg, ws[i], ws[i + 1], a, v, q);
    SendsWellFormed(ws[i].views[v].names, cfg, v, ws[i + 1].nodes[a]);
  }

  // ----- how a contest ends -----

  lemma {:induction false} PriorityDowns(lo: Local, me: Address, table: seq<Entry>, i: nat, j: nat)
    requires i <= |table| == |lo.prior| && j < |table| && table[j].prio != PREFER
    ensures LocalPriority(lo, me, table, i).downs[j] == lo.downs[j]
  {
    if i > 0 { PriorityDowns(lo, me, table, i - 1, j); }
  }

  /** When the last STATE message of a gather without preferences arrives, each entry that
      was claimed belongs to the winner of the contest; the winner holds it, and every other
      node that held it has taken it down exactly once. */
  lemma ContestSettled(names: seq<Address>, cfg: seq<Address>, gid: int, e: NodeState, mature: bool,
          ms: seq<StateMsg>, j: nat)
    requires Enters(names, cfg, gid, e) && Heard(names, cfg, ms) && TrueToSelf(e, ms) && AllSpoke(names, ms)
    requires (e.maturity || mature) && NoPreference(cfg, ms) && j < |cfg| && Claimants(ms, cfg[j]) >= 1
    ensures InRange(ms, |names|)
    ensures var r := ClaimUnclaimed(PriorityClaim(GatherState(cfg, e, mature, ms)));
      var winner := Winner(ms, cfg[j]).owner;
      && Spoke(ms, winner) && r.shared.table[j].owner == winner && r.shared.table[j].prio == Winner(ms, cfg[j]).prio
      && (j in r.local.held <==> e.me == winner)
      && r.local.downs[j] == if j in e.local.held && e.me != winner then 1 else 0
  {
    GatheredFacts(names, cfg, ms);
    LocalFacts(names, cfg, gid, e, ms);
    ContestGoesTo(names, cfg, ms, cfg[j]);
    EntryFacts(names, cfg, ms, cfg[j]);
    assert Spoke(ms, names[e.index]);
    HoldsWhatItWon(names, cfg, gid, e, ms, j);
    var st := GatherState(cfg, e, mature, ms);
    QuietCountsRight(names, cfg, ms, st.local.prior);
    SettlesInService(names, cfg, gid, e, mature, ms, st);
    ContestDowns(names, cfg, gid, e, mature, ms, j);
    PlacedStays(Base(st.shared), |cfg|, j);
  }

  /** Nothing more is taken down at the end of the gather. */
  lemma ContestDowns(names: seq<Address>, cfg: seq<Address>, gid: int, e: NodeState, mature: bool,
          ms: seq<StateMsg>, j: nat)
    requires Enters(names, cfg, gid, e) && Heard(names, cfg, ms) && TrueToSelf(e, ms) && AllSpoke(names, ms)
    requires (e.maturity || mature) && NoPreference(cfg, ms) && j < |cfg|
    ensures InRange(ms, |names|)
    ensures var st := GatherState(cfg, e, mature, ms);
      ClaimUnclaimed(PriorityClaim(st)).local.downs[j] == st.local.downs[j]
  {
    GatheredFacts(names, cfg, ms);
    var st := GatherState(cfg, e, mature, ms);
    QuietCountsRight(names, cfg, ms, st.local.prior);
    PriorityAgreesIff(names, cfg, gid, e, mature, ms);
    PriorityDowns(st.local, e.me, st.shared.table, |cfg|, j);
    HoldsWhenSettled(names, cfg, gid, e, ms);
  }

  /** Claim_unclaimed leaves every claimed entry alone. */
  lemma {:induction false} PlacedStays(base: Shared, i: nat, j: nat)
    requires i <= |base.table| && j < |base.table| && |base.members| >= 1 && base.table[j].prio != UNCLAIMED
    ensures ShareUnclaimed(base, i).table[j] == base.table[j]
  {
    if i > 0 { PlacedStays(base, i - 1, j); }
  }

  // ----- the hypotheses -----

  /** The next assertion in Send_state_message, for a node that leaves a gather early: it
      holds if and only if, for each entry the node held when the view began, the node's own
      claim took effect or at most one other did. */
  lemma EarlyAssertionIff(names: seq<Address>, cfg: seq<Address>, gid: int, e: NodeState, mature: bool,
          ms: seq<StateMsg>, gid': int, n: nat, q: nat)
    requires Enters(names, cfg, gid, e) && Heard(names, cfg, ms) && TrueToSelf(e, ms) && q < n
    ensures InRange(ms, |names|)
    ensures var st := HandleMembership(GatherState(cfg, e, mature, ms), gid', n, q);
      |MakeState(st).claims| == st.local.num
      <==> Harmless(cfg, e, ms)
  {
    LocalFacts(names, cfg, gid, e, ms);
    GatheredFacts(names, cfg, ms);
    var lo := LocalGathered(e.local, e.me, cfg, |names|, ms);
    OwnClaimsShape(lo.prior, cfg, e.me);
    StillOwnsAll(names, cfg, gid, e, ms);
  }

  lemma StillOwnsAll(names: seq<Address>, cfg: seq<Address>, gid: int, e: NodeState, ms: seq<StateMsg>)
    requires Enters(names, cfg, gid, e) && Heard(names, cfg, ms) && TrueToSelf(e, ms)
    ensures InRange(ms, |names|)
    ensures var lo := LocalGathered(e.local, e.me, cfg, |names|, ms);
      |OwnedSet(lo.prior, e.me)| == |lo.held|
      <==> Harmless(cfg, e, ms)
  {
    LocalFacts(names, cfg, gid, e, ms);
    var lo := LocalGathered(e.local, e.me, cfg, |names|, ms);
    var harmed := set j | j in e.local.held && j < |cfg| && !Unharmed(ms, e.me, cfg[j]);
    forall j: nat | j < |cfg|
      ensures j in OwnedSet(lo.prior, e.me) <==> j in lo.held && j !in harmed
      ensures j in harmed ==> j in lo.held
    {
      StillOwns(names, cfg, gid, e, ms, j);
    }
    assert OwnedSet(lo.prior, e.me) == lo.held - harmed;
    SubsetSize(lo.held - harmed, lo.held);
    assert |OwnedSet(lo.prior, e.me)| == |lo.held| <==> harmed == {};
  }

  lemma StillOwns(names: seq<Address>, cfg: seq<Address>, gid: int, e: NodeState, ms: seq<StateMsg>, j: nat)
    requires Enters(names, cfg, gid, e) && Heard(names, cfg, ms) && TrueToSelf(e, ms) && j < |cfg|
    ensures InRange(ms, |names|)
    ensures var lo := LocalGathered(e.local, e.me, cfg, |names|, ms);
      && |lo.prior| == |cfg|
      && (lo.prior[j].owner == e.me ==> j in lo.held)
      && (j in lo.held ==> j in e.local.held && (lo.prior[j].owner == e.me <==> Unharmed(ms, e.me, cfg[j])))
      && (j in e.local.held && !Unharmed(ms, e.me, cfg[j]) ==> j in lo.held)
  {
    LocalFacts(names, cfg, gid, e, ms);
    HonestCells(names, cfg, gid, e, ms, j);
    PriorFacts(names, cfg, e.me, CellOf(e.local, j), ms, cfg[j]);
    assert CellOf(LocalGathered(e.local, e.me, cfg, |names|, ms), j) == CellAfter(CellOf(e.local, j), e.me, ms, cfg[j]);
  }

  /** At most two members claim any one entry that node e held, itself included. */
  predicate AtMostTwo(cfg: seq<Address>, e: NodeState, ms: seq<StateMsg>) {
    forall j | j in e.local.held && j < |cfg| :: Claimants(ms, cfg[j]) + (if !Spoke(ms, e.me) then 1 else 0) <= 2
  }

  /** Two claimants do no harm, so that three are needed for the assertion to fail. */
  lemma TwoDoNoHarm(names: seq<Address>, cfg: seq<Address>, gid: int, e: NodeState, ms: seq<StateMsg>)
    requires Enters(names, cfg, gid, e) && Heard(names, cfg, ms) && TrueToSelf(e, ms) && AtMostTwo(cfg, e, ms)
    ensures Harmless(cfg, e, ms)
  {
    forall j | j in e.local.held && j < |cfg| ensures Unharmed(ms, e.me, cfg[j]) {
      HonestCells(names, cfg, gid, e, ms, j);
      EffectiveAreClaims(ms, e.me, cfg[j]);
      if Spoke(ms, e.me) {
        var i :| 0 <= i < |ms| && ms[i].sender == e.me;
        assert Claims(ms[i], cfg[j]);
      }
    }
  }

  /** A node that leaves a gather before it is complete leaves one in which at most two members
      claim any one entry it held. */
  predicate LeavesFewRivals(cfg: seq<Address>, w: World, a: Address) {
    a in w.places && w.places[a].In? ==>
      var (v, pos) := (w.places[a].v, w.places[a].pos);
      v < |w.views| && pos <= |w.views[v].log| && |w.views[v].names| >= 1 && a in w.nodes
      && w.nodes[a].index in w.views[v].entered && BoardOf(cfg, w, v, pos).Gathering? ==>
        AtMostTwo(cfg, w.views[v].entered[w.nodes[a].index], BoardOf(cfg, w, v, pos).ms)
  }

  lemma FewRivalsLeave(cfg: seq<Address>, w: World, a: Address)
    requires Inv(cfg, w) && a in w.nodes && LeavesFewRivals(cfg, w, a)
    ensures LeavesEarly(cfg, w, a)
  {
    assert NodeOk(cfg, w, a);
    if w.places[a].In? {
      var (v, pos, st) := (w.places[a].v, w.places[a].pos, w.nodes[a]);
      var (s, b) := (w.views[v], BoardOf(cfg, w, v, pos));
      if b.Gathering? { TwoDoNoHarm(s.names, cfg, v, s.entered[st.index], b.ms); }
    }
  }

  /** What is asked of an action when at most two members claim any one entry. */
  ghost predicate FewRivals(cfg: seq<Address>, w: World, act: Action) {
    (act.Enter? ==> LeavesFewRivals(cfg, w, act.a)) && (act.Deliver? ==> RegimeAt(cfg, w, act.a))
  }

  lemma {:induction false} FewRivalsKeep(cfg: seq<Address>, ws: seq<World>, acts: seq<Action>, i: nat)
    requires IsBareRun(cfg, ws, acts) && i < |ws| && forall k | 0 <= k < |acts| :: FewRivals(cfg, ws[k], acts[k])
    ensures Inv(cfg, ws[i]) && forall k | 0 <= k < i :: Next(cfg, ws[k], acts[k], ws[k + 1])
  {
    if i == 0 {
      assert forall a | a in ws[0].nodes :: NodeOk(cfg, ws[0], a);
    } else {
      var n := i - 1;
      FewRivalsKeep(cfg, ws, acts, n);
      assert Happens(cfg, ws[n], acts[n], ws[i]) && FewRivals(cfg, ws[n], acts[n]);
      if acts[n].Enter? { FewRivalsLeave(cfg, ws[n], acts[n].a); }
      NextKeeps(cfg, ws[n], acts[n], ws[i]);
    }
  }

  /** The sender's assertion: as many own old-table entries as counted and as held. */
  predicate Asserted(w: World, a: Address) {
    a in w.nodes && var st := w.nodes[a];
      |MakeState(st).claims| == st.local.num == |st.local.held| && st.local.held == OwnedSet(st.local.prior, st.me)
  }

  /** If no node leaves an unfinished gather in which more than two members claim one entry, and
      the gathers that complete do so in one of the regimes, then the steps are a run: everything
      proved of runs holds, and so does the assertion in Send_state_message, each time a STATE
      message is sent. */
  lemma TwoClaimantsSuffice(cfg: seq<Address>, ws: seq<World>, acts: seq<Action>)
    requires IsBareRun(cfg, ws, acts) && forall k | 0 <= k < |acts| :: FewRivals(cfg, ws[k], acts[k])
    ensures IsRun(cfg, ws, acts)
    ensures forall i | 0 <= i < |acts| && acts[i].Enter? :: Asserted(ws[i + 1], acts[i].a)
  {
    FewRivalsKeep(cfg, ws, acts, |acts|);
    forall i | 0 <= i < |acts| && acts[i].Enter? ensures Asserted(ws[i + 1], acts[i].a) {
      SendStateAssertion(cfg, ws, acts, i);
    }
  }
}
