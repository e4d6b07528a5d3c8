/** One component over time: its members carry one history from view to view, through any
    number of gathers that are interrupted, so that neither hypothesis on runs is needed. */
module History {
  import opened Tables
  import opened Protocol
  import opened Contest
  import opened Roster
  import opened Regimes
  import opened View
  import opened World
  import opened Runs

  /** All members that have entered the view so far are heirs of the owners O. */
  predicate Heirs(cfg: seq<Address>, s: Session, O: seq<Address>) {
    |O| == |cfg| && forall q | q in s.entered :: Heir(s.entered[q], O)
  }

  /** How node a may come to a view whose members share the history O: from service, on a
      table with these owners; out of an interrupted gather of a view that had the same
      history; or as a newcomer that O does not name. The owners of view u are L(u). */
  predicate Arrives(w: World, a: Address, L: nat -> seq<Address>, O: seq<Address>) {
    && a in w.nodes && a in w.places
    && var st := w.nodes[a];
       if !st.oldMaturity then a !in O
       else if st.phase == RUN then OwnersAre(st.shared.table, O)
       else w.places[a].In? && L(w.places[a].v) == O
  }

  predicate Histories(cfg: seq<Address>, w: World, L: nat -> seq<Address>) {
    forall v | 0 <= v < |w.views| :: Heirs(cfg, w.views[v], L(v))
  }

  lemma HeirsClaim(cfg: seq<Address>, v: nat, s: Session, O: seq<Address>, b: Board)
    requires SessionOk(cfg, v, s) && Heirs(cfg, s, O) && !b.Running? && Quoted(s, b)
    ensures ClaimedBy(cfg, O, b.ms)
  {
    forall i, j | 0 <= i < |b.ms| && 0 <= j < |cfg| ensures Claims(b.ms[i], cfg[j]) <==> O[j] == b.ms[i].sender {
      var e := s.entered[b.ms[i].index];
      assert Heir(e, O) && Enters(s.names, cfg, v, e);
      HeirClaims(s.names, cfg, v, e, O, j);
    }
  }

  /** A member of a gather among heirs has come to no harm, and has its old table still. */
  lemma HeirUnharmed(cfg: seq<Address>, v: nat, s: Session, O: seq<Address>, q: nat, mature: bool, ms: seq<StateMsg>)
    requires SessionOk(cfg, v, s) && Heirs(cfg, s, O) && q in s.entered
    requires Heard(s.names, cfg, ms) && Quoted(s, Gathering(mature, ms))
    ensures InRange(ms, |s.names|) && |s.entered[q].local.prior| == |cfg| && Harmless(cfg, s.entered[q], ms)
    ensures var e := s.entered[q];
      e.oldMaturity ==> OwnersAre(LocalGathered(e.local, e.me, cfg, |s.names|, ms).prior, O)
  {
    var e := s.entered[q];
    assert Enters(s.names, cfg, v, e) && TrueToSelf(e, ms) && Heir(e, O);
    HeirsClaim(cfg, v, s, O, Gathering(mature, ms));
    if e.oldMaturity { HeirKeeps(s.names, cfg, v, e, O, ms); }
    forall j | j in e.local.held && j < |cfg| ensures Unharmed(ms, e.me, cfg[j]) {
      HistoryOneClaimant(s.names, cfg, O, ms, j);
      EffectiveAreClaims(ms, e.me, cfg[j]);
    }
  }

  lemma OnBoard(cfg: seq<Address>, w: World, L: nat -> seq<Address>, a: Address)
    requires Inv(cfg, w) && Histories(cfg, w, L) && a in w.nodes && w.places[a].In?
    ensures var (u, pos, st) := (w.places[a].v, w.places[a].pos, w.nodes[a]);
      && SessionOk(cfg, u, w.views[u]) && Heirs(cfg, w.views[u], L(u))
      && st.index in w.views[u].entered && BoardOk(cfg, u, w.views[u], pos)
      && Follows(w.views[u].names, cfg, u, w.views[u].entered[st.index], BoardOf(cfg, w, u, pos), st)
  {
    assert NodeOk(cfg, w, a) && SessionOk(cfg, w.places[a].v, w.views[w.places[a].v]);
    BoardFacts(cfg, w.places[a].v, w.views[w.places[a].v], w.places[a].pos);
  }

  /** Leaving early does no harm. */
  lemma HistoryLeaves(cfg: seq<Address>, w: World, L: nat -> seq<Address>, a: Address)
    requires Inv(cfg, w) && Histories(cfg, w, L) && a in w.nodes
    ensures LeavesEarly(cfg, w, a)
  {
    if w.places[a].In? {
      OnBoard(cfg, w, L, a);
      var (u, pos, st) := (w.places[a].v, w.places[a].pos, w.nodes[a]);
      var b := BoardOf(cfg, w, u, pos);
      if b.Gathering? { HeirUnharmed(cfg, u, w.views[u], L(u), st.index, b.mature, b.ms); }
    }
  }

  lemma AllHeirs(cfg: seq<Address>, v: nat, s: Session, O: seq<Address>, pos: nat)
    requires Distinct(cfg) && SessionOk(cfg, v, s) && Heirs(cfg, s, O) && pos < |s.log| && BoardOk(cfg, v, s, pos)
    requires var (b, ev) := (BoardAt(cfg, |s.names|, v, s.log[..pos]), s.log[pos]);
      b.Gathering? && Matches(v, |s.names|, ev) && |b.ms| + 1 == |s.names|
    ensures AllIn(s) && SameHistory(s.names, cfg, Entrants(s), O)
  {
    var (b, ev) := (BoardAt(cfg, |s.names|, v, s.log[..pos]), s.log[pos]);
    EventIsProper(cfg, v, s, pos);
    assert EventOk(cfg, v, s, pos);
    EveryoneHere(cfg, s, b.ms, ev.msg);
  }

  /** A gather that completes does so in regime B. */
  lemma HistoryCompletes(cfg: seq<Address>, w: World, w': World, L: nat -> seq<Address>, a: Address)
    requires Inv(cfg, w) && Histories(cfg, w, L) && Delivers(w, w', a)
    ensures RegimeAt(cfg, w, a)
  {
    OnBoard(cfg, w, L, a);
    var (v, pos) := (w.places[a].v, w.places[a].pos);
    var (s, ev, b) := (w.views[v], w.views[v].log[pos], BoardOf(cfg, w, v, pos));
    if b.Gathering? && Matches(v, |s.names|, ev) && |b.ms| + 1 == |s.names| {
      AllHeirs(cfg, v, s, L(v), pos);
      assert OneHistory(cfg, s);
    }
  }

  /** Whoever arrives in one of the three ways enters the next view as an heir. */
  lemma ArrivesAsHeir(cfg: seq<Address>, w: World, L: nat -> seq<Address>, a: Address, gid: int, n: nat, q: nat,
          O: seq<Address>)
    requires Inv(cfg, w) && Histories(cfg, w, L) && Arrives(w, a, L, O) && |O| == |cfg| && q < n
    ensures |w.nodes[a].shared.table| == |w.nodes[a].local.prior|
    ensures Heir(HandleMembership(w.nodes[a], gid, n, q), O)
  {
    var st := w.nodes[a];
    assert NodeOk(cfg, w, a);
    if w.places[a].In? {
      OnBoard(cfg, w, L, a);
      var (u, pos) := (w.places[a].v, w.places[a].pos);
      var (s, b) := (w.views[u], BoardOf(cfg, w, u, pos));
      FollowsShape(s.names, cfg, u, s.entered[st.index], b, st);
      if b.Gathering? { HeirUnharmed(cfg, u, s, L(u), st.index, b.mature, b.ms); }
    }
  }

  /** The actions of one component: view v is entered by heirs of L(v) only. */
  predicate Descends(w: World, act: Action, L: nat -> seq<Address>) {
    act.Enter? ==> Arrives(w, act.a, L, L(act.v))
  }

  lemma HistoryStep(cfg: seq<Address>, w: World, act: Action, w': World, L: nat -> seq<Address>)
    requires Inv(cfg, w) && Histories(cfg, w, L) && (forall v: nat :: |L(v)| == |cfg|)
    requires Happens(cfg, w, act, w') && Descends(w, act, L)
    ensures Next(cfg, w, act, w') && Histories(cfg, w', L)
  {
    if act.Enter? {
      HistoryLeaves(cfg, w, L, act.a);
      ArrivesAsHeir(cfg, w, L, act.a, act.v, |w.views[act.v].names|, act.q, L(act.v));
    }
    if act.Deliver? { HistoryCompletes(cfg, w, w', L, act.a); }
    HistoryGoesOn(cfg, w, act, w', L);
  }

  lemma HistoryGoesOn(cfg: seq<Address>, w: World, act: Action, w': World, L: nat -> seq<Address>)
    requires Histories(cfg, w, L) && (forall v: nat :: |L(v)| == |cfg|) && Happens(cfg, w, act, w')
    requires act.Enter? ==> Heir(HandleMembership(w.nodes[act.a], act.v, |w.views[act.v].names|, act.q), L(act.v))
    ensures Histories(cfg, w', L)
  {
    forall v | 0 <= v < |w'.views| ensures Heirs(cfg, w'.views[v], L(v)) {
      if v < |w.views| { assert Heirs(cfg, w.views[v], L(v)); }
    }
  }

  lemma {:induction false} HistoriesKeep(cfg: seq<Address>, ws: seq<World>, acts: seq<Action>, L: nat -> seq<Address>,
          i: nat)
    requires IsBareRun(cfg, ws, acts) && (forall v: nat :: |L(v)| == |cfg|) && i < |ws|
    requires forall k | 0 <= k < |acts| :: Descends(ws[k], acts[k], L)
    ensures Inv(cfg, ws[i]) && Histories(cfg, ws[i], L)
    ensures forall k | 0 <= k < i :: Next(cfg, ws[k], acts[k], ws[k + 1])
  {
    if i == 0 {
      assert forall a | a in ws[0].nodes :: NodeOk(cfg, ws[0], a);
    } else {
      HistoriesKeep(cfg, ws, acts, L, i - 1);
      assert Happens(cfg, ws[i - 1], acts[i - 1], ws[i]) && Descends(ws[i - 1], acts[i - 1], L);
      HistoryStep(cfg, ws[i - 1], acts[i - 1], ws[i], L);
      NextKeeps(cfg, ws[i - 1], acts[i - 1], ws[i]);
    }
  }

  /** One component stays in regime B for good: whatever happens, and however often a view
      changes before its gather is complete, both hypotheses hold at every step, and the
      members of each view stay heirs of its owners. */
  lemma HistoryLasts(cfg: seq<Address>, ws: seq<World>, acts: seq<Action>, L: nat -> seq<Address>)
    requires IsBareRun(cfg, ws, acts) && forall v: nat :: |L(v)| == |cfg|
    requires forall k | 0 <= k < |acts| :: Descends(ws[k], acts[k], L)
    ensures IsRun(cfg, ws, acts)
    ensures forall i | 0 <= i < |ws| :: Histories(cfg, ws[i], L)
  {
    HistoriesKeep(cfg, ws, acts, L, |acts|);
    forall i | 0 <= i < |ws| ensures Histories(cfg, ws[i], L) { HistoriesKeep(cfg, ws, acts, L, i); }
  }
}
