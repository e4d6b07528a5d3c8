/** The invariant of World.dfy holds in every run, and what it gives the operator of a
    cluster: agreement, exact cover, and counts that are always right. */
module Runs {
  import opened Tables
  import opened Protocol
  import opened Gather
  import opened Contest
  import opened Roster
  import opened Settle
  import opened Handout
  import opened Regimes
  import opened View
  import opened Balancing
  import opened World

  // ----- one view -----

  /** Every STATE message on the board is the one its sender entered with. */
  predicate Quoted(s: Session, b: Board) {
    !b.Running? ==>
      forall i | 0 <= i < |b.ms| :: b.ms[i].index in s.entered && b.ms[i] == MakeState(s.entered[b.ms[i].index])
  }

  predicate BoardOk(cfg: seq<Address>, v: nat, s: Session, k: nat)
    requires |s.names| >= 1 && k <= |s.log|
  {
    var b := BoardAt(cfg, |s.names|, v, s.log[..k]);
    Heeded(s.names, cfg, b) && Faithful(s.names, v, s.log[..k], b) && Quoted(s, b)
  }

  lemma EventIsProper(cfg: seq<Address>, v: nat, s: Session, k: nat)
    requires Distinct(cfg) && SessionOk(cfg, v, s) && k < |s.log| && BoardOk(cfg, v, s, k)
    ensures Proper(s.names, cfg, v, BoardAt(cfg, |s.names|, v, s.log[..k]), s.log[k])
  {
    assert EventOk(cfg, v, s, k);
    if s.log[k].State? && s.log[k].msg.gid == v {
      SendsWellFormed(s.names, cfg, v, s.entered[s.log[k].msg.index]);
    }
  }

  /** Playing an event keeps the board faithful to the events. */
  lemma FaithfulPlay(names: seq<Address>, cfg: seq<Address>, gid: int, log: seq<Event>, b: Board, ev: Event)
    requires Distinct(names) && |names| >= 1 && Fits(b, |names|) && Faithful(names, gid, log, b)
    requires Heeded(names, cfg, b) && Proper(names, cfg, gid, b, ev)
    ensures Faithful(names, gid, log + [ev], Play(cfg, |names|, gid, b, ev))
  {
    forall q: nat ensures Voiced(log, gid, q) ==> Voiced(log + [ev], gid, q) { VoicedMore(log, ev, gid, q); }
    if b.Gathering? && Matches(gid, |names|, ev) {
      VoicedMore(log, ev, gid, ev.msg.index);
      if |b.ms| + 1 >= |names| { EveryoneVoiced(names, cfg, gid, log, b.ms, ev.msg); }
    }
  }

  lemma EveryoneVoiced(names: seq<Address>, cfg: seq<Address>, gid: int, log: seq<Event>, ms: seq<StateMsg>,
          m: StateMsg)
    requires Heard(names, cfg, ms) && WellFormed(names, cfg, m) && |ms| + 1 >= |names| && m.gid == gid
    requires forall i | 0 <= i < |ms| :: ms[i].index != m.index && Voiced(log, gid, ms[i].index)
    ensures forall k | 0 <= k < |names| :: Voiced(log + [State(m)], gid, k)
  {
    HeardMore(names, cfg, ms, m);
    EveryoneSpoke(names, cfg, ms + [m]);
    forall k | 0 <= k < |names| ensures Voiced(log + [State(m)], gid, k) {
      VoicedMore(log, State(m), gid, k);
      assert Spoke(ms + [m], names[k]);
      var i :| 0 <= i < |ms + [m]| && (ms + [m])[i].sender == names[k];
      assert WellFormed(names, cfg, (ms + [m])[i]);
    }
  }

  lemma BoardNext(cfg: seq<Address>, n: nat, gid: int, log: seq<Event>, pos: nat)
    requires n >= 1 && pos < |log|
    ensures BoardAt(cfg, n, gid, log[..pos + 1]) == Play(cfg, n, gid, BoardAt(cfg, n, gid, log[..pos]), log[pos])
  {
    assert log[..pos + 1][..pos] == log[..pos];
  }

  /** What one event adds to the messages quoted. */
  lemma QuotedPlay(cfg: seq<Address>, v: nat, s: Session, b: Board, k: nat)
    requires |s.names| >= 1 && Fits(b, |s.names|) && Quoted(s, b) && k < |s.log| && EventOk(cfg, v, s, k)
    ensures Quoted(s, Play(cfg, |s.names|, v, b, s.log[k]))
  {}

  lemma BoardOkNext(cfg: seq<Address>, v: nat, s: Session, k: nat)
    requires Distinct(cfg) && SessionOk(cfg, v, s) && k < |s.log| && BoardOk(cfg, v, s, k)
    ensures BoardOk(cfg, v, s, k + 1)
  {
    var b := BoardAt(cfg, |s.names|, v, s.log[..k]);
    EventIsProper(cfg, v, s, k);
    assert EventOk(cfg, v, s, k);
    FaithfulPlay(s.names, cfg, v, s.log[..k], b, s.log[k]);
    QuotedPlay(cfg, v, s, b, k);
    PlayHeeds(s.names, cfg, v, b, s.log[k]);
    BoardNext(cfg, |s.names|, v, s.log, k);
    assert s.log[..k + 1] == s.log[..k] + [s.log[k]];
  }

  /** In the events of a view that only has proper ones, the board is always in order. */
  lemma {:induction false} BoardFacts(cfg: seq<Address>, v: nat, s: Session, k: nat)
    requires Distinct(cfg) && SessionOk(cfg, v, s) && k <= |s.log|
    ensures BoardOk(cfg, v, s, k)
  {
    if k > 0 {
      BoardFacts(cfg, v, s, k - 1);
      BoardOkNext(cfg, v, s, k - 1);
    }
  }

  /** A table in service stays as it is while no moves are played. */
  lemma {:induction false} RunningStays(cfg: seq<Address>, n: nat, gid: int, log: seq<Event>, pos: nat, k: nat)
    requires n >= 1 && pos <= k <= |log| && NoMoves(log[pos..]) && BoardAt(cfg, n, gid, log[..pos]).Running?
    ensures BoardAt(cfg, n, gid, log[..k]) == BoardAt(cfg, n, gid, log[..pos])
  {
    if k > pos {
      RunningStays(cfg, n, gid, log, pos, k - 1);
      BoardNext(cfg, n, gid, log, k - 1);
      assert log[k - 1] == log[pos..][k - 1 - pos];
    }
  }

  // ----- leaving a view -----

  /** What a node carries out of a view, at whatever point it leaves, is consistent. */
  lemma LeavesRested(names: seq<Address>, cfg: seq<Address>, gid: int, e: NodeState, b: Board, st: NodeState)
    requires Follows(names, cfg, gid, e, b, st)
    requires b.Gathering? ==> Harmless(cfg, e, b.ms)
    ensures |st.shared.table| == |st.local.prior|
    ensures forall gid', n, q: nat | q < n :: Rested(cfg, HandleMembership(st, gid', n, q))
    ensures Wears(st.shared.table, cfg)
  {
    match b {
      case Running(sh) =>
        forall j | 0 <= j < |cfg| ensures Managed(sh.table[j].prio) { assert Placed(names, sh.table[j]); }
      case Gathering(mature, ms) =>
        LeavesGather(names, cfg, gid, e, mature, ms);
        GatheredFacts(names, cfg, ms);
      case Waiting(ms) =>
        LeavesGather(names, cfg, gid, e, false, ms);
        GatheredFacts(names, cfg, ms);
    }
  }

  lemma LeavesGather(names: seq<Address>, cfg: seq<Address>, gid: int, e: NodeState, mature: bool, ms: seq<StateMsg>)
    requires Enters(names, cfg, gid, e) && Heard(names, cfg, ms) && TrueToSelf(e, ms)
    requires !e.maturity || Harmless(cfg, e, ms)
    ensures InRange(ms, |names|)
    ensures var lo := LocalGathered(e.local, e.me, cfg, |names|, ms);
      && Wears(lo.prior, cfg) && lo.held == OwnedSet(lo.prior, e.me) && lo.num == |lo.held| && lo.held <= e.local.held
      && forall j | 0 <= j < |cfg| && lo.prior[j].owner == e.me :: Managed(lo.prior[j].prio)
  {
    LocalFacts(names, cfg, gid, e, ms);
    var lo := LocalGathered(e.local, e.me, cfg, |names|, ms);
    forall j: nat | j < |cfg|
      ensures j in lo.held <==> lo.prior[j].owner == e.me
      ensures lo.prior[j].owner == e.me ==> Managed(lo.prior[j].prio)
    {
      HonestCells(names, cfg, gid, e, ms, j);
      CellFacts(names, cfg, e.me, CellOf(e.local, j), ms, cfg[j]);
      PriorFacts(names, cfg, e.me, CellOf(e.local, j), ms, cfg[j]);
      assert CellOf(lo, j) == CellAfter(CellOf(e.local, j), e.me, ms, cfg[j]);
      assert j in e.local.held ==> e.maturity && Unharmed(ms, e.me, cfg[j]);
    }
  }

  // ----- the steps keep the invariant -----

  /** A view only ever gains events and members. */
  predicate Grown(s: Session, s': Session) {
    && s'.names == s.names && |s.log| <= |s'.log| && s'.log[..|s.log|] == s.log
    && forall q | q in s.entered :: q in s'.entered && s'.entered[q] == s.entered[q]
  }

  predicate AllGrown(w: World, w': World) {
    |w.views| <= |w'.views| && forall v | 0 <= v < |w.views| :: Grown(w.views[v], w'.views[v])
  }

  /** A node is unaffected by a step that changes neither it nor its place. */
  lemma NodeKept(cfg: seq<Address>, w: World, w': World, a: Address)
    requires a in w.nodes && a in w.places && NodeOk(cfg, w, a) && AllGrown(w, w')
    requires a in w'.nodes && a in w'.places && w'.nodes[a] == w.nodes[a] && w'.places[a] == w.places[a]
    ensures NodeOk(cfg, w', a)
  {
    if w.places[a].In? {
      var (v, pos) := (w.places[a].v, w.places[a].pos);
      assert Grown(w.views[v], w'.views[v]);
      assert w'.views[v].log[..pos] == w'.views[v].log[..|w.views[v].log|][..pos] == w.views[v].log[..pos];
    }
  }

  /** If all views only grow and stay in order, it is enough to look at the node that moved. */
  lemma InvKept(cfg: seq<Address>, w: World, w': World, moved: set<Address>)
    requires Inv(cfg, w) && AllGrown(w, w')
    requires w'.nodes.Keys == w'.places.Keys == w.nodes.Keys
    requires forall v | 0 <= v < |w'.views| :: SessionOk(cfg, v, w'.views[v])
    requires forall a | a in w.nodes :: if a in moved then NodeOk(cfg, w', a)
      else w'.nodes[a] == w.nodes[a] && w'.places[a] == w.places[a]
    ensures Inv(cfg, w')
  {
    forall a | a in w'.nodes ensures a in w'.places && NodeOk(cfg, w', a) {
      assert NodeOk(cfg, w, a);
      if a !in moved { NodeKept(cfg, w, w', a); }
    }
  }

  lemma OneGrown(w: World, v: nat, s': Session)
    requires v < |w.views| && Grown(w.views[v], s')
    ensures AllGrown(w, w.(views := w.views[v := s']))
  {
    forall u | 0 <= u < |w.views| ensures Grown(w.views[u], w.views[u]) {}
  }

  lemma OpenKeeps(cfg: seq<Address>, w: World, w': World, names: seq<Address>)
    requires Inv(cfg, w) && OpensView(w, w', names)
    ensures Inv(cfg, w')
  {
    forall v | 0 <= v < |w'.views| ensures SessionOk(cfg, v, w'.views[v]) {
      if v < |w.views| { assert SessionOk(cfg, v, w.views[v]); }
    }
    forall u | 0 <= u < |w.views| ensures Grown(w.views[u], w'.views[u]) {}
    InvKept(cfg, w, w', {});
  }

  lemma EnterStart(cfg: seq<Address>, w: World, w': World, a: Address, v: nat, q: nat)
    requires Inv(cfg, w) && EntersView(w, w', a, v, q) && LeavesEarly(cfg, w, a)
    ensures Enters(w.views[v].names, cfg, v, HandleMembership(w.nodes[a], v, |w.views[v].names|, q))
  {
    var st := w.nodes[a];
    assert NodeOk(cfg, w, a) && SessionOk(cfg, v, w.views[v]);
    if w.places[a].In? {
      var u := w.places[a].v;
      LeavesRested(w.views[u].names, cfg, u, w.views[u].entered[st.index], BoardOf(cfg, w, u, w.places[a].pos), st);
    }
    var e := HandleMembership(st, v, |w.views[v].names|, q);
    assert e.shared.table == Start(cfg, |w.views[v].names|).table;
  }

  lemma EnterSession(cfg: seq<Address>, w: World, w': World, a: Address, v: nat, q: nat)
    requires Inv(cfg, w) && EntersView(w, w', a, v, q) && LeavesEarly(cfg, w, a)
    ensures SessionOk(cfg, v, w'.views[v])
  {
    EnterStart(cfg, w, w', a, v, q);
    var (s, s') := (w.views[v], w'.views[v]);
    assert SessionOk(cfg, v, s);
    forall i | 0 <= i < |s'.log| ensures EventOk(cfg, v, s', i) { assert EventOk(cfg, v, s, i); }
  }

  lemma EnterNode(cfg: seq<Address>, w: World, w': World, a: Address, v: nat, q: nat)
    requires Inv(cfg, w) && EntersView(w, w', a, v, q) && LeavesEarly(cfg, w, a)
    ensures NodeOk(cfg, w', a)
  {
    EnterStart(cfg, w, w', a, v, q);
    assert w'.views[v].log[..0] == [];
    GatheredFacts(w.views[v].names, cfg, []);
  }

  /** Only node a and view v have changed, and the view has grown. */
  predicate OneMoved(w: World, w': World, a: Address, v: nat) {
    && v < |w.views| == |w'.views| && w'.views == w.views[v := w'.views[v]] && Grown(w.views[v], w'.views[v])
    && a in w.nodes && w'.nodes.Keys == w'.places.Keys == w.nodes.Keys
    && forall b | b in w.nodes && b != a :: b in w.places && w'.nodes[b] == w.nodes[b] && w'.places[b] == w.places[b]
  }

  lemma EnterMoves(cfg: seq<Address>, w: World, w': World, a: Address, v: nat, q: nat)
    requires w.nodes.Keys == w.places.Keys && EntersView(w, w', a, v, q)
    ensures OneMoved(w, w', a, v)
  {}

  lemma MovedKeeps(cfg: seq<Address>, w: World, w': World, a: Address, v: nat)
    requires Inv(cfg, w) && OneMoved(w, w', a, v) && SessionOk(cfg, v, w'.views[v])
    requires a in w'.nodes && a in w'.places && NodeOk(cfg, w', a)
    ensures Inv(cfg, w')
  {
    OneGrown(w, v, w'.views[v]);
    SessionsKept(cfg, w, w', v);
    InvKept(cfg, w, w', {a});
  }

  /** A node may go on to a view from wherever it is. */
  lemma EnterKeeps(cfg: seq<Address>, w: World, w': World, a: Address, v: nat, q: nat)
    requires Inv(cfg, w) && EntersView(w, w', a, v, q) && LeavesEarly(cfg, w, a)
    ensures Inv(cfg, w')
  {
    EnterSession(cfg, w, w', a, v, q);
    EnterNode(cfg, w, w', a, v, q);
    EnterMoves(cfg, w, w', a, v, q);
    MovedKeeps(cfg, w, w', a, v);
  }

  lemma SessionsKept(cfg: seq<Address>, w: World, w': World, v: nat)
    requires Inv(cfg, w) && v < |w.views| == |w'.views| && SessionOk(cfg, v, w'.views[v])
    requires w'.views == w.views[v := w'.views[v]]
    ensures forall u | 0 <= u < |w'.views| :: SessionOk(cfg, u, w'.views[u])
  {
    forall u | 0 <= u < |w'.views| ensures SessionOk(cfg, u, w'.views[u]) {
      assert SessionOk(cfg, u, w.views[u]);
    }
  }

  lemma OrderSession(cfg: seq<Address>, w: World, w': World, v: nat, ev: Event)
    requires Inv(cfg, w) && Orders(cfg, w, w', v, ev)
    ensures SessionOk(cfg, v, w'.views[v])
  {
    var (s, s') := (w.views[v], w'.views[v]);
    var n := |s.log|;
    assert SessionOk(cfg, v, s);
    assert s'.log[..n] == s.log && s.log[..n] == s.log;
    forall i | 0 <= i < |s'.log| ensures EventOk(cfg, v, s', i) {
      assert s'.log[..i] == s.log[..i];
      if i < n { assert EventOk(cfg, v, s, i); }
    }
  }

  /** Giving an event the next place in a view. */
  lemma OrderKeeps(cfg: seq<Address>, w: World, w': World, v: nat, ev: Event)
    requires Inv(cfg, w) && Orders(cfg, w, w', v, ev)
    ensures Inv(cfg, w')
  {
    OrderSession(cfg, w, w', v, ev);
    assert w'.views[v].log[..|w.views[v].log|] == w.views[v].log;
    OneGrown(w, v, w'.views[v]);
    SessionsKept(cfg, w, w', v);
    InvKept(cfg, w, w', {});
  }

  lemma PlanSession(cfg: seq<Address>, w: World, w': World, a: Address, rate: nat)
    requires Inv(cfg, w) && Plans(w, w', a, rate)
    ensures SessionOk(cfg, w.places[a].v, w'.views[w.places[a].v])
  {
    assert NodeOk(cfg, w, a);
    var (v, pos) := (w.places[a].v, w.places[a].pos);
    var (s, s') := (w.views[v], w'.views[v]);
    assert SessionOk(cfg, v, s);
    var b := BoardOf(cfg, w, v, pos);
    RunningStays(cfg, |s.names|, v, s.log, pos, |s.log|);
    assert s.log[..|s.log|] == s.log;
    MessageIsGood(s.names, cfg, b.sh, rate);
    forall i | 0 <= i < |s'.log| ensures EventOk(cfg, v, s', i) { assert EventOk(cfg, v, s, i); }
  }

  /** Planning a BALANCE message, even if the view has gone on without moves since. */
  lemma PlanKeeps(cfg: seq<Address>, w: World, w': World, a: Address, rate: nat)
    requires Inv(cfg, w) && Plans(w, w', a, rate)
    ensures Inv(cfg, w')
  {
    PlanSession(cfg, w, w', a, rate);
    var v := w.places[a].v;
    OneGrown(w, v, w'.views[v]);
    SessionsKept(cfg, w, w', v);
    InvKept(cfg, w, w', {});
  }

  lemma IdleAfterDrop(cfg: seq<Address>, w: World, w': World, a: Address)
    requires Inv(cfg, w) && Reconnects(w, w', a)
    ensures Idle(cfg, a, w'.nodes[a])
  {
    assert NodeOk(cfg, w, a);
    var st := w.nodes[a];
    if w.places[a].In? {
      var (u, pos) := (w.places[a].v, w.places[a].pos);
      assert SessionOk(cfg, u, w.views[u]);
      FollowsShape(w.views[u].names, cfg, u, w.views[u].entered[st.index], BoardOf(cfg, w, u, pos), st);
    }
    assert OwnedSet(Reconnect(st).local.prior, a) == {};
  }

  /** Losing the connection at any time. */
  lemma DropKeeps(cfg: seq<Address>, w: World, w': World, a: Address)
    requires Inv(cfg, w) && Reconnects(w, w', a)
    ensures Inv(cfg, w')
  {
    IdleAfterDrop(cfg, w, w', a);
    forall u | 0 <= u < |w.views| ensures Grown(w.views[u], w'.views[u]) {}
    InvKept(cfg, w, w', {a});
  }

  /** Whatever the board shows, a member's tables list the configured entries. */
  lemma FollowsShape(names: seq<Address>, cfg: seq<Address>, gid: int, e: NodeState, b: Board, st: NodeState)
    requires Follows(names, cfg, gid, e, b, st)
    ensures Wears(st.shared.table, cfg) && Wears(st.local.prior, cfg) && st.me == e.me
  {
    if !b.Running? {
      GatheredFacts(names, cfg, b.ms);
      LocalFacts(names, cfg, gid, e, b.ms);
    }
  }

  /** In view v, member q follows the board from its place to the next. */
  lemma FollowsOn(cfg: seq<Address>, v: nat, s: Session, q: nat, pos: nat, st: NodeState)
    requires Distinct(cfg) && SessionOk(cfg, v, s) && q in s.entered && pos < |s.log|
    requires Follows(s.names, cfg, v, s.entered[q], BoardAt(cfg, |s.names|, v, s.log[..pos]), st)
    requires var (b, ev) := (BoardAt(cfg, |s.names|, v, s.log[..pos]), s.log[pos]);
      b.Gathering? && Matches(v, |s.names|, ev) && |b.ms| + 1 == |s.names| && (b.mature || ev.msg.mature) ==>
        NoPreference(cfg, b.ms + [ev.msg]) || OneHistory(cfg, s)
    ensures Sized(st)
    ensures s.log[pos].State? && s.log[pos].msg.gid == st.gid ==> s.log[pos].msg.index < |st.shared.members|
    ensures Follows(s.names, cfg, v, s.entered[q], BoardAt(cfg, |s.names|, v, s.log[..pos + 1]), Step(st, s.log[pos]))
  {
    var (b, ev) := (BoardAt(cfg, |s.names|, v, s.log[..pos]), s.log[pos]);
    assert EventOk(cfg, v, s, pos);
    BoardFacts(cfg, v, s, pos);
    EventIsProper(cfg, v, s, pos);
    if b.Gathering? && Matches(v, |s.names|, ev) && |b.ms| + 1 == |s.names| && (b.mature || ev.msg.mature) {
      SettlesHere(cfg, v, s, b.ms, ev.msg, q);
    }
    BoardNext(cfg, |s.names|, v, s.log, pos);
    FollowsEvent(s.names, cfg, v, s.entered[q], b, st, ev);
  }

  lemma NodeOkIn(cfg: seq<Address>, w: World, a: Address, v: nat, pos: nat, q: nat)
    requires a in w.nodes && a in w.places && w.places[a] == In(v, pos)
    requires v < |w.views| && |w.views[v].names| >= 1 && pos <= |w.views[v].log|
    requires q in w.views[v].entered && q < |w.views[v].names| && w.views[v].names[q] == a && w.nodes[a].index == q
    requires Follows(w.views[v].names, cfg, v, w.views[v].entered[q], BoardOf(cfg, w, v, pos), w.nodes[a])
    ensures NodeOk(cfg, w, a)
  {}

  lemma DeliverNode(cfg: seq<Address>, w: World, w': World, a: Address)
    requires Inv(cfg, w) && Delivers(w, w', a) && RegimeAt(cfg, w, a)
    ensures NodeOk(cfg, w', a)
  {
    assert NodeOk(cfg, w, a);
    var (v, pos, st) := (w.places[a].v, w.places[a].pos, w.nodes[a]);
    assert SessionOk(cfg, v, w.views[v]);
    FollowsOn(cfg, v, w.views[v], st.index, pos, st);
    StepKeepsIndex(st, w.views[v].log[pos]);
    NodeOkIn(cfg, w', a, v, pos + 1, st.index);
  }

  lemma StepKeepsIndex(st: NodeState, ev: Event)
    requires Sized(st) && (ev.State? && ev.msg.gid == st.gid ==> ev.msg.index < |st.shared.members|)
    ensures Step(st, ev).index == st.index
  {}

  /** In either regime a member of a complete gather settles on the common table. */
  lemma SettlesHere(cfg: seq<Address>, v: nat, s: Session, ms: seq<StateMsg>, m: StateMsg, q: nat)
    requires Distinct(cfg) && SessionOk(cfg, v, s) && q in s.entered
    requires Heard(s.names, cfg, ms) && WellFormed(s.names, cfg, m)
    requires forall i | 0 <= i < |ms| :: ms[i].index != m.index
    requires forall i | 0 <= i < |ms| :: ms[i].index in s.entered && ms[i] == MakeState(s.entered[ms[i].index])
    requires m.index in s.entered && m == MakeState(s.entered[m.index]) && |ms| + 1 == |s.names|
    requires NoPreference(cfg, ms + [m]) || OneHistory(cfg, s)
    ensures InRange(ms + [m], |s.names|) && |s.entered[q].local.prior| == |cfg|
    ensures Settles(s.names, cfg, s.entered[q], ms + [m])
  {
    EveryoneHere(cfg, s, ms, m);
    GatheredFacts(s.names, cfg, ms + [m]);
    RegimesSettle(s.names, cfg, v, Entrants(s), ms + [m], q);
  }

  /** The last message: everyone has been heard, and has entered. */
  lemma EveryoneHere(cfg: seq<Address>, s: Session, ms: seq<StateMsg>, m: StateMsg)
    requires Heard(s.names, cfg, ms) && WellFormed(s.names, cfg, m)
    requires forall i | 0 <= i < |ms| :: ms[i].index != m.index
    requires forall i | 0 <= i < |ms| :: ms[i].index in s.entered
    requires m.index in s.entered && |ms| + 1 == |s.names|
    ensures Heard(s.names, cfg, ms + [m]) && AllSpoke(s.names, ms + [m]) && AllIn(s)
  {
    HeardMore(s.names, cfg, ms, m);
    EveryoneSpoke(s.names, cfg, ms + [m]);
    EveryoneIn(cfg, s, ms + [m]);
  }

  lemma EveryoneIn(cfg: seq<Address>, s: Session, ms: seq<StateMsg>)
    requires Heard(s.names, cfg, ms) && AllSpoke(s.names, ms)
    requires forall i | 0 <= i < |ms| :: ms[i].index in s.entered
    ensures AllIn(s)
  {
    forall k | 0 <= k < |s.names| ensures k in s.entered {
      assert Spoke(ms, s.names[k]);
      var i :| 0 <= i < |ms| && ms[i].sender == s.names[k];
      assert WellFormed(s.names, cfg, ms[i]);
    }
  }

  /** Handling the next event of a view. */
  lemma DeliverKeeps(cfg: seq<Address>, w: World, w': World, a: Address)
    requires Inv(cfg, w) && Delivers(w, w', a) && RegimeAt(cfg, w, a)
    ensures Inv(cfg, w')
  {
    DeliverNode(cfg, w, w', a);
    forall u | 0 <= u < |w.views| ensures Grown(w.views[u], w'.views[u]) {}
    InvKept(cfg, w, w', {a});
  }

  /** Every step of a run keeps the invariant. */
  lemma NextKeeps(cfg: seq<Address>, w: World, act: Action, w': World)
    requires Inv(cfg, w) && Next(cfg, w, act, w')
    ensures Inv(cfg, w')
  {
    match act
    case Open(names) => OpenKeeps(cfg, w, w', names);
    case Enter(a, v, q) => EnterKeeps(cfg, w, w', a, v, q);
    case Order(v, ev) => OrderKeeps(cfg, w, w', v, ev);
    case Deliver(a) => DeliverKeeps(cfg, w, w', a);
    case Plan(a, rate) => PlanKeeps(cfg, w, w', a, rate);
    case Drop(a) => DropKeeps(cfg, w, w', a);
  }

  /** A run: worlds, each reached from the one before by one action. */
  ghost predicate IsRun(cfg: seq<Address>, ws: seq<World>, acts: seq<Action>) {
    && |ws| == |acts| + 1 && Init(cfg, ws[0])
    && forall i | 0 <= i < |acts| :: Next(cfg, ws[i], acts[i], ws[i + 1])
  }

  /** Worlds, each reached from the one before by one action, with no hypothesis on gathers. */
  predicate IsBareRun(cfg: seq<Address>, ws: seq<World>, acts: seq<Action>) {
    && |ws| == |acts| + 1 && Init(cfg, ws[0])
    && forall i | 0 <= i < |acts| :: Happens(cfg, ws[i], acts[i], ws[i + 1])
  }

  /** The invariant holds in every world of every run. */
  lemma {:induction false} RunKeeps(cfg: seq<Address>, ws: seq<World>, acts: seq<Action>, i: nat)
    requires IsRun(cfg, ws, acts) && i < |ws|
    ensures Inv(cfg, ws[i])
  {
    if i == 0 {
      assert forall a | a in ws[0].nodes :: NodeOk(cfg, ws[0], a);
    } else {
      RunKeeps(cfg, ws, acts, i - 1);
      NextKeeps(cfg, ws[i - 1], acts[i - 1], ws[i]);
    }
  }
}
