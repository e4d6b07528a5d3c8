/** A gather ends: when every member's STATE message has been delivered and somebody is
    mature, every member that has come so far serves. */
module Progress {
  import opened Tables
  import opened Protocol
  import opened Gather
  import opened Contest
  import opened Roster
  import opened Settle
  import opened Regimes
  import opened View
  import opened World
  import opened Runs
  import opened Safety

  lemma IndicesMore(ms: seq<StateMsg>, m: StateMsg, q: nat)
    ensures q in Indices(ms) || q == m.index <==> q in Indices(ms + [m])
  {
    assert (ms + [m])[..|ms|] == ms;
  }

  lemma VoicedLast(log: seq<Event>, ev: Event, gid: int, q: nat)
    requires Voiced(log + [ev], gid, q)
    ensures Voiced(log, gid, q) || (ev.State? && ev.msg.gid == gid && ev.msg.index == q)
  {
    var more := log + [ev];
    var i :| 0 <= i < |more| && more[i].State? && more[i].msg.gid == gid && more[i].msg.index == q;
    if i < |log| { assert log[i] == more[i]; }
  }

  predicate AllNoted(v: nat, n: nat, log: seq<Event>, b: Board) {
    b.Gathering? ==> forall q: nat | q < n && Voiced(log, v, q) :: q in Indices(b.ms)
  }

  /** While a gather lasts, every message delivered is on the board. */
  lemma {:induction false} VoicedIsNoted(cfg: seq<Address>, v: nat, n: nat, log: seq<Event>, k: nat)
    requires n >= 1 && k <= |log|
    ensures AllNoted(v, n, log[..k], BoardAt(cfg, n, v, log[..k]))
  {
    if k > 0 {
      VoicedIsNoted(cfg, v, n, log, k - 1);
      BoardNext(cfg, n, v, log, k - 1);
      var (b, ev) := (BoardAt(cfg, n, v, log[..k - 1]), log[k - 1]);
      var r := Play(cfg, n, v, b, ev);
      assert log[..k] == log[..k - 1] + [ev];
      if r.Gathering? {
        forall q: nat | q < n && Voiced(log[..k], v, q) ensures q in Indices(r.ms) {
          VoicedLast(log[..k - 1], ev, v, q);
          if Matches(v, n, ev) { IndicesMore(b.ms, ev.msg, q); }
        }
      }
    }
  }

  /** Every member's message is among the first k events. */
  predicate AllVoiced(s: Session, v: nat, k: nat)
    requires k <= |s.log|
  {
    forall q: nat | q < |s.names| :: Voiced(s.log[..k], v, q)
  }

  lemma GatherIsOver(cfg: seq<Address>, v: nat, s: Session, k: nat)
    requires Distinct(cfg) && SessionOk(cfg, v, s) && k <= |s.log| && AllVoiced(s, v, k)
    ensures !BoardAt(cfg, |s.names|, v, s.log[..k]).Gathering?
  {
    var b := BoardAt(cfg, |s.names|, v, s.log[..k]);
    if b.Gathering? {
      BoardFacts(cfg, v, s, k);
      VoicedIsNoted(cfg, v, |s.names|, s.log, k);
      IndexSetSize(s.names, cfg, b.ms);
      assert Upto(|s.names|) <= Indices(b.ms);
      SubsetSize(Upto(|s.names|), Indices(b.ms));
      assert false;
    }
  }

  /** A maturity notice, or the STATE message of a mature member of the view. */
  predicate Ripens(v: nat, n: nat, ev: Event) { ev.Maturing? || (Matches(v, n, ev) && ev.msg.mature) }

  predicate SomeoneMature(v: nat, n: nat, log: seq<Event>) { exists i | 0 <= i < |log| :: Ripens(v, n, log[i]) }

  predicate Ripe(b: Board) { b.Running? || (b.Gathering? && b.mature) }

  /** Once somebody is mature the view does not wait. */
  lemma {:induction false} MaturityShows(cfg: seq<Address>, v: nat, s: Session, k: nat)
    requires Distinct(cfg) && SessionOk(cfg, v, s) && k <= |s.log| && SomeoneMature(v, |s.names|, s.log[..k])
    ensures Ripe(BoardAt(cfg, |s.names|, v, s.log[..k]))
  {
    var i :| 0 <= i < k && Ripens(v, |s.names|, s.log[..k][i]);
    if i < k - 1 {
      assert s.log[..k - 1][i] == s.log[..k][i];
      MaturityShows(cfg, v, s, k - 1);
    }
    StaysRipe(cfg, v, s, k - 1);
  }

  lemma StaysRipe(cfg: seq<Address>, v: nat, s: Session, k: nat)
    requires Distinct(cfg) && SessionOk(cfg, v, s) && k < |s.log|
    requires Ripe(BoardAt(cfg, |s.names|, v, s.log[..k])) || Ripens(v, |s.names|, s.log[k])
    ensures Ripe(BoardAt(cfg, |s.names|, v, s.log[..k + 1]))
  {
    BoardNext(cfg, |s.names|, v, s.log, k);
    BoardFacts(cfg, v, s, k);
    EventIsProper(cfg, v, s, k);
  }

  /** Every member of view v has come to the same place in its events. */
  predicate Gone(w: World, v: nat, pos: nat) {
    && v < |w.views| && |w.views[v].names| >= 1 && pos <= |w.views[v].log|
    && forall k | 0 <= k < |w.views[v].names| :: At(w, w.views[v].names[k], v, pos)
  }

  predicate At(w: World, a: Address, v: nat, pos: nat) { a in w.nodes && a in w.places && w.places[a] == In(v, pos) }

  /** A member that has seen every STATE message of its view, and a sign of maturity, is in
      RUN: it has left GATHER, and it is not back in BOOT. */
  lemma GatherEnds(cfg: seq<Address>, ws: seq<World>, acts: seq<Action>, i: nat, a: Address, v: nat, pos: nat)
    requires IsRun(cfg, ws, acts) && i < |ws| && At(ws[i], a, v, pos)
    requires v < |ws[i].views| && pos <= |ws[i].views[v].log| && AllVoiced(ws[i].views[v], v, pos)
    requires SomeoneMature(v, |ws[i].views[v].names|, ws[i].views[v].log[..pos])
    ensures ws[i].nodes[a].phase == RUN
  {
    RunKeeps(cfg, ws, acts, i);
    assert NodeOk(cfg, ws[i], a) && SessionOk(cfg, v, ws[i].views[v]);
    GatherIsOver(cfg, v, ws[i].views[v], pos);
    MaturityShows(cfg, v, ws[i].views[v], pos);
  }

  /** So the view is covered: once all its members have seen all their STATE messages and a
      sign of maturity, every entry is held by exactly one of them. */
  lemma CompleteGatherCovers(cfg: seq<Address>, ws: seq<World>, acts: seq<Action>, i: nat, v: nat, pos: nat)
    requires IsRun(cfg, ws, acts) && i < |ws| && Gone(ws[i], v, pos) && AllVoiced(ws[i].views[v], v, pos)
    requires SomeoneMature(v, |ws[i].views[v].names|, ws[i].views[v].log[..pos])
    ensures ws[i].views[v].names[0] in ws[i].nodes
    ensures Covered(cfg, ws[i], ws[i].views[v].names, ws[i].nodes[ws[i].views[v].names[0]].shared)
  {
    forall k | 0 <= k < |ws[i].views[v].names| ensures Here(ws[i], ws[i].views[v].names[k], v, pos) {
      assert At(ws[i], ws[i].views[v].names[k], v, pos);
      GatherEnds(cfg, ws, acts, i, ws[i].views[v].names[k], v, pos);
    }
    ExactCover(cfg, ws, acts, i, v, pos);
  }

  // ----- how a contest ends, in a run -----

  /** Node a is about to handle the last STATE message of its gather, which makes ms the
      messages heard, and somebody is mature. */
  predicate AboutToSettle(cfg: seq<Address>, w: World, a: Address, v: nat, ms: seq<StateMsg>) {
    && a in w.nodes && a in w.places && w.places[a].In? && w.places[a].v == v
    && v < |w.views| && w.places[a].pos < |w.views[v].log| && |w.views[v].names| >= 1
    && var (b, ev) := (BoardOf(cfg, w, v, w.places[a].pos), w.views[v].log[w.places[a].pos]);
       && b.Gathering? && Matches(v, |w.views[v].names|, ev) && ms == b.ms + [ev.msg]
       && |ms| == |w.views[v].names| && (b.mature || ev.msg.mature)
  }

  /** The messages of a gather that its last one completes. */
  lemma LastHeard(cfg: seq<Address>, v: nat, s: Session, pos: nat, b: Board, ev: Event)
    requires Distinct(cfg) && SessionOk(cfg, v, s) && pos < |s.log| && ev == s.log[pos]
    requires b == BoardAt(cfg, |s.names|, v, s.log[..pos]) && b.Gathering?
    requires Matches(v, |s.names|, ev) && |b.ms| + 1 == |s.names|
    ensures Heard(s.names, cfg, b.ms + [ev.msg]) && AllSpoke(s.names, b.ms + [ev.msg])
    ensures forall q | q in s.entered :: TrueToSelf(s.entered[q], b.ms + [ev.msg])
  {
    BoardFacts(cfg, v, s, pos);
    EventIsProper(cfg, v, s, pos);
    assert EventOk(cfg, v, s, pos);
    HeardMore(s.names, cfg, b.ms, ev.msg);
    EveryoneSpoke(s.names, cfg, b.ms + [ev.msg]);
  }

  lemma SettlingFacts(cfg: seq<Address>, w: World, a: Address, v: nat, ms: seq<StateMsg>)
    requires Inv(cfg, w) && AboutToSettle(cfg, w, a, v, ms)
    ensures var (s, st) := (w.views[v], w.nodes[a]);
      && st.index in s.entered && s.entered[st.index].me == a
      && Enters(s.names, cfg, v, s.entered[st.index]) && Heard(s.names, cfg, ms)
      && TrueToSelf(s.entered[st.index], ms) && AllSpoke(s.names, ms)
  {
    assert NodeOk(cfg, w, a) && SessionOk(cfg, v, w.views[v]);
    var (s, pos) := (w.views[v], w.places[a].pos);
    LastHeard(cfg, v, s, pos, BoardOf(cfg, w, v, pos), s.log[pos]);
  }

  lemma SettlingStep(cfg: seq<Address>, w: World, a: Address, v: nat, ms: seq<StateMsg>)
    requires Inv(cfg, w) && AboutToSettle(cfg, w, a, v, ms) && Sized(w.nodes[a])
    requires w.views[v].log[w.places[a].pos].msg.index < |w.nodes[a].shared.members|
    ensures w.nodes[a].index in w.views[v].entered && InRange(ms, |w.views[v].entered[w.nodes[a].index].shared.members|)
    ensures var (e, ev) := (w.views[v].entered[w.nodes[a].index], w.views[v].log[w.places[a].pos]);
      && |e.local.prior| == |cfg| && |e.shared.members| >= 1
      && Step(w.nodes[a], ev) == ClaimUnclaimed(PriorityClaim(GatherState(cfg, e, true, ms))).(phase := RUN)
  {
    SettlingFacts(cfg, w, a, v, ms);
    assert NodeOk(cfg, w, a);
    var (s, pos, st) := (w.views[v], w.places[a].pos, w.nodes[a]);
    var (b, m, e) := (BoardOf(cfg, w, v, pos), s.log[pos].msg, s.entered[st.index]);
    GatheredFacts(s.names, cfg, ms);
    GatherOneMore(cfg, e, b.mature, b.ms, m);
  }

  /** In every run: when a gather without preferences is complete for a node, each entry that
      anybody claimed belongs to the winner of the contest; the node holds it exactly if it
      is the winner, and if it held it before and is not, it took it down exactly once. */
  lemma ContestInRun(cfg: seq<Address>, ws: seq<World>, acts: seq<Action>, i: nat, v: nat, ms: seq<StateMsg>, j: nat)
    requires IsRun(cfg, ws, acts) && i < |acts| && acts[i].Deliver? && AboutToSettle(cfg, ws[i], acts[i].a, v, ms)
    requires NoPreference(cfg, ms) && j < |cfg| && Claimants(ms, cfg[j]) >= 1
    ensures acts[i].a in ws[i + 1].nodes && ws[i].nodes[acts[i].a].index in ws[i].views[v].entered
    ensures var (st, e) := (ws[i + 1].nodes[acts[i].a], ws[i].views[v].entered[ws[i].nodes[acts[i].a].index]);
      var winner := Winner(ms, cfg[j]).owner;
      && st.phase == RUN && j < |st.shared.table| && st.shared.table[j].owner == winner
      && (j in st.local.held <==> e.me == winner)
      && st.local.downs[j] == if j in e.local.held && e.me != winner then 1 else 0
  {
    RunKeeps(cfg, ws, acts, i);
    assert Next(cfg, ws[i], acts[i], ws[i + 1]);
    var (w, a) := (ws[i], acts[i].a);
    SettlingFacts(cfg, w, a, v, ms);
    assert NodeOk(cfg, w, a);
    SettlingStep(cfg, w, a, v, ms);
    ContestSettled(w.views[v].names, cfg, v, w.views[v].entered[w.nodes[a].index], true, ms, j);
  }

  // ----- runs with a view in service exist -----

  /** A daemon at address 1 that was just started, over the one virtual address 9. */
  function Newborn(): NodeState {
    NodeState(BOOT, false, false, 1, [], 0, 0, 0, Shared([Entry(9, 0, UNCLAIMED)], []),
              Local([Entry(9, 0, UNCLAIMED)], {}, 0, multiset{}))
  }

  function Entered(): NodeState { HandleMembership(Newborn(), 0, 1, 0) }

  function Announced(): StateMsg { StateMsg(0, 1, 0, false, [], []) }

  function Ripened(): NodeState { Entered().(maturity := true) }

  /** Its world before and after it enters its view, with the given events ordered. */
  function Before(views: seq<Session>): World { World(map[1 := Newborn()], map[1 := Nowhere], views) }

  function After(log: seq<Event>, st: NodeState, pos: nat): World {
    World(map[1 := st], map[1 := In(0, pos)], [Session([1], map[0 := Entered()], log, None)])
  }

  lemma Newcomer()
    ensures MakeState(Entered()) == Announced() && Idle([9], 1, Newborn()) && Sized(Entered()) && Sized(Ripened())
    ensures Step(Entered(), Maturing) == Ripened()
  {
    assert [Entry(9, 0, UNCLAIMED)][..0] == [];
    assert OwnClaims(Entered().local.prior, 1) == [];
    assert OwnedSet(Newborn().local.prior, 1) == {};
  }

  lemma Opens()
    ensures Init([9], Before([]))
    ensures Next([9], Before([]), Open([1]), Before([Session([1], map[], [], None)]))
  {
    Newcomer();
  }

  lemma EntersFirst()
    ensures Next([9], Before([Session([1], map[], [], None)]), Enter(1, 0, 0), After([], Entered(), 0))
  {
    Newcomer();
    var s := Session([1], map[], [], None);
    assert s.(entered := map[0 := Entered()]) == Session([1], map[0 := Entered()], [], None);
  }

  lemma OrdersNotice()
    ensures Next([9], After([], Entered(), 0), Order(0, Maturing), After([Maturing], Entered(), 0))
  {
    assert [] + [Maturing] == [Maturing];
  }

  lemma OrdersMessage()
    ensures Next([9], After([Maturing], Entered(), 0), Order(0, State(Announced())),
                 After([Maturing, State(Announced())], Entered(), 0))
  {
    Newcomer();
    assert [Maturing] + [State(Announced())] == [Maturing, State(Announced())];
  }

  lemma HearsNotice()
    ensures var log := [Maturing, State(Announced())];
      Next([9], After(log, Entered(), 0), Deliver(1), After(log, Ripened(), 1))
  {
    Newcomer();
  }

  lemma DeliverIsNext(cfg: seq<Address>, w: World, w': World, a: Address)
    requires Delivers(w, w', a) && RegimeAt(cfg, w, a)
    ensures Next(cfg, w, Deliver(a), w')
  {}

  lemma Hears(log: seq<Event>, st: NodeState, pos: nat)
    requires pos < |log| && Sized(st)
    requires log[pos].State? && log[pos].msg.gid == st.gid ==> log[pos].msg.index < |st.shared.members|
    ensures Delivers(After(log, st, pos), After(log, Step(st, log[pos]), pos + 1), 1)
  {}

  lemma InRegime(log: seq<Event>, w: World)
    requires log == [Maturing, State(Announced())] && w == After(log, Ripened(), 1)
    ensures RegimeAt([9], w, 1)
  {
    NothingPreferred();
    BoardNext([9], 1, 0, log, 0);
    assert log[..0] == [];
    assert BoardOf([9], w, 0, 1) == Gathering(true, []);
  }

  lemma NothingPreferred()
    ensures NoPreference([9], [] + [Announced()])
  {
    var ms := [Announced()];
    assert [] + ms == ms && ms[..0] == [];
    assert EntryAfter(ms, 9) == Entry(9, 0, UNCLAIMED);
  }

  lemma RunGrows(cfg: seq<Address>, ws: seq<World>, acts: seq<Action>, act: Action, w: World)
    requires IsRun(cfg, ws, acts) && Next(cfg, ws[|ws| - 1], act, w)
    ensures IsRun(cfg, ws + [w], acts + [act])
  {
    var (us, bs, n) := (ws + [w], acts + [act], |acts|);
    assert us[n] == ws[n] && us[n + 1] == w && bs[n] == act;
    forall i | 0 <= i < n ensures Next(cfg, us[i], bs[i], us[i + 1]) {
      assert us[i] == ws[i] && us[i + 1] == ws[i + 1] && bs[i] == acts[i];
      assert Next(cfg, ws[i], acts[i], ws[i + 1]);
    }
  }

  predicate EndsAt(ws: seq<World>, w: World) { ws != [] && ws[|ws| - 1] == w }

  lemma RunToView() returns (ws: seq<World>, acts: seq<Action>)
    ensures IsRun([9], ws, acts) && EndsAt(ws, Before([Session([1], map[], [], None)]))
  {
    Opens();
    ws, acts := [Before([])], [];
    assert IsRun([9], ws, acts);
    var w := Before([Session([1], map[], [], None)]);
    RunGrows([9], ws, acts, Open([1]), w);
    ws, acts := ws + [w], acts + [Open([1])];
  }

  lemma RunIntoView() returns (ws: seq<World>, acts: seq<Action>)
    ensures IsRun([9], ws, acts) && EndsAt(ws, After([], Entered(), 0))
  {
    ws, acts := RunToView();
    EntersFirst();
    RunGrows([9], ws, acts, Enter(1, 0, 0), After([], Entered(), 0));
    ws, acts := ws + [After([], Entered(), 0)], acts + [Enter(1, 0, 0)];
  }

  lemma RunWithEvents() returns (ws: seq<World>, acts: seq<Action>)
    ensures IsRun([9], ws, acts) && EndsAt(ws, After([Maturing, State(Announced())], Entered(), 0))
  {
    ws, acts := RunIntoView();
    OrdersNotice();
    var w := After([Maturing], Entered(), 0);
    RunGrows([9], ws, acts, Order(0, Maturing), w);
    ws, acts := ws + [w], acts + [Order(0, Maturing)];
    OrdersMessage();
    w := After([Maturing, State(Announced())], Entered(), 0);
    RunGrows([9], ws, acts, Order(0, State(Announced())), w);
    ws, acts := ws + [w], acts + [Order(0, State(Announced()))];
  }

  lemma RunToMaturity(log: seq<Event>) returns (ws: seq<World>, acts: seq<Action>)
    requires log == [Maturing, State(Announced())]
    ensures IsRun([9], ws, acts) && EndsAt(ws, After(log, Ripened(), 1))
  {
    ws, acts := RunWithEvents();
    HearsNotice();
    var w := After(log, Ripened(), 1);
    RunGrows([9], ws, acts, Deliver(1), w);
    ws, acts := ws + [w], acts + [Deliver(1)];
  }

  /** The shortest way into service: a view of one member, a maturity notice, its STATE
      message. */
  lemma SomeRun() returns (ws: seq<World>, acts: seq<Action>)
    ensures IsRun([9], ws, acts) && Together(ws[|ws| - 1], 0, 2)
  {
    var log := [Maturing, State(Announced())];
    ws, acts := RunToMaturity(log);
    Newcomer();
    InRegime(log, ws[|ws| - 1]);
    Hears(log, Ripened(), 1);
    var w := After(log, Step(Ripened(), log[1]), 2);
    DeliverIsNext([9], ws[|ws| - 1], w, 1);
    RunGrows([9], ws, acts, Deliver(1), w);
    ws, acts := ws + [w], acts + [Deliver(1)];
    InServiceAtLast(ws, acts, log, w.nodes[1]);
  }

  lemma InServiceAtLast(ws: seq<World>, acts: seq<Action>, log: seq<Event>, st: NodeState)
    requires IsRun([9], ws, acts) && EndsAt(ws, After(log, st, 2)) && log == [Maturing, State(Announced())]
    ensures Together(ws[|ws| - 1], 0, 2)
  {
    var w := ws[|ws| - 1];
    assert log[..2] == log && Ripens(0, 1, log[0]);
    assert AllVoiced(w.views[0], 0, 2) by { assert log[1].State? && log[1].msg.index == 0; }
    GatherEnds([9], ws, acts, |ws| - 1, 1, 0, 2);
  }
}
