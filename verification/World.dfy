/** Whole runs: nodes enter views, hear the agreed sequence of events of their view at their
    own pace, plan and replay balancing, lose their connection and come back, in any order. */
module World {
  import opened Tables
  import opened Protocol
  import opened Contest
  import opened Roster
  import opened Regimes
  import opened Moves
  import opened View
  import opened Balancing

  /** Where a node is: outside any view, or in view v with pos of its events delivered. */
  datatype Place = Nowhere | In(v: nat, pos: nat)

  /** A view (its number serves as group id): the real addresses of its members, the states
      in which they entered, the agreed sequence of events, and the BALANCE message that was
      sent but has no place in the sequence yet. */
  datatype Session =
    Session(names: seq<Address>, entered: map<nat, NodeState>, log: seq<Event>, flight: Option<seq<Move>>)

  datatype World = World(nodes: map<Address, NodeState>, places: map<Address, Place>, views: seq<Session>)

  /** The board of view v after the first k events. */
  function BoardAt(cfg: seq<Address>, n: nat, gid: int, log: seq<Event>): (b: Board)
    requires n >= 1
    ensures Fits(b, n)
  {
    if log == [] then Gathering(false, [])
    else Play(cfg, n, gid, BoardAt(cfg, n, gid, log[..|log| - 1]), log[|log| - 1])
  }

  function BoardOf(cfg: seq<Address>, w: World, v: nat, pos: nat): Board
    requires v < |w.views| && |w.views[v].names| >= 1 && pos <= |w.views[v].log|
  {
    BoardAt(cfg, |w.views[v].names|, v, w.views[v].log[..pos])
  }

  /** Has the member with this index been heard in the events of view gid? */
  predicate Voiced(log: seq<Event>, gid: int, index: nat) {
    exists i | 0 <= i < |log| :: log[i].State? && log[i].msg.gid == gid && log[i].msg.index == index
  }

  predicate NoMoves(log: seq<Event>) { forall i | 0 <= i < |log| :: !log[i].Rebalance? }

  // ----- the steps -----

  predicate OpensView(w: World, w': World, names: seq<Address>) {
    && Distinct(names) && |names| >= 1 && (forall i | 0 <= i < |names| :: names[i] in w.nodes)
    && w' == w.(views := w.views + [Session(names, map[], [], None)])
  }

  /** A membership notification: node a, wherever it is, goes on to view v as member q. */
  predicate EntersView(w: World, w': World, a: Address, v: nat, q: nat) {
    && a in w.nodes && v < |w.views| && q < |w.views[v].names| && w.views[v].names[q] == a
    && q !in w.views[v].entered
    && |w.nodes[a].shared.table| == |w.nodes[a].local.prior|
    && var st := HandleMembership(w.nodes[a], v, |w.views[v].names|, q);
       w' == World(w.nodes[a := st], w.places[a := In(v, 0)],
                   w.views[v := w.views[v].(entered := w.views[v].entered[q := st])])
  }

  /** Spread gives an event of view v the next place in the agreed sequence: a member's STATE
      message, once; a maturity notice; a STATE message of another view; or a BALANCE message,
      either the one in flight or, while the gather lasts, any left over from before. */
  predicate Orders(cfg: seq<Address>, w: World, w': World, v: nat, ev: Event) {
    && v < |w.views| && |w.views[v].names| >= 1
    && var s := w.views[v];
       && (match ev
           case State(m) => m.gid == v ==>
             m.index in s.entered && m == MakeState(s.entered[m.index]) && !Voiced(s.log, v, m.index)
           case Maturing => true
           case Rebalance(moves) => BoardOf(cfg, w, v, |s.log|).Running? ==> s.flight == Some(moves))
       && w' == w.(views := w.views[v := s.(log := s.log + [ev],
            flight := if ev.Rebalance? && BoardOf(cfg, w, v, |s.log|).Running? then None else s.flight)])
  }

  /** Node a handles the next event of its view. */
  predicate Delivers(w: World, w': World, a: Address) {
    && a in w.nodes && a in w.places && w.places[a].In?
    && var (v, pos) := (w.places[a].v, w.places[a].pos);
       && v < |w.views| && pos < |w.views[v].log|
       && var ev := w.views[v].log[pos];
          && Sized(w.nodes[a])
          && (ev.State? && ev.msg.gid == w.nodes[a].gid ==> ev.msg.index < |w.nodes[a].shared.members|)
          && w' == w.(nodes := w.nodes[a := Step(w.nodes[a], ev)], places := w.places[a := In(v, pos + 1)])
  }

  /** The first member of a view, in service, sends the moves it has planned. At most one
      BALANCE message is in flight, and its header counts its moves. */
  predicate Plans(w: World, w': World, a: Address, rate: nat) {
    && a in w.nodes && a in w.places && w.places[a].In?
    && var (v, pos, st) := (w.places[a].v, w.places[a].pos, w.nodes[a]);
       && v < |w.views| && pos <= |w.views[v].log|
       && st.index == 0 && st.phase == RUN && |st.shared.members| >= 1
       && w.views[v].flight == None && NoMoves(w.views[v].log[pos..])
       && var msg := BalanceMessage(st.shared, rate);
          && msg.Some? && msg.value.0 == |msg.value.1|
          && w' == w.(views := w.views[v := w.views[v].(flight := Some(msg.value.1))])
  }

  predicate Reconnects(w: World, w': World, a: Address) {
    && a in w.nodes && |w.nodes[a].shared.table| == |w.nodes[a].local.prior|
    && w' == w.(nodes := w.nodes[a := Reconnect(w.nodes[a])], places := w.places[a := Nowhere])
  }

  // ----- the hypotheses -----

  /** Each entry that node e held when it entered: its claim took effect, or at most one other
      did. */
  predicate Harmless(cfg: seq<Address>, e: NodeState, ms: seq<StateMsg>) {
    forall j | j in e.local.held && j < |cfg| :: Unharmed(ms, e.me, cfg[j])
  }

  /** A node that leaves a gather before it is complete has come to no harm. */
  predicate LeavesEarly(cfg: seq<Address>, w: World, a: Address) {
    a in w.places && w.places[a].In? ==>
      var (v, pos) := (w.places[a].v, w.places[a].pos);
      v < |w.views| && pos <= |w.views[v].log| && |w.views[v].names| >= 1 && a in w.nodes
      && w.nodes[a].index in w.views[v].entered && BoardOf(cfg, w, v, pos).Gathering? ==>
        Harmless(cfg, w.views[v].entered[w.nodes[a].index], BoardOf(cfg, w, v, pos).ms)
  }

  /** A gather that completes among mature members installs no preference (regime A), or its
      members share their history (regime B). */
  ghost predicate RegimeAt(cfg: seq<Address>, w: World, a: Address) {
    a in w.places && w.places[a].In? ==>
      var (v, pos) := (w.places[a].v, w.places[a].pos);
      v < |w.views| && pos < |w.views[v].log| && |w.views[v].names| >= 1 ==>
        var (s, ev, b) := (w.views[v], w.views[v].log[pos], BoardOf(cfg, w, v, pos));
        b.Gathering? && Matches(v, |s.names|, ev) && |b.ms| + 1 == |s.names| && (b.mature || ev.msg.mature) ==>
          NoPreference(cfg, b.ms + [ev.msg]) || OneHistory(cfg, s)
  }

  predicate AllIn(s: Session) { forall k | 0 <= k < |s.names| :: k in s.entered }

  function Entrants(s: Session): (r: seq<NodeState>)
    requires AllIn(s)
    ensures |r| == |s.names| && forall k | 0 <= k < |r| :: r[k] == s.entered[k]
  {
    seq(|s.names|, k requires 0 <= k < |s.names| => s.entered[k])
  }

  ghost predicate OneHistory(cfg: seq<Address>, s: Session) {
    AllIn(s) && exists O :: SameHistory(s.names, cfg, Entrants(s), O)
  }

  datatype Action = Open(names: seq<Address>) | Enter(a: Address, v: nat, q: nat) | Order(v: nat, ev: Event)
    | Deliver(a: Address) | Plan(a: Address, rate: nat) | Drop(a: Address)

  predicate Happens(cfg: seq<Address>, w: World, act: Action, w': World) {
    match act
    case Open(names) => OpensView(w, w', names)
    case Enter(a, v, q) => EntersView(w, w', a, v, q)
    case Order(v, ev) => Orders(cfg, w, w', v, ev)
    case Deliver(a) => Delivers(w, w', a)
    case Plan(a, rate) => Plans(w, w', a, rate)
    case Drop(a) => Reconnects(w, w', a)
  }

  ghost predicate Next(cfg: seq<Address>, w: World, act: Action, w': World) {
    && Happens(cfg, w, act, w')
    && (act.Enter? ==> LeavesEarly(cfg, w, act.a))
    && (act.Deliver? ==> RegimeAt(cfg, w, act.a))
  }

  /** A node that was just started or has lost its connection. */
  predicate Idle(cfg: seq<Address>, a: Address, st: NodeState) {
    && st.phase == BOOT && st.me == a && Rested(cfg, st) && Wears(st.shared.table, cfg)
  }

  predicate Init(cfg: seq<Address>, w: World) {
    && Distinct(cfg) && w.nodes.Keys == w.places.Keys && w.views == []
    && forall a | a in w.nodes :: a in w.places && w.places[a] == Nowhere && Idle(cfg, a, w.nodes[a])
  }

  // ----- the invariant -----

  predicate SessionOk(cfg: seq<Address>, v: nat, s: Session) {
    && Distinct(s.names) && |s.names| >= 1
    && (forall q | q in s.entered :: q < |s.names| && Enters(s.names, cfg, v, s.entered[q]) && s.entered[q].index == q)
    && (forall i | 0 <= i < |s.log| :: EventOk(cfg, v, s, i))
    && (s.flight.Some? ==>
          var b := BoardAt(cfg, |s.names|, v, s.log);
          b.Running? && GoodMoves(s.names, b.sh, s.flight.value))
  }

  /** The event at place i was proper when it was ordered. */
  predicate EventOk(cfg: seq<Address>, v: nat, s: Session, i: nat)
    requires i < |s.log| && |s.names| >= 1
  {
    match s.log[i]
    case State(m) => m.gid == v ==>
      m.index in s.entered && m == MakeState(s.entered[m.index]) && !Voiced(s.log[..i], v, m.index)
    case Maturing => true
    case Rebalance(moves) =>
      var b := BoardAt(cfg, |s.names|, v, s.log[..i]);
      b.Running? ==> GoodMoves(s.names, b.sh, moves)
  }

  predicate NodeOk(cfg: seq<Address>, w: World, a: Address)
    requires a in w.nodes && a in w.places
  {
    var st := w.nodes[a];
    match w.places[a]
    case Nowhere => Idle(cfg, a, st)
    case In(v, pos) =>
      && v < |w.views| && |w.views[v].names| >= 1 && pos <= |w.views[v].log|
      && st.index in w.views[v].entered && st.index < |w.views[v].names| && w.views[v].names[st.index] == a
      && Follows(w.views[v].names, cfg, v, w.views[v].entered[st.index], BoardOf(cfg, w, v, pos), st)
  }

  predicate Inv(cfg: seq<Address>, w: World) {
    && Distinct(cfg) && w.nodes.Keys == w.places.Keys
    && (forall v | 0 <= v < |w.views| :: SessionOk(cfg, v, w.views[v]))
    && (forall a | a in w.nodes :: a in w.places && NodeOk(cfg, w, a))
  }

  /** What is on the board was heard in the events, and a complete gather heard everyone. */
  predicate Faithful(names: seq<Address>, gid: int, log: seq<Event>, b: Board) {
    match b
    case Gathering(_, ms) => forall i | 0 <= i < |ms| :: Voiced(log, gid, ms[i].index)
    case Waiting(ms) => forall k | 0 <= k < |names| :: Voiced(log, gid, k)
    case Running(sh) => forall k | 0 <= k < |names| :: Voiced(log, gid, k)
  }

  lemma VoicedMore(log: seq<Event>, ev: Event, gid: int, index: nat)
    ensures Voiced(log, gid, index) ==> Voiced(log + [ev], gid, index)
    ensures ev.State? && ev.msg.gid == gid && ev.msg.index == index ==> Voiced(log + [ev], gid, index)
  {
    if Voiced(log, gid, index) {
      var i :| 0 <= i < |log| && log[i].State? && log[i].msg.gid == gid && log[i].msg.index == index;
      assert (log + [ev])[i] == log[i];
    }
    assert (log + [ev])[|log|] == ev;
  }
}
