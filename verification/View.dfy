/** One view as seen from outside: a single board on which every event is played once.
    Each member's own state follows the board, whatever it brought into the view. */
module View {
  import opened Tables
  import opened Protocol
  import opened Contest
  import opened Roster
  import opened Settle
  import opened Handout
  import opened Moves

  /** The gather with the STATE messages ms heard; the same, complete, among members none of
      which is mature; or the table in service. */
  datatype Board = Gathering(mature: bool, ms: seq<StateMsg>) | Waiting(ms: seq<StateMsg>) | Running(sh: Shared)

  predicate Fits(b: Board, n: nat) {
    n >= 1 && (b.Running? || InRange(b.ms, n))
  }

  predicate Matches(gid: int, n: nat, ev: Event) { ev.State? && ev.msg.gid == gid && ev.msg.index < n }

  function Play(cfg: seq<Address>, n: nat, gid: int, b: Board, ev: Event): (r: Board)
    requires Fits(b, n)
    ensures Fits(r, n)
  {
    match b
    case Gathering(mature, ms) =>
      if Matches(gid, n, ev) then
        var (ms', mature') := (ms + [ev.msg], mature || ev.msg.mature);
        assert InRange(ms', n);
        if |ms'| < n then Gathering(mature', ms')
        else if mature' then Running(Settled(Gathered(cfg, n, ms')))
        else Waiting(ms')
      else if ev.Maturing? then Gathering(true, ms)
      else b
    case Waiting(ms) => if ev.Maturing? then Running(Settled(Gathered(cfg, n, ms))) else b
    case Running(sh) => if ev.Rebalance? then Running(ShareMoves(sh, ev.moves)) else b
  }

  /** The messages heard so far are proper, and they told whether anyone is mature. */
  predicate Heeded(names: seq<Address>, cfg: seq<Address>, b: Board) {
    match b
    case Gathering(mature, ms) =>
      Heard(names, cfg, ms) && |ms| < |names| && forall i | 0 <= i < |ms| :: ms[i].mature ==> mature
    case Waiting(ms) =>
      Heard(names, cfg, ms) && AllSpoke(names, ms) && forall i | 0 <= i < |ms| :: !ms[i].mature
    case Running(sh) => Serving(names, cfg, sh)
  }

  /** An event that may come next: a member's own first STATE message, a message of another
      view, a maturity notice, or moves that are good for the table in service. */
  predicate Proper(names: seq<Address>, cfg: seq<Address>, gid: int, b: Board, ev: Event) {
    match ev
    case State(m) => m.gid == gid ==>
      b.Gathering? && WellFormed(names, cfg, m) && forall i | 0 <= i < |b.ms| :: b.ms[i].index != m.index
    case Maturing => true
    case Rebalance(moves) => b.Running? ==> GoodMoves(names, b.sh, moves)
  }

  function Indices(ms: seq<StateMsg>): set<nat> {
    if ms == [] then {} else Indices(ms[..|ms| - 1]) + {ms[|ms| - 1].index}
  }

  lemma {:induction false} IndexOf(ms: seq<StateMsg>, x: nat) returns (i: nat)
    requires x in Indices(ms)
    ensures i < |ms| && ms[i].index == x
  {
    var n := |ms| - 1;
    if x == ms[n].index { i := n; } else { i := IndexOf(ms[..n], x); }
  }

  lemma {:induction false} IndexSetSize(names: seq<Address>, cfg: seq<Address>, ms: seq<StateMsg>)
    requires Heard(names, cfg, ms)
    ensures |Indices(ms)| == |ms|
  {
    if ms != [] {
      var n := |ms| - 1;
      SpeaksOnce(names, cfg, ms);
      IndexSetSize(names, cfg, ms[..n]);
      if ms[n].index in Indices(ms[..n]) {
        var i := IndexOf(ms[..n], ms[n].index);
        assert false;
      }
    }
  }

  /** As many messages as the view has members, each heard at most once: everyone spoke. */
  lemma EveryoneSpoke(names: seq<Address>, cfg: seq<Address>, ms: seq<StateMsg>)
    requires Heard(names, cfg, ms) && |ms| >= |names|
    ensures AllSpoke(names, ms)
  {
    IndexSetSize(names, cfg, ms);
    forall x | x in Indices(ms) ensures x in Upto(|names|) {
      var i := IndexOf(ms, x);
      assert WellFormed(names, cfg, ms[i]);
    }
    SubsetSize(Indices(ms), Upto(|names|));
    forall k | 0 <= k < |names| ensures Spoke(ms, names[k]) {
      assert k in Indices(ms);
      var i := IndexOf(ms, k);
      assert WellFormed(names, cfg, ms[i]);
    }
  }

  lemma HeardMore(names: seq<Address>, cfg: seq<Address>, ms: seq<StateMsg>, m: StateMsg)
    requires Heard(names, cfg, ms) && WellFormed(names, cfg, m)
    requires forall i | 0 <= i < |ms| :: ms[i].index != m.index
    ensures Heard(names, cfg, ms + [m])
  {}

  /** Proper events keep the board in order; when it starts to run, every entry is served. */
  lemma PlayHeeds(names: seq<Address>, cfg: seq<Address>, gid: int, b: Board, ev: Event)
    requires Distinct(names) && Distinct(cfg) && |names| >= 1
    requires Heeded(names, cfg, b) && Proper(names, cfg, gid, b, ev)
    ensures Fits(b, |names|) && Heeded(names, cfg, Play(cfg, |names|, gid, b, ev))
  {
    match b {
      case Gathering(mature, ms) =>
        GatheredFacts(names, cfg, ms);
        if Matches(gid, |names|, ev) {
          HeardMore(names, cfg, ms, ev.msg);
          var ms' := ms + [ev.msg];
          if |ms'| >= |names| {
            EveryoneSpoke(names, cfg, ms');
            SettledServes(names, cfg, ms');
          }
        }
      case Waiting(ms) =>
        SettledServes(names, cfg, ms);
      case Running(sh) =>
        if ev.Rebalance? { MovesServe(names, cfg, sh, ev.moves); }
    }
  }

  // ----- a member follows the board -----

  /** What the state of the member that entered as e must be when the board shows b. */
  predicate Follows(names: seq<Address>, cfg: seq<Address>, gid: int, e: NodeState, b: Board, st: NodeState) {
    && Enters(names, cfg, gid, e) && Heeded(names, cfg, b) && Fits(b, |names|)
    && match b
       case Gathering(mature, ms) => TrueToSelf(e, ms) && st == GatherState(cfg, e, mature, ms)
       case Waiting(ms) => TrueToSelf(e, ms) && !e.maturity && st == GatherState(cfg, e, false, ms).(phase := BOOT)
       case Running(sh) => InService(cfg, e, sh, st)
  }

  predicate InService(cfg: seq<Address>, e: NodeState, sh: Shared, st: NodeState) {
    && st.phase == RUN && st.maturity && st.oldMaturity
    && st.me == e.me && st.prefs == e.prefs && st.index == e.index && st.gid == e.gid
    && st.shared == sh && Wears(st.local.prior, cfg) && Holds(st.local, sh.table, st.me)
  }

  /** Whether member e settles on the common table when the last message of ms arrives. */
  predicate Settles(names: seq<Address>, cfg: seq<Address>, e: NodeState, ms: seq<StateMsg>)
    requires InRange(ms, |names|) && |e.local.prior| == |cfg|
  {
    && (!e.oldMaturity || CountsRight(names, cfg, ms, LocalGathered(e.local, e.me, cfg, |names|, ms).prior))
    && Spoiled(cfg, e, ms) == {}
  }

  /** Priority_claim followed by Claim_unclaimed puts a member in service on the settled table. */
  lemma SettlesInService(names: seq<Address>, cfg: seq<Address>, gid: int, e: NodeState, mature: bool,
          ms: seq<StateMsg>, st: NodeState)
    requires Enters(names, cfg, gid, e) && Heard(names, cfg, ms) && TrueToSelf(e, ms) && AllSpoke(names, ms)
    requires e.maturity || mature
    requires InRange(ms, |names|) && Settles(names, cfg, e, ms)
    requires st == GatherState(cfg, e, mature, ms).(pending := st.pending, phase := st.phase)
    ensures InService(cfg, e, Settled(Gathered(cfg, |names|, ms)), ClaimUnclaimed(PriorityClaim(st)).(phase := RUN))
  {
    GatheredFacts(names, cfg, ms);
    PriorityAgreesIff(names, cfg, gid, e, mature, ms);
    HoldsWhenSettled(names, cfg, gid, e, ms);
  }

  /** Every proper event takes a member from the board's old position to its new one. */
  lemma FollowsEvent(names: seq<Address>, cfg: seq<Address>, gid: int, e: NodeState, b: Board, st: NodeState, ev: Event)
    requires Follows(names, cfg, gid, e, b, st) && Proper(names, cfg, gid, b, ev)
    requires Matches(gid, |names|, ev) && ev.msg.index == e.index ==> ev.msg == MakeState(e)
    requires b.Gathering? && Matches(gid, |names|, ev) && |b.ms| + 1 == |names| && (b.mature || ev.msg.mature) ==>
      InRange(b.ms + [ev.msg], |names|) && Settles(names, cfg, e, b.ms + [ev.msg])
    ensures Sized(st) && (ev.State? && ev.msg.gid == st.gid ==> ev.msg.index < |st.shared.members|)
    ensures Follows(names, cfg, gid, e, Play(cfg, |names|, gid, b, ev), Step(st, ev))
  {
    PlayHeeds(names, cfg, gid, b, ev);
    match b {
      case Gathering(mature, ms) =>
        if Matches(gid, |names|, ev) && |ms| + 1 < |names| {
          FollowsState(names, cfg, gid, e, mature, ms, st, ev.msg);
        } else if Matches(gid, |names|, ev) {
          FollowsLast(names, cfg, gid, e, mature, ms, st, ev.msg);
        }
      case Waiting(ms) =>
        if ev.Maturing? { FollowsMaturing(names, cfg, gid, e, ms, st); }
      case Running(sh) =>
        if ev.Rebalance? { MovesKeepHolds(names, st.local, st.me, sh, ev.moves); }
    }
  }

  lemma FollowsMaturing(names: seq<Address>, cfg: seq<Address>, gid: int, e: NodeState, ms: seq<StateMsg>,
          st: NodeState)
    requires Follows(names, cfg, gid, e, Waiting(ms), st)
    ensures Follows(names, cfg, gid, e, Running(Settled(Gathered(cfg, |names|, ms))), HandleMature(st))
  {
    SettledServes(names, cfg, ms);
    LocalFacts(names, cfg, gid, e, ms);
    assert Spoiled(cfg, e, ms) == {};
    SettlesInService(names, cfg, gid, e, true, ms, st.(maturity := true));
  }

  /** In the middle of a gather one more STATE message is simply one more message. */
  lemma GatherOneMore(cfg: seq<Address>, e: NodeState, mature: bool, ms: seq<StateMsg>, m: StateMsg)
    requires InRange(ms + [m], |e.shared.members|) && |e.local.prior| == |cfg| >= 0 && |e.shared.members| >= 1
    requires e.phase == GATHER && m.gid == e.gid
    ensures InRange(ms, |e.shared.members|) && Sized(GatherState(cfg, e, mature, ms))
    ensures m.index < |GatherState(cfg, e, mature, ms).shared.members|
    ensures var s := GatherState(cfg, e, mature || m.mature, ms + [m]);
      HandleState(GatherState(cfg, e, mature, ms), m)
      == if s.pending != 0 then s
         else if s.maturity then ClaimUnclaimed(PriorityClaim(s)).(phase := RUN)
         else s.(phase := BOOT)
  {
    assert (ms + [m])[|ms|] == m;
    assert forall i | 0 <= i < |ms| :: (ms + [m])[i] == ms[i];
    assert (ms + [m])[..|ms|] == ms;
  }

  /** One more message of a gather that goes on. */
  lemma FollowsState(names: seq<Address>, cfg: seq<Address>, gid: int, e: NodeState, mature: bool, ms: seq<StateMsg>,
          st: NodeState, m: StateMsg)
    requires Follows(names, cfg, gid, e, Gathering(mature, ms), st) && |ms| + 1 < |names|
    requires m.gid == gid && Proper(names, cfg, gid, Gathering(mature, ms), State(m))
    requires m.index == e.index ==> m == MakeState(e)
    ensures Sized(st) && m.index < |st.shared.members|
    ensures Follows(names, cfg, gid, e, Gathering(mature || m.mature, ms + [m]), HandleState(st, m))
  {
    PlayHeeds(names, cfg, gid, Gathering(mature, ms), State(m));
    HeardMore(names, cfg, ms, m);
    GatheredFacts(names, cfg, ms + [m]);
    GatherOneMore(cfg, e, mature, ms, m);
  }

  /** The last one. */
  lemma FollowsLast(names: seq<Address>, cfg: seq<Address>, gid: int, e: NodeState, mature: bool, ms: seq<StateMsg>,
          st: NodeState, m: StateMsg)
    requires Follows(names, cfg, gid, e, Gathering(mature, ms), st) && |ms| + 1 == |names|
    requires m.gid == gid && Proper(names, cfg, gid, Gathering(mature, ms), State(m))
    requires m.index == e.index ==> m == MakeState(e)
    requires mature || m.mature ==> InRange(ms + [m], |names|) && Settles(names, cfg, e, ms + [m])
    ensures Sized(st) && m.index < |st.shared.members| && InRange(ms + [m], |names|)
    ensures var ms' := ms + [m];
      var b := if mature || m.mature then Running(Settled(Gathered(cfg, |names|, ms'))) else Waiting(ms');
      Follows(names, cfg, gid, e, b, HandleState(st, m))
  {
    var ms' := ms + [m];
    PlayHeeds(names, cfg, gid, Gathering(mature, ms), State(m));
    HeardMore(names, cfg, ms, m);
    GatheredFacts(names, cfg, ms');
    GatherOneMore(cfg, e, mature, ms, m);
    assert TrueToSelf(e, ms');
    EveryoneSpoke(names, cfg, ms');
    assert Spoke(ms', names[e.index]);
    if mature || m.mature {
      SettlesInService(names, cfg, gid, e, mature || m.mature, ms', GatherState(cfg, e, mature || m.mature, ms'));
    }
  }
}
