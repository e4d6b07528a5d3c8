/** What the protocol does outside the hypotheses: members that were started afresh, served in
    one component and then met others, in situations that the hypotheses exclude. */
module Limits {
  import opened Tables
  import opened Protocol
  import opened Gather
  import opened Contest
  import opened Tally
  import opened Roster
  import opened Settle
  import opened Handout
  import opened Regimes
  import opened View
  import opened World
  import opened Safety
  import opened Agreeing

  // ----- where members come from -----

  /** A daemon that was just started. */
  function Fresh(cfg: seq<Address>, me: Address, prefs: seq<Address>): NodeState {
    var blank := Start(cfg, 0).table;
    NodeState(BOOT, false, false, me, prefs, 0, 0, 0, Shared(blank, []), Local(blank, {}, 0, multiset{}))
  }

  /** The daemon in its first view, which has number 0 and n members. */
  function Joined(cfg: seq<Address>, me: Address, prefs: seq<Address>, n: nat, q: nat): NodeState
    requires q < n
  {
    HandleMembership(Fresh(cfg, me, prefs), 0, n, q)
  }

  /** A node's state after it has handled the events. */
  function Live(st: NodeState, evs: seq<Event>): NodeState {
    if evs == [] then st
    else
      var (s, ev) := (Live(st, evs[..|evs| - 1]), evs[|evs| - 1]);
      if Sized(s) && (ev.State? && ev.msg.gid == s.gid ==> ev.msg.index < |s.shared.members|) then Step(s, ev) else s
  }

  /** A maturity notice and then the STATE messages. */
  function Events(ms: seq<StateMsg>): seq<Event> {
    if ms == [] then [Maturing] else Events(ms[..|ms| - 1]) + [State(ms[|ms| - 1])]
  }

  function Intro(q: nat, me: Address, prefs: seq<Address>): StateMsg { StateMsg(0, me, q, false, [], prefs) }

  predicate Introduce(names: seq<Address>, prefs: seq<seq<Address>>, ms: seq<StateMsg>) {
    |names| == |prefs| == |ms| && forall k | 0 <= k < |ms| :: ms[k] == Intro(k, names[k], prefs[k])
  }

  lemma JoinedEnters(names: seq<Address>, cfg: seq<Address>, prefs: seq<Address>, q: nat)
    requires Distinct(names) && Distinct(cfg) && q < |names|
    ensures var e := Joined(cfg, names[q], prefs, |names|, q);
      Enters(names, cfg, 0, e) && MakeState(e) == Intro(q, names[q], prefs)
  {
    var e := Joined(cfg, names[q], prefs, |names|, q);
    assert OwnedSet(e.local.prior, names[q]) == {};
    assert e.shared.table == Start(cfg, |names|).table;
    SendsWellFormed(names, cfg, 0, e);
  }

  /** Where the first view is after a maturity notice and the messages ms. */
  function FirstBoard(cfg: seq<Address>, n: nat, ms: seq<StateMsg>): Board
    requires n >= 1 && InRange(ms, n)
  {
    if |ms| < n then Gathering(true, ms) else Running(Settled(Gathered(cfg, n, ms)))
  }

  lemma FirstNotice(names: seq<Address>, cfg: seq<Address>, e: NodeState)
    requires Enters(names, cfg, 0, e)
    ensures Follows(names, cfg, 0, e, Gathering(true, []), Live(e, Events([])))
  {
    assert [Maturing][..0] == [];
    assert Live(e, [Maturing]) == Step(Live(e, []), Maturing);
    GatheredFacts(names, cfg, []);
    FollowsEvent(names, cfg, 0, e, Gathering(false, []), e, Maturing);
  }

  lemma FirstMessage(names: seq<Address>, cfg: seq<Address>, e: NodeState, ms: seq<StateMsg>, m: StateMsg,
          st: NodeState)
    requires Enters(names, cfg, 0, e) && !e.maturity && |ms| < |names| && m.gid == 0
    requires Heard(names, cfg, ms + [m]) && TrueToSelf(e, ms + [m]) && InRange(ms, |names|)
    requires Follows(names, cfg, 0, e, Gathering(true, ms), st)
    ensures InRange(ms + [m], |names|) && Sized(st) && m.index < |st.shared.members|
    ensures Follows(names, cfg, 0, e, FirstBoard(cfg, |names|, ms + [m]), HandleState(st, m))
  {
    assert (ms + [m])[|ms|] == m;
    assert forall i | 0 <= i < |ms| :: (ms + [m])[i] == ms[i];
    NewcomerSettles(names, cfg, e, ms + [m]);
    if |ms| + 1 < |names| {
      FollowsState(names, cfg, 0, e, true, ms, st, m);
    } else {
      FollowsLast(names, cfg, 0, e, true, ms, st, m);
    }
  }

  lemma NewcomerSettles(names: seq<Address>, cfg: seq<Address>, e: NodeState, ms: seq<StateMsg>)
    requires Enters(names, cfg, 0, e) && !e.maturity && Heard(names, cfg, ms)
    ensures InRange(ms, |names|) && Settles(names, cfg, e, ms)
  {
    GatheredFacts(names, cfg, ms);
  }

  lemma {:induction false} FirstGather(names: seq<Address>, cfg: seq<Address>, e: NodeState, ms: seq<StateMsg>)
    requires Enters(names, cfg, 0, e) && !e.maturity && Heard(names, cfg, ms) && TrueToSelf(e, ms) && |ms| <= |names|
    requires forall i | 0 <= i < |ms| :: ms[i].gid == 0
    ensures InRange(ms, |names|)
    ensures Follows(names, cfg, 0, e, FirstBoard(cfg, |names|, ms), Live(e, Events(ms)))
  {
    if ms == [] {
      FirstNotice(names, cfg, e);
    } else {
      var (before, m) := (ms[..|ms| - 1], ms[|ms| - 1]);
      SpeaksOnce(names, cfg, ms);
      FirstGather(names, cfg, e, before);
      assert before + [m] == ms;
      FirstMessage(names, cfg, e, before, m, Live(e, Events(before)));
      LiveOneMore(e, before, m);
    }
  }

  lemma LiveOneMore(e: NodeState, ms: seq<StateMsg>, m: StateMsg)
    requires var st := Live(e, Events(ms));
      Sized(st) && (m.gid == st.gid ==> m.index < |st.shared.members|)
    ensures Live(e, Events(ms + [m])) == HandleState(Live(e, Events(ms)), m)
  {
    var evs := Events(ms) + [State(m)];
    assert (ms + [m])[..|ms|] == ms;
    assert evs[..|evs| - 1] == Events(ms) && evs[|evs| - 1] == State(m);
  }

  /** A member of view gid that was in service before, on table prior. */
  function Entrant(cfg: seq<Address>, me: Address, prefs: seq<Address>, gid: int, n: nat, q: nat,
          prior: seq<Entry>): NodeState
  {
    var own := OwnedSet(prior, me);
    NodeState(GATHER, true, true, me, prefs, q, gid, n, Start(cfg, n), Local(prior, own, |own|, multiset{}))
  }

  /** The members of a first view go on to another one with the table their view settled on. */
  lemma GoesOn(names: seq<Address>, cfg: seq<Address>, prefs: seq<seq<Address>>, ms: seq<StateMsg>, k: nat, gid: int,
          n: nat, q: nat)
    requires Distinct(names) && Distinct(cfg) && Introduce(names, prefs, ms) && k < |names| && q < n
    ensures InRange(ms, |names|)
    ensures var st := Live(Joined(cfg, names[k], prefs[k], |names|, k), Events(ms));
      var table := Settled(Gathered(cfg, |names|, ms)).table;
      && InService(cfg, Joined(cfg, names[k], prefs[k], |names|, k), Settled(Gathered(cfg, |names|, ms)), st)
      && |st.shared.table| == |st.local.prior|
      && HandleMembership(st, gid, n, q) == Entrant(cfg, names[k], prefs[k], gid, n, q, table)
  {
    var e := Joined(cfg, names[k], prefs[k], |names|, k);
    JoinedEnters(names, cfg, prefs[k], k);
    FirstGather(names, cfg, e, ms);
    LeavesService(names, cfg, e, Settled(Gathered(cfg, |names|, ms)), Live(e, Events(ms)), gid, n, q);
  }

  lemma LeavesService(names: seq<Address>, cfg: seq<Address>, e: NodeState, sh: Shared, st: NodeState, gid: int,
          n: nat, q: nat)
    requires Follows(names, cfg, 0, e, Running(sh), st) && q < n
    ensures |st.shared.table| == |st.local.prior|
    ensures HandleMembership(st, gid, n, q) == Entrant(cfg, e.me, e.prefs, gid, n, q, sh.table)
  {
    assert HandleMembership(st, gid, n, q).shared.table == Start(cfg, n).table;
  }

  /** Two membership notices in a row, with nothing heard in between. */
  lemma GoesOnTwice(names: seq<Address>, cfg: seq<Address>, prefs: seq<seq<Address>>, ms: seq<StateMsg>, k: nat,
          n: nat, q: nat, table: seq<Entry>)
    requires Distinct(names) && Distinct(cfg) && Introduce(names, prefs, ms) && k < |names| && q < n
    requires InRange(ms, |names|) && table == Settled(Gathered(cfg, |names|, ms)).table
    ensures var st := Live(Joined(cfg, names[k], prefs[k], |names|, k), Events(ms));
      && |st.shared.table| == |st.local.prior|
      && HandleMembership(HandleMembership(st, 1, 1, 0), 2, n, q) == Entrant(cfg, names[k], prefs[k], 2, n, q, table)
  {
    GoesOn(names, cfg, prefs, ms, k, 1, 1, 0);
    HopsOn(cfg, names[k], prefs[k], n, q, table);
  }

  lemma HopsOn(cfg: seq<Address>, me: Address, prefs: seq<Address>, n: nat, q: nat, prior: seq<Entry>)
    requires |prior| == |cfg| && q < n
    ensures HandleMembership(Entrant(cfg, me, prefs, 1, 1, 0, prior), 2, n, q)
      == Entrant(cfg, me, prefs, 2, n, q, prior)
  {
    assert HandleMembership(Entrant(cfg, me, prefs, 1, 1, 0, prior), 2, n, q).shared.table == Start(cfg, n).table;
  }

  /** A member of view gid that has lost its connection since it was in service. */
  function Restarted(cfg: seq<Address>, me: Address, prefs: seq<Address>, gid: int, n: nat, q: nat,
          prior: seq<Entry>): NodeState
  {
    NodeState(GATHER, false, false, me, prefs, q, gid, n, Start(cfg, n), Local(Disown(prior), {}, 0, multiset{}))
  }

  lemma ComesBack(names: seq<Address>, cfg: seq<Address>, prefs: seq<seq<Address>>, ms: seq<StateMsg>, k: nat,
          gid: int, n: nat, q: nat)
    requires Distinct(names) && Distinct(cfg) && Introduce(names, prefs, ms) && k < |names| && q < n
    ensures var st := Live(Joined(cfg, names[k], prefs[k], |names|, k), Events(ms));
      && |st.shared.table| == |st.local.prior| && Wears(st.local.prior, cfg)
      && HandleMembership(Reconnect(st), gid, n, q) == Restarted(cfg, names[k], prefs[k], gid, n, q, st.local.prior)
  {
    GoesOn(names, cfg, prefs, ms, k, gid, n, q);
    StartsAgain(cfg, Live(Joined(cfg, names[k], prefs[k], |names|, k), Events(ms)), gid, n, q);
  }

  lemma StartsAgain(cfg: seq<Address>, st: NodeState, gid: int, n: nat, q: nat)
    requires Wears(st.shared.table, cfg) && Wears(st.local.prior, cfg) && q < n
    ensures HandleMembership(Reconnect(st), gid, n, q) == Restarted(cfg, st.me, st.prefs, gid, n, q, st.local.prior)
  {
    assert HandleMembership(Reconnect(st), gid, n, q).shared.table == Start(cfg, n).table;
  }

  // ----- tables of one and two rows -----

  lemma RowOfOne(m: StateMsg, p: Address)
    ensures EntryAfter([m], p) == MsgEntry(Entry(p, 0, UNCLAIMED), m)
  {
    assert [m][..0] == [];
  }

  lemma RowOfTwo(m: StateMsg, m': StateMsg, p: Address)
    ensures EntryAfter([m, m'], p) == MsgEntry(MsgEntry(Entry(p, 0, UNCLAIMED), m), m')
  {
    assert [m, m'][..1] == [m];
    RowOfOne(m, p);
  }

  lemma CountOfTwo(m: StateMsg, m': StateMsg, p: Address, a: Address)
    ensures CountedAt([m], p, a)
      == CountedNext(false, a, Entry(p, 0, UNCLAIMED), m.sender, ClaimPrio(m.claims, p), ClaimPrio(m.claims, p))
    ensures var c := ClaimPrio(m'.claims, p);
      CountedAt([m, m'], p, a) == CountedNext(CountedAt([m], p, a), a, EntryAfter([m], p), m'.sender, c, c)
  {
    assert [m, m'][..1] == [m] && [m][..0] == [];
  }

  lemma OneClaim(p: Address, prio: int, q: Address)
    ensures ClaimPrio([Claim(p, prio)], q) == if p == q then Some(prio) else None
  {
    assert [Claim(p, prio)][..0] == [];
  }

  /** A row that at most member a claims stays in the old tables. */
  lemma RowKept(names: seq<Address>, cfg: seq<Address>, gid: int, e: NodeState, ms: seq<StateMsg>, j: nat, a: Address)
    requires Enters(names, cfg, gid, e) && Heard(names, cfg, ms) && TrueToSelf(e, ms) && j < |cfg|
    requires forall i | 0 <= i < |ms| && Claims(ms[i], cfg[j]) :: ms[i].sender == a
    ensures InRange(ms, |names|)
    ensures var prior := LocalGathered(e.local, e.me, cfg, |names|, ms).prior;
      |prior| == |cfg| && prior[j] == e.local.prior[j]
  {
    LocalFacts(names, cfg, gid, e, ms);
    OneClaimant(names, cfg, ms, cfg[j], a);
    PriorKept(names, cfg, e.me, CellOf(e.local, j), ms, cfg[j]);
    var lo := LocalGathered(e.local, e.me, cfg, |names|, ms);
    assert CellOf(lo, j) == CellAfter(CellOf(e.local, j), e.me, ms, cfg[j]);
  }

  lemma ClaimsOfTwo(a: Entry, b: Entry, me: Address)
    ensures OwnClaims([a, b], me)
      == (if a.owner == me then [Claim(a.pseudo, a.prio)] else [])
         + (if b.owner == me then [Claim(b.pseudo, b.prio)] else [])
  {
    assert [a, b][..1] == [a] && [a][..0] == [];
    assert OwnClaims([a], me) == if a.owner == me then [Claim(a.pseudo, a.prio)] else [];
  }

  /** The entries of a table without vacant rows are not handed out. */
  lemma {:induction false} NothingToHandOut(base: Shared, i: nat)
    requires i <= |base.table| && |base.members| >= 1
    requires forall j | 0 <= j < |base.table| :: base.table[j].prio != UNCLAIMED
    ensures ShareUnclaimed(base, i) == base
  {
    if i > 0 { NothingToHandOut(base, i - 1); }
  }

  // ----- a merge in which two members bring up the same entry -----

  /** In one component member 3 prefers both entries and member 2 the first of them. */
  function FondMates(): seq<StateMsg> { [Intro(0, 3, [9, 10]), Intro(1, 2, [9])] }

  /** In the other one nobody prefers anything. */
  function OwnerMates(): seq<StateMsg> { [Intro(0, 1, []), Intro(1, 4, [])] }

  /** Member 2, and member 1, as they meet in view 1 after the others have gone. */
  function Fond(): NodeState {
    Entrant([9, 10], 2, [9], 1, 2, 0, [Entry(9, 3, PREFER_CLAIMED), Entry(10, 3, PREFER_CLAIMED)])
  }

  function Owner(): NodeState { Entrant([9, 10], 1, [], 1, 2, 1, [Entry(9, 1, CLAIMED), Entry(10, 4, CLAIMED)]) }

  lemma FondRow(m: StateMsg, m': StateMsg, p: Address)
    requires p in [9, 10] && m == FondMates()[0] && m' == FondMates()[1]
    ensures EntryAfter([m, m'], p) == Entry(p, 3, PREFER)
  {
    RowOfTwo(m, m', p);
  }

  lemma FondTable(ms: seq<StateMsg>)
    requires ms == FondMates()
    ensures
      && Heard([3, 2], [9, 10], ms) && InRange(ms, 2)
      && Settled(Gathered([9, 10], 2, ms)).table == [Entry(9, 3, PREFER_CLAIMED), Entry(10, 3, PREFER_CLAIMED)]
  {
    GatheredFacts([3, 2], [9, 10], ms);
    FondRow(ms[0], ms[1], 9);
    FondRow(ms[0], ms[1], 10);
    NothingToHandOut(Base(Gathered([9, 10], 2, ms)), 2);
  }

  lemma OwnerBase(ms: seq<StateMsg>)
    requires ms == OwnerMates()
    ensures
      && Heard([1, 4], [9, 10], ms) && InRange(ms, 2)
      && Base(Gathered([9, 10], 2, ms))
         == Shared([Entry(9, 0, UNCLAIMED), Entry(10, 0, UNCLAIMED)], [Member(1, 0, true), Member(4, 0, true)])
  {
    GatheredFacts([1, 4], [9, 10], ms);
    RowOfTwo(ms[0], ms[1], 9);
    RowOfTwo(ms[0], ms[1], 10);
    var g := Gathered([9, 10], 2, ms);
    assert ms[0].sender == 1 && ms[1].sender == 4;
    assert Known([1, 4], [9, 10], ms, 0, g.members[0]) && Known([1, 4], [9, 10], ms, 1, g.members[1]);
    assert OwnedSet(g.table, 1) == {} == OwnedSet(g.table, 4);
  }

  lemma OwnerTable(ms: seq<StateMsg>)
    requires ms == OwnerMates()
    ensures
      && Heard([1, 4], [9, 10], ms) && InRange(ms, 2)
      && Settled(Gathered([9, 10], 2, ms)).table == [Entry(9, 1, CLAIMED), Entry(10, 4, CLAIMED)]
  {
    OwnerBase(ms);
    var base := Base(Gathered([9, 10], 2, ms));
    assert Poorest(base.members, 1) == 0;
    var one := ShareUnclaimed(base, 1);
    assert ShareUnclaimed(base, 0) == base;
    assert one == Shared([Entry(9, 1, CLAIMED), Entry(10, 0, UNCLAIMED)], [Member(1, 1, true), Member(4, 0, true)]);
    assert Poorest(one.members, 1) == 0 && Poorest(one.members, 2) == 1;
  }

  /** Both are what the handlers make of daemons that were just started. */
  lemma FondLives()
    ensures var fond := Live(Joined([9, 10], 2, [9], 2, 1), Events(FondMates()));
      |fond.shared.table| == |fond.local.prior| && HandleMembership(fond, 1, 2, 0) == Fond()
  {
    FondTable(FondMates());
    GoesOn([3, 2], [9, 10], [[9, 10], [9]], FondMates(), 1, 1, 2, 0);
  }

  lemma OwnerLives()
    ensures var owner := Live(Joined([9, 10], 1, [], 2, 0), Events(OwnerMates()));
      |owner.shared.table| == |owner.local.prior| && HandleMembership(owner, 1, 2, 1) == Owner()
  {
    OwnerTable(OwnerMates());
    GoesOn([1, 4], [9, 10], [[], []], OwnerMates(), 0, 1, 2, 1);
  }

  function Said(): seq<StateMsg> {
    [StateMsg(1, 2, 0, true, [], [9]), StateMsg(1, 1, 1, true, [Claim(9, CLAIMED)], [])]
  }

  lemma FondEnters()
    ensures Enters([2, 1], [9, 10], 1, Fond()) && MakeState(Fond()) == Said()[0] && Fond().local.held == {}
  {
    var p := Fond().local.prior;
    assert OwnedSet(p, 2) == {} && p == [p[0], p[1]];
    ClaimsOfTwo(p[0], p[1], 2);
  }

  lemma OwnerEnters()
    ensures Enters([2, 1], [9, 10], 1, Owner()) && MakeState(Owner()) == Said()[1] && Owner().local.held == {0}
  {
    var p := Owner().local.prior;
    assert OwnedSet(p, 1) == {0} && p == [p[0], p[1]];
    ClaimsOfTwo(p[0], p[1], 1);
  }

  lemma ProperlyHeard()
    ensures Heard([2, 1], [9, 10], Said()) && AllSpoke([2, 1], Said()) && InRange(Said(), 2)
  {
    var ms := Said();
    assert ms[0].sender == 2 && ms[1].sender == 1;
  }

  /** The claim on entry 9 comes too late and is ignored, but stays counted. */
  lemma RowsHeard(p: Address)
    ensures EntryAfter(Said(), p) == if p == 9 then Entry(9, 2, PREFER) else Entry(p, 0, UNCLAIMED)
    ensures !CountedAt(Said(), p, 2) && (CountedAt(Said(), p, 1) <==> p == 9)
  {
    var (m, m') := (Said()[0], Said()[1]);
    OneClaim(9, CLAIMED, p);
    RowOfOne(m, p);
    RowOfTwo(m, m', p);
    CountOfTwo(m, m', p, 1);
    CountOfTwo(m, m', p, 2);
  }

  lemma SharedAfter()
    ensures InRange(Said(), 2) && Gathered([9, 10], 2, Said())
      == Shared([Entry(9, 2, PREFER), Entry(10, 0, UNCLAIMED)], [Member(2, 0, true), Member(1, 1, true)])
  {
    var (names, cfg, ms) := ([2, 1], [9, 10], Said());
    ProperlyHeard();
    RowsHeard(9);
    RowsHeard(10);
    GatheredFacts(names, cfg, ms);
    var g := Gathered(cfg, 2, ms);
    assert CountedSet(cfg, ms, 2) == {} && CountedSet(cfg, ms, 1) == {0};
    assert Known(names, cfg, ms, 0, g.members[0]) && Known(names, cfg, ms, 1, g.members[1]);
    assert Spoke(ms, names[0]) && Spoke(ms, names[1]);
  }

  lemma GathersTo(e: NodeState)
    requires e == Fond() || e == Owner()
    ensures InRange(Said(), 2)
    ensures var st := GatherState([9, 10], e, true, Said());
      && st.shared == Shared([Entry(9, 2, PREFER), Entry(10, 0, UNCLAIMED)], [Member(2, 0, true), Member(1, 1, true)])
      && |st.local.prior| == 2 && st.local.prior[0] == e.local.prior[0]
  {
    var (names, cfg, ms) := ([2, 1], [9, 10], Said());
    SharedAfter();
    FondEnters();
    OwnerEnters();
    ProperlyHeard();
    OneClaim(9, CLAIMED, 9);
    RowKept(names, cfg, 1, e, ms, 0, 1);
  }

  lemma CorrectsTo(g: Shared, prior: seq<Entry>, index: nat)
    requires g == Shared([Entry(9, 2, PREFER), Entry(10, 0, UNCLAIMED)], [Member(2, 0, true), Member(1, 1, true)])
    requires |prior| == 2 && prior[0].owner == (if index == 1 then 1 else 3) && index <= 1
    ensures var sh := SharePriority(g, prior, 2);
      && sh.table == [Entry(9, 2, PREFER_CLAIMED), Entry(10, 0, UNCLAIMED)]
      && sh.members == [Member(2, 1, true), Member(1, 1 - index, true)]
  {
    PriorityShared(g, prior, 2);
    assert Gain(g.table, prior, 2, 2) == {0} && Loss(g.table, prior, 2, 2) == {};
    assert Gain(g.table, prior, 1, 2) == {} && Loss(g.table, prior, 1, 2) == if index == 1 then {0} else {};
  }

  lemma Corrects(e: NodeState, index: nat)
    requires (e == Fond() && index == 0) || (e == Owner() && index == 1)
    ensures InRange(Said(), 2)
    ensures 1 in ClaimUnclaimed(PriorityClaim(GatherState([9, 10], e, true, Said()))).local.held
  {
    GathersTo(e);
    var st := GatherState([9, 10], e, true, Said());
    var sh := SharePriority(st.shared, st.local.prior, 2);
    CorrectsTo(st.shared, st.local.prior, index);
    assert sh.table[0].prio == PREFER_CLAIMED && sh.table[1].prio == UNCLAIMED;
    assert ShareUnclaimed(sh, 0) == sh && ShareUnclaimed(sh, 1) == sh;
    assert Poorest(sh.members, 1) == 0 && Poorest(sh.members, 2) == index;
    var lo := LocalPriority(st.local, e.me, st.shared.table, 2);
    assert LocalUnclaimed(lo, index, sh, 2) == Acquire(LocalUnclaimed(lo, index, sh, 1), 1);
  }

  /** Two components meet, and a preference is installed on an entry that both knew an owner
      of, but not the same: the members correct the counts from different old tables, disagree
      about who is poorest, and each brings up entry 10. */
  lemma TwoHolders()
    ensures var fond := Live(Joined([9, 10], 2, [9], 2, 1), Events(FondMates()));
      |fond.shared.table| == |fond.local.prior| && HandleMembership(fond, 1, 2, 0) == Fond()
    ensures var owner := Live(Joined([9, 10], 1, [], 2, 0), Events(OwnerMates()));
      |owner.shared.table| == |owner.local.prior| && HandleMembership(owner, 1, 2, 1) == Owner()
    ensures Said() == [MakeState(Fond()), MakeState(Owner())] && InRange(Said(), 2)
    ensures 1 in ClaimUnclaimed(PriorityClaim(GatherState([9, 10], Fond(), true, Said()))).local.held
    ensures 1 in ClaimUnclaimed(PriorityClaim(GatherState([9, 10], Owner(), true, Said()))).local.held
  {
    FondLives();
    OwnerLives();
    FondEnters();
    OwnerEnters();
    Corrects(Fond(), 0);
    Corrects(Owner(), 1);
  }

  // ----- a member that comes back too early -----

  /** Member 2 prefers entry 9 and is given it in the first view. */
  function Couple(): seq<StateMsg> { [Intro(0, 1, []), Intro(1, 2, [9])] }

  /** Member 1 in view 2, after a view of its own that was interrupted. */
  function Stayer(): NodeState { Entrant([9], 1, [], 2, 2, 0, [Entry(9, 2, PREFER_CLAIMED)]) }

  lemma CoupleTable()
    ensures var ms := Couple();
      Heard([1, 2], [9], ms) && InRange(ms, 2) && Settled(Gathered([9], 2, ms)).table == [Entry(9, 2, PREFER_CLAIMED)]
  {
    var ms := Couple();
    GatheredFacts([1, 2], [9], ms);
    RowOfTwo(ms[0], ms[1], 9);
    NothingToHandOut(Base(Gathered([9], 2, ms)), 1);
  }

  lemma StayerStays(ms: seq<StateMsg>)
    requires ms == Couple()
    ensures var stayer := Live(Joined([9], 1, [], 2, 0), Events(ms));
      && |stayer.shared.table| == |stayer.local.prior|
      && HandleMembership(HandleMembership(stayer, 1, 1, 0), 2, 2, 0) == Stayer()
  {
    CoupleTable();
    GoesOnTwice([1, 2], [9], [[], [9]], ms, 0, 2, 0, [Entry(9, 2, PREFER_CLAIMED)]);
  }

  lemma ReturnerReturns(ms: seq<StateMsg>)
    requires ms == Couple()
    ensures var returner := Live(Joined([9], 2, [9], 2, 1), Events(ms));
      && |returner.shared.table| == |returner.local.prior| && Wears(returner.local.prior, [9])
      && HandleMembership(Reconnect(returner), 2, 2, 1) == Restarted([9], 2, [9], 2, 2, 1, returner.local.prior)
  {
    CoupleTable();
    ComesBack([1, 2], [9], [[], [9]], ms, 1, 2, 2, 1);
  }

  function Reunion(): seq<StateMsg> { [StateMsg(2, 1, 0, true, [], []), StateMsg(2, 2, 1, false, [], [9])] }

  lemma StayerEnters(s: NodeState, ms: seq<StateMsg>)
    requires s == Stayer() && ms == Reunion()
    ensures Enters([1, 2], [9], 2, s) && MakeState(s) == ms[0] && TrueToSelf(s, ms)
  {
    var p := s.local.prior;
    assert OwnedSet(p, 1) == {};
    assert p[..0] == [] && OwnClaims(p, 1) == [];
  }

  lemma ReturnerEnters(prior: seq<Entry>, e: NodeState, ms: seq<StateMsg>)
    requires Wears(prior, [9]) && e == Restarted([9], 2, [9], 2, 2, 1, prior) && ms == Reunion()
    ensures Enters([1, 2], [9], 2, e) && MakeState(e) == ms[1] && TrueToSelf(e, ms)
  {
    var p := e.local.prior;
    assert OwnedSet(p, 2) == {};
    assert p[..0] == [] && OwnClaims(p, 2) == [];
  }

  lemma AllHeard(ms: seq<StateMsg>)
    requires ms == Reunion()
    ensures Heard([1, 2], [9], ms) && AllSpoke([1, 2], ms)
  {
    assert ms[0].sender == 1 && ms[1].sender == 2;
  }

  lemma BlamesReturner(prior: seq<Entry>)
    requires |prior| == 1 && prior[0].owner == 2
    ensures !CountsRight([1, 2], [9], Reunion(), prior)
  {
    var (names, cfg, ms) := ([1, 2], [9], Reunion());
    RowOfOne(ms[0], 9);
    RowOfTwo(ms[0], ms[1], 9);
    CountOfTwo(ms[0], ms[1], 9, 2);
    assert CountedPreferred(cfg, ms, names[1]) == {} && PriorPreferred(cfg, ms, prior, names[1]) == {0};
  }

  /** A member that lost its connection and came back before the others finished a gather is
      a newcomer their old tables still name: they correct a count that was never made, while
      the newcomer counts afresh, and the two disagree. */
  lemma RejoinBreaksCounts(first: seq<StateMsg>, ms: seq<StateMsg>, s: NodeState)
    requires first == Couple() && ms == Reunion() && s == Stayer()
    ensures var stayer := Live(Joined([9], 1, [], 2, 0), Events(first));
      && |stayer.shared.table| == |stayer.local.prior|
      && HandleMembership(HandleMembership(stayer, 1, 1, 0), 2, 2, 0) == s
    ensures var returner := Live(Joined([9], 2, [9], 2, 1), Events(first));
      && |returner.shared.table| == |returner.local.prior|
      && var e := HandleMembership(Reconnect(returner), 2, 2, 1);
         && ms == [MakeState(s), MakeState(e)] && CanGather(s, ms) && CanGather(e, ms)
         && PriorityClaim(GatherState([9], s, true, ms)).shared != PriorityClaim(GatherState([9], e, true, ms)).shared
  {
    StayerStays(first);
    ReturnerReturns(first);
    var prior := Live(Joined([9], 2, [9], 2, 1), Events(first)).local.prior;
    Disagree(prior, ms, s, Restarted([9], 2, [9], 2, 2, 1, prior));
  }

  predicate CanGather(e: NodeState, ms: seq<StateMsg>) {
    |e.local.prior| == 1 && |e.shared.members| == 2 && InRange(ms, 2)
  }

  lemma Disagree(prior: seq<Entry>, ms: seq<StateMsg>, s: NodeState, e: NodeState)
    requires Wears(prior, [9]) && ms == Reunion() && s == Stayer() && e == Restarted([9], 2, [9], 2, 2, 1, prior)
    ensures ms == [MakeState(s), MakeState(e)] && CanGather(s, ms) && CanGather(e, ms)
    ensures PriorityClaim(GatherState([9], s, true, ms)).shared != PriorityClaim(GatherState([9], e, true, ms)).shared
  {
    StayerEnters(s, ms);
    ReturnerEnters(prior, e, ms);
    AllHeard(ms);
    Miscounts(ms, s);
    Recounts(ms, e);
  }

  lemma Recounts(ms: seq<StateMsg>, e: NodeState)
    requires Enters([1, 2], [9], 2, e) && TrueToSelf(e, ms) && !e.oldMaturity
    requires Heard([1, 2], [9], ms) && AllSpoke([1, 2], ms)
    ensures CanGather(e, ms)
    ensures PriorityClaim(GatherState([9], e, true, ms)).shared == Base(Gathered([9], 2, ms))
  {
    PriorityAgreesIff([1, 2], [9], 2, e, true, ms);
  }

  lemma Miscounts(ms: seq<StateMsg>, s: NodeState)
    requires ms == Reunion() && s == Stayer() && Enters([1, 2], [9], 2, s) && TrueToSelf(s, ms)
    requires Heard([1, 2], [9], ms) && AllSpoke([1, 2], ms)
    ensures CanGather(s, ms)
    ensures PriorityClaim(GatherState([9], s, true, ms)).shared != Base(Gathered([9], 2, ms))
  {
    RowKept([1, 2], [9], 2, s, ms, 0, 1);
    BlamesReturner(LocalGathered(s.local, 1, [9], 2, ms).prior);
    PriorityAgreesIff([1, 2], [9], 2, s, true, ms);
  }

  // ----- three members that claim the same entry -----

  /** Each of them has served alone. */
  function Alone(a: Address): seq<StateMsg> { [Intro(0, a, [])] }

  /** Member a in view 1, which has n members. */
  function Rival(a: Address, n: nat): NodeState
    requires 1 <= a <= 3 <= n
  {
    Entrant([9], a, [], 1, n, a - 1, [Entry(9, a, CLAIMED)])
  }

  lemma TakesTheOne(base: Shared, a: Address)
    requires base.table == [Entry(9, 0, UNCLAIMED)] && |base.members| == 1 && base.members[0].addr == a
    ensures ShareUnclaimed(base, 1).table == [Entry(9, a, CLAIMED)]
  {
    assert ShareUnclaimed(base, 0) == base;
  }

  lemma AloneTable(a: Address, ms: seq<StateMsg>)
    requires 1 <= a <= 3 && ms == Alone(a)
    ensures Heard([a], [9], ms) && InRange(ms, 1) && Settled(Gathered([9], 1, ms)).table == [Entry(9, a, CLAIMED)]
  {
    var g := Gathered([9], 1, ms);
    GatheredFacts([a], [9], ms);
    RowOfOne(ms[0], 9);
    assert ms[0].sender == a == [a][0];
    assert Known([a], [9], ms, 0, g.members[0]);
    TakesTheOne(Base(g), a);
  }

  /** Node e is what has become of a daemon that served alone before. */
  predicate LivedAlone(a: Address, first: seq<StateMsg>, n: nat, e: NodeState)
    requires 1 <= a <= n
  {
    var st := Live(Joined([9], a, [], 1, 0), Events(first));
    first == Alone(a) && |st.shared.table| == |st.local.prior| && HandleMembership(st, 1, n, a - 1) == e
  }

  lemma RivalLives(a: Address, first: seq<StateMsg>, n: nat)
    requires 1 <= a <= 3 <= n && first == Alone(a)
    ensures LivedAlone(a, first, n, Rival(a, n))
  {
    AloneTable(a, first);
    GoesOn([a], [9], [[]], first, 0, 1, n, a - 1);
  }

  /** Three daemons that served alone before. */
  predicate LivedApart(es: seq<NodeState>, firsts: seq<seq<StateMsg>>, n: nat) {
    n >= 3 && |es| >= 3 && |firsts| == 3 && forall k: nat | k < 3 :: LivedAlone(k + 1, firsts[k], n, es[k])
  }

  lemma RivalsLive(es: seq<NodeState>, firsts: seq<seq<StateMsg>>, n: nat)
    requires n >= 3 && |es| >= 3 && |firsts| == 3
    requires forall k: nat | k < 3 :: firsts[k] == Alone(k + 1) && es[k] == Rival(k + 1, n)
    ensures LivedApart(es, firsts, n)
  {
    forall k: nat | k < 3 ensures LivedAlone(k + 1, firsts[k], n, es[k]) { RivalLives(k + 1, firsts[k], n); }
  }

  function Challenge(a: Address, q: nat): StateMsg { StateMsg(1, a, q, true, [Claim(9, CLAIMED)], []) }

  lemma RivalEnters(names: seq<Address>, a: Address, e: NodeState, prior: seq<Entry>)
    requires 1 <= a <= 3 <= |names| && Distinct(names) && names[a - 1] == a
    requires prior == [Entry(9, a, CLAIMED)] && e == Rival(a, |names|)
    ensures OwnedSet(prior, a) == {0} && e.local == Local(prior, {0}, 1, multiset{})
    ensures Enters(names, [9], 1, e) && MakeState(e) == Challenge(a, a - 1)
  {
    assert OwnedSet(prior, a) == {0};
    assert prior[..0] == [] && OwnClaims(prior, a) == [Claim(9, CLAIMED)];
  }

  lemma OneMore(ms: seq<StateMsg>, m: StateMsg, p: Address, a: Address, c: Cell)
    ensures EntryAfter(ms + [m], p) == MsgEntry(EntryAfter(ms, p), m)
    ensures CellAfter(c, a, ms + [m], p)
      == ClaimCell(CellAfter(c, a, ms, p), a, EntryAfter(ms, p), m.sender, ClaimPrio(m.claims, p))
    ensures var takes := Claims(m, p) && EntryAfter(ms, p).prio != PREFER;
      && Effective(ms + [m], p) == Effective(ms, p) + (if takes then 1 else 0)
      && (OwnEffective(ms + [m], a, p) <==> OwnEffective(ms, a, p) || (m.sender == a && takes))
  {
    assert (ms + [m])[..|ms|] == ms;
  }

  /** The claims of 1 and 2 have been heard: the first was granted and the second refused, and
      every old table that was there says so. */
  lemma TwoRivals(ms: seq<StateMsg>, a: Address, c: Cell)
    requires ms == [Challenge(1, 0), Challenge(2, 1)]
    ensures EntryAfter(ms, 9) == Entry(9, 1, CLAIMED) && Effective(ms, 9) == 2
    ensures a > 2 ==> !OwnEffective(ms, a, 9)
    ensures CellAfter(c, a, ms, 9).prior.owner == 1
  {
    var one := [Challenge(1, 0)];
    OneClaim(9, CLAIMED, 9);
    assert [] + one == one && one + [Challenge(2, 1)] == ms;
    OneMore([], Challenge(1, 0), 9, a, c);
    OneMore(one, Challenge(2, 1), 9, a, c);
  }

  /** Three members claim entry 9 and the view changes after two of them were heard: the
      third has entry 9 up and counts it, but its next STATE message would not claim it, and
      the assertion in Send_state_message fails. */
  lemma ThreeClaimants(es: seq<NodeState>, firsts: seq<seq<StateMsg>>, ms: seq<StateMsg>)
    requires es == [Rival(1, 3), Rival(2, 3), Rival(3, 3)] && firsts == [Alone(1), Alone(2), Alone(3)]
    requires ms == [Challenge(1, 0), Challenge(2, 1)]
    ensures LivedApart(es, firsts, 3) && ms == [MakeState(es[0]), MakeState(es[1])]
    ensures |es[2].shared.members| == 3 && InRange(ms, 3) && |es[2].local.prior| == 1
    ensures var st := HandleMembership(GatherState([9], es[2], true, ms), 2, 1, 0);
      |MakeState(st).claims| != st.local.num
  {
    RivalsLive(es, firsts, 3);
    TwoSay(es[0], es[1], ms);
    ThirdFails(ms, es[2]);
  }

  lemma TwoSay(e: NodeState, e': NodeState, ms: seq<StateMsg>)
    requires e == Rival(1, 3) && e' == Rival(2, 3) && ms == [Challenge(1, 0), Challenge(2, 1)]
    ensures ms == [MakeState(e), MakeState(e')]
  {
    RivalEnters([1, 2, 3], 1, e, [Entry(9, 1, CLAIMED)]);
    RivalEnters([1, 2, 3], 2, e', [Entry(9, 2, CLAIMED)]);
  }

  lemma ThirdHarmed(ms: seq<StateMsg>, e: NodeState)
    requires ms == [Challenge(1, 0), Challenge(2, 1)] && e == Rival(3, 3) && 0 in e.local.held
    ensures !Harmless([9], e, ms)
  {
    TwoRivals(ms, 3, CellOf(e.local, 0));
    assert !Unharmed(ms, e.me, [9][0]);
  }

  lemma TwoHeard(ms: seq<StateMsg>, e: NodeState)
    requires ms == [Challenge(1, 0), Challenge(2, 1)] && e.index == 2
    ensures Heard([1, 2, 3], [9], ms) && TrueToSelf(e, ms)
  {}

  lemma ThirdFails(ms: seq<StateMsg>, e: NodeState)
    requires ms == [Challenge(1, 0), Challenge(2, 1)] && e == Rival(3, 3)
    ensures InRange(ms, 3) && |e.shared.members| == 3 && |e.local.prior| == 1
    ensures var st := HandleMembership(GatherState([9], e, true, ms), 2, 1, 0);
      |MakeState(st).claims| != st.local.num
  {
    RivalEnters([1, 2, 3], 3, e, [Entry(9, 3, CLAIMED)]);
    ThirdHarmed(ms, e);
    TwoHeard(ms, e);
    EarlyAssertionIff([1, 2, 3], [9], 1, e, true, ms, 2, 1, 0);
  }

  // ----- members that agree, and still hold the same entry -----

  /** Members 5 and 4 both prefer entry 9; 5 was heard first and has it. */
  function KeenMates(): seq<StateMsg> { [Intro(0, 5, [9]), Intro(1, 4, [9])] }

  /** Member 4 in view 1, among the rivals 1, 2 and 3. */
  function Keen(): NodeState { Entrant([9], 4, [9], 1, 4, 3, [Entry(9, 5, PREFER_CLAIMED)]) }

  lemma KeenLives(ms: seq<StateMsg>)
    requires ms == KeenMates()
    ensures var st := Live(Joined([9], 4, [9], 2, 1), Events(ms));
      |st.shared.table| == |st.local.prior| && HandleMembership(st, 1, 4, 3) == Keen()
  {
    GatheredFacts([5, 4], [9], ms);
    RowOfTwo(ms[0], ms[1], 9);
    var g := Gathered([9], 2, ms);
    NothingToHandOut(Base(g), 1);
    assert Settled(g).table == [Entry(9, 5, PREFER_CLAIMED)];
    GoesOn([5, 4], [9], [[9], [9]], ms, 1, 1, 4, 3);
  }

  function Wish(): StateMsg { StateMsg(1, 4, 3, true, [], [9]) }

  lemma KeenEnters(e: NodeState)
    requires e == Keen()
    ensures Enters([1, 2, 3, 4], [9], 1, e) && MakeState(e) == Wish() && e.local.held == {}
  {
    var p := e.local.prior;
    assert OwnedSet(p, 4) == {};
    assert p[..0] == [] && OwnClaims(p, 4) == [];
  }

  /** The wish of 4 is heard before the claim of 3. */
  function Late(): seq<StateMsg> { [Challenge(1, 0), Challenge(2, 1), Wish(), Challenge(3, 2)] }

  lemma LateFacts(ms: seq<StateMsg>, a: Address, c: Cell)
    requires ms == Late()
    ensures EntryAfter(ms, 9) == Entry(9, 4, PREFER) && Effective(ms, 9) == 2 && !OwnEffective(ms, 3, 9)
    ensures CellAfter(c, a, ms, 9).prior.owner == 1
  {
    var two := [Challenge(1, 0), Challenge(2, 1)];
    TwoRivals(two, a, c);
    TwoRivals(two, 3, c);
    OneClaim(9, CLAIMED, 9);
    OneMore(two, Wish(), 9, a, c);
    OneMore(two, Wish(), 9, 3, c);
    OneMore(two + [Wish()], Challenge(3, 2), 9, a, c);
    OneMore(two + [Wish()], Challenge(3, 2), 9, 3, c);
    assert two + [Wish()] + [Challenge(3, 2)] == ms;
  }

  function Guests(): seq<NodeState> { [Rival(1, 4), Rival(2, 4), Rival(3, 4), Keen()] }

  lemma GuestEnters(es: seq<NodeState>, k: nat)
    requires es == Guests() && k < 4
    ensures Enters([1, 2, 3, 4], [9], 1, es[k]) && es[k].index == k && es[k].maturity && es[k].oldMaturity
    ensures MakeState(es[k]) == (if k == 3 then Wish() else Challenge(k + 1, k))
    ensures es[k].local.held == if k == 3 then {} else {0}
  {
    if k == 3 {
      KeenEnters(es[3]);
    } else {
      RivalEnters([1, 2, 3, 4], k + 1, es[k], [Entry(9, k + 1, CLAIMED)]);
    }
  }

  lemma LateHeard(ms: seq<StateMsg>)
    requires ms == Late()
    ensures Heard([1, 2, 3, 4], [9], ms) && AllSpoke([1, 2, 3, 4], ms) && InRange(ms, 4)
  {
    assert ms[0].sender == 1 && ms[1].sender == 2 && ms[2].sender == 4 && ms[3].sender == 3;
  }

  lemma AllSaid(es: seq<NodeState>, ms: seq<StateMsg>)
    requires es == Guests() && ms == Late()
    ensures forall i | 0 <= i < 4 :: ms[i].index < 4 && ms[i] == MakeState(es[ms[i].index])
    ensures ms == [MakeState(es[0]), MakeState(es[1]), MakeState(es[3]), MakeState(es[2])]
  {
    GuestEnters(es, 0);
    GuestEnters(es, 1);
    GuestEnters(es, 2);
    GuestEnters(es, 3);
  }

  lemma CompleteFrom(names: seq<Address>, es: seq<NodeState>, ms: seq<StateMsg>)
    requires |es| == |names| >= 1 && Heard(names, [9], ms) && AllSpoke(names, ms) && InRange(ms, |names|)
    requires forall k | 0 <= k < |es| :: Enters(names, [9], 1, es[k]) && es[k].index == k
    requires forall i | 0 <= i < |ms| :: ms[i].index < |es| && ms[i] == MakeState(es[ms[i].index])
    ensures Complete(names, [9], 1, es, true, ms)
  {}

  lemma AllCome(es: seq<NodeState>, ms: seq<StateMsg>)
    requires es == Guests() && ms == Late()
    ensures Complete([1, 2, 3, 4], [9], 1, es, true, ms)
    ensures ms == [MakeState(es[0]), MakeState(es[1]), MakeState(es[3]), MakeState(es[2])]
  {
    LateHeard(ms);
    AllSaid(es, ms);
    forall k: nat | k < 4 ensures Enters([1, 2, 3, 4], [9], 1, es[k]) && es[k].index == k { GuestEnters(es, k); }
    CompleteFrom([1, 2, 3, 4], es, ms);
  }

  /** Every old table now names member 1. */
  lemma AllBlameOne(es: seq<NodeState>, ms: seq<StateMsg>, k: nat)
    requires es == Guests() && ms == Late() && k < 4
    ensures InRange(ms, 4) && |es[k].local.prior| == 1 && PriorAt([9], 4, es[k], ms)[0].owner == 1
  {
    AllCome(es, ms);
    GuestEnters(es, k);
    assert TrueToSelf(es[k], ms);
    LocalFacts([1, 2, 3, 4], [9], 1, es[k], ms);
    LateFacts(ms, es[k].me, CellOf(es[k].local, 0));
    var lo := LocalGathered(es[k].local, es[k].me, [9], 4, ms);
    assert CellOf(lo, 0) == CellAfter(CellOf(es[k].local, 0), es[k].me, ms, [9][0]);
  }

  lemma SameBlame(ms: seq<StateMsg>, p: seq<Entry>, p': seq<Entry>, a: Address)
    requires |p| == |p'| == 1 && p[0].owner == p'[0].owner
    ensures Blamed([9], ms, p, false, a) == Blamed([9], ms, p', false, a)
  {
    assert PriorPreferred([9], ms, p, a) == PriorPreferred([9], ms, p', a);
  }

  lemma GuestsAgree(es: seq<NodeState>, ms: seq<StateMsg>)
    requires es == Guests() && ms == Late()
    ensures InRange(ms, 4) && BlameAlike([1, 2, 3, 4], [9], es, ms)
  {
    var names := [1, 2, 3, 4];
    AllBlameOne(es, ms, 0);
    forall l, k | 0 <= l < 4 && 0 <= k < 4 ensures AlikeOn([9], es[l], es[0], ms, 4, names[k]) {
      AllBlameOne(es, ms, l);
      GuestEnters(es, l);
      GuestEnters(es, 0);
      SameBlame(ms, PriorAt([9], 4, es[l], ms), PriorAt([9], 4, es[0], ms), names[k]);
    }
  }

  /** In a complete gather 1 and 2 claim entry 9, then 4 prefers it, and the claim of 3 comes
      last. All four agree on owners, priorities and counts; but 3 came to harm and goes on
      holding the entry, which 4 brings up as well. */
  lemma HeldTwice(es: seq<NodeState>, firsts: seq<seq<StateMsg>>, mates: seq<StateMsg>, ms: seq<StateMsg>)
    requires es == Guests() && ms == Late() && firsts == [Alone(1), Alone(2), Alone(3)] && mates == KeenMates()
    ensures LivedApart(es, firsts, 4)
    ensures var st := Live(Joined([9], 4, [9], 2, 1), Events(mates));
      |st.shared.table| == |st.local.prior| && HandleMembership(st, 1, 4, 3) == es[3]
    ensures ms == [MakeState(es[0]), MakeState(es[1]), MakeState(es[3]), MakeState(es[2])]
    ensures Complete([1, 2, 3, 4], [9], 1, es, true, ms) && BlameAlike([1, 2, 3, 4], [9], es, ms)
    ensures 0 in Outcome([9], es[2], true, ms).local.held && 0 in Outcome([9], es[3], true, ms).local.held
  {
    RivalsLive(es, firsts, 4);
    KeenLives(mates);
    AllCome(es, ms);
    GuestsAgree(es, ms);
    ThirdHolds(es, ms);
    FourthHolds(es, ms);
  }

  lemma ThirdSpoiled(e: NodeState, ms: seq<StateMsg>)
    requires ms == Late() && e.me == 3 && 0 in e.local.held
    ensures 0 in Spoiled([9], e, ms)
  {
    LateFacts(ms, 3, Cell(Entry(9, 3, CLAIMED), true, 0));
    assert [9][0] == 9;
  }

  lemma ThirdHolds(es: seq<NodeState>, ms: seq<StateMsg>)
    requires es == Guests() && ms == Late() && Complete([1, 2, 3, 4], [9], 1, es, true, ms)
    ensures 0 in Outcome([9], es[2], true, ms).local.held
  {
    GuestEnters(es, 2);
    MemberFacts([1, 2, 3, 4], [9], 1, es, true, ms, 2);
    ThirdSpoiled(es[2], ms);
  }

  lemma FourthHolds(es: seq<NodeState>, ms: seq<StateMsg>)
    requires es == Guests() && ms == Late() && Complete([1, 2, 3, 4], [9], 1, es, true, ms)
    ensures 0 in Outcome([9], es[3], true, ms).local.held
  {
    LateFacts(ms, 4, Cell(Entry(9, 5, PREFER_CLAIMED), false, 0));
    GuestEnters(es, 3);
    MemberFacts([1, 2, 3, 4], [9], 1, es, true, ms, 3);
    RowOf([1, 2, 3, 4], [9], 1, es[3], true, ms, 0);
    assert 0 in OwnedSet(Outcome([9], es[3], true, ms).shared.table, 4);
  }
}
