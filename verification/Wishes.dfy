/** The law of preferences: whose wish is granted, from what the members are configured to
    prefer and what they held when the view began. */
module Wishes {
  import opened Tables
  import opened Protocol
  import opened Gather
  import opened Contest
  import opened Roster
  import opened Settle
  import opened Agreeing
  import opened View
  import opened World
  import opened Runs
  import opened Progress

  // ----- what becomes of a row, in closed form -----

  /** The first message, in delivery order, that prefers p. */
  function FirstWish(ms: seq<StateMsg>, p: Address): (i: nat)
    ensures i <= |ms| && (i < |ms| ==> p in ms[i].prefs) && forall h | 0 <= h < i :: p !in ms[h].prefs
  {
    if ms == [] then 0
    else
      var n := |ms| - 1;
      var i := FirstWish(ms[..n], p);
      if i < n then i else if p in ms[n].prefs then n else n + 1
  }

  /** A wish comes in time if no PREFER_CLAIMED claim was heard before it or with it. */
  predicate InTime(ms: seq<StateMsg>, p: Address) {
    FirstWish(ms, p) < |ms| && FirstWish(ms, p) < First(ms, p, PREFER_CLAIMED)
  }

  function RowAfter(ms: seq<StateMsg>, p: Address): Entry {
    if InTime(ms, p) then Entry(p, ms[FirstWish(ms, p)].sender, PREFER) else Winner(ms, p)
  }

  lemma InTimeStays(ms: seq<StateMsg>, p: Address)
    requires ms != [] && InTime(ms[..|ms| - 1], p)
    ensures InTime(ms, p) && RowAfter(ms, p) == RowAfter(ms[..|ms| - 1], p)
  {}

  /** Without a wish in time so far: the last message decides. */
  lemma InTimeNow(ms: seq<StateMsg>, p: Address)
    requires ms != [] && !InTime(ms[..|ms| - 1], p)
    ensures InTime(ms, p) <==> p in ms[|ms| - 1].prefs && First(ms, p, PREFER_CLAIMED) == |ms|
    ensures InTime(ms, p) ==> FirstWish(ms, p) == |ms| - 1
  {}

  lemma WinnerPrio(ms: seq<StateMsg>, p: Address)
    ensures Winner(ms, p).pseudo == p && (Winner(ms, p).prio < PREFER <==> First(ms, p, PREFER_CLAIMED) == |ms|)
  {}

  /** Every row after any STATE messages: the first to prefer the entry has it, if that came in
      time; otherwise the contest decides. */
  lemma {:induction false} RowIs(names: seq<Address>, cfg: seq<Address>, ms: seq<StateMsg>, p: Address)
    requires Heard(names, cfg, ms)
    ensures EntryAfter(ms, p) == RowAfter(ms, p)
  {
    if ms != [] {
      var n := |ms| - 1;
      SpeaksOnce(names, cfg, ms);
      RowIs(names, cfg, ms[..n], p);
      PreferStays(names, cfg, ms, p);
      if InTime(ms[..n], p) {
        InTimeStays(ms, p);
      } else {
        forall i | 0 <= i < |ms| ensures ms[i].sender != 0 { assert WellFormed(names, cfg, ms[i]); }
        ClaimsAreManaged(ms[n].claims, p);
        WinnerStep(ms, p);
        WinnerPrio(ms, p);
        InTimeNow(ms, p);
      }
    }
  }

  // ----- in terms of the members themselves -----

  /** The speakers in delivery order, as they entered the view. */
  predicate Speakers(names: seq<Address>, cfg: seq<Address>, gid: int, said: seq<NodeState>, ms: seq<StateMsg>) {
    && |said| == |ms| && Heard(names, cfg, ms)
    && forall i | 0 <= i < |ms| :: Enters(names, cfg, gid, said[i]) && ms[i] == MakeState(said[i])
  }

  /** The old table of a speaker gives entry j to itself, as PREFER_CLAIMED. */
  predicate HadPreferred(e: NodeState, j: nat) { Had(e, j, PREFER_CLAIMED) }

  /** Speaker i is the first that is configured to prefer entry j, and neither it nor a speaker
      before it had the entry by preference already. */
  predicate Granted(said: seq<NodeState>, j: nat, p: Address, i: nat) {
    && i < |said| && p in said[i].prefs
    && (forall h | 0 <= h < i :: p !in said[h].prefs)
    && (forall h | 0 <= h <= i :: !HadPreferred(said[h], j))
  }

  lemma StrongClaim(names: seq<Address>, cfg: seq<Address>, gid: int, said: seq<NodeState>, ms: seq<StateMsg>, j: nat,
          i: nat)
    requires Speakers(names, cfg, gid, said, ms) && j < |cfg| && i < |ms|
    ensures ClaimPrio(ms[i].claims, cfg[j]) == Some(PREFER_CLAIMED) <==> HadPreferred(said[i], j)
    ensures ms[i].prefs == said[i].prefs && ms[i].sender == said[i].me
  {
    OwnClaimsPrio(said[i].local.prior, cfg, said[i].me);
  }

  lemma GrantedIs(names: seq<Address>, cfg: seq<Address>, gid: int, said: seq<NodeState>, ms: seq<StateMsg>, j: nat,
          i: nat)
    requires Speakers(names, cfg, gid, said, ms) && j < |cfg| && Granted(said, j, cfg[j], i)
    ensures InTime(ms, cfg[j]) && i == FirstWish(ms, cfg[j]) && ms[i].sender == said[i].me
  {
    forall h | 0 <= h <= i
      ensures cfg[j] in ms[h].prefs <==> h == i
      ensures ClaimPrio(ms[h].claims, cfg[j]) != Some(PREFER_CLAIMED)
    {
      StrongClaim(names, cfg, gid, said, ms, j, h);
    }
  }

  lemma FirstIsGranted(names: seq<Address>, cfg: seq<Address>, gid: int, said: seq<NodeState>, ms: seq<StateMsg>,
          j: nat)
    requires Speakers(names, cfg, gid, said, ms) && j < |cfg| && InTime(ms, cfg[j])
    ensures Granted(said, j, cfg[j], FirstWish(ms, cfg[j]))
  {
    var w := FirstWish(ms, cfg[j]);
    forall h | 0 <= h <= w
      ensures cfg[j] in said[h].prefs <==> h == w
      ensures !HadPreferred(said[h], j)
    {
      StrongClaim(names, cfg, gid, said, ms, j, h);
    }
  }

  /** Whose wish is granted: an entry ends with a preference exactly if some speaker's is
      granted, and then it belongs to that one. */
  lemma WishLaw(names: seq<Address>, cfg: seq<Address>, gid: int, said: seq<NodeState>, ms: seq<StateMsg>, j: nat)
    requires Speakers(names, cfg, gid, said, ms) && j < |cfg|
    ensures EntryAfter(ms, cfg[j]).prio == PREFER <==> exists i: nat :: Granted(said, j, cfg[j], i)
    ensures forall i: nat | Granted(said, j, cfg[j], i) :: EntryAfter(ms, cfg[j]) == Entry(cfg[j], said[i].me, PREFER)
  {
    RowIs(names, cfg, ms, cfg[j]);
    if InTime(ms, cfg[j]) { FirstIsGranted(names, cfg, gid, said, ms, j); }
    forall i: nat | Granted(said, j, cfg[j], i)
      ensures InTime(ms, cfg[j]) && EntryAfter(ms, cfg[j]) == Entry(cfg[j], said[i].me, PREFER)
    {
      GrantedIs(names, cfg, gid, said, ms, j, i);
    }
  }

  /** Speaker i is the first whose old table gives entry j to itself with this priority. */
  predicate FirstToHave(said: seq<NodeState>, j: nat, prio: int, i: nat) {
    && i < |said| && Had(said[i], j, prio)
    && forall h | 0 <= h < i :: !Had(said[h], j, prio)
  }

  predicate Had(e: NodeState, j: nat, prio: int) {
    j < |e.local.prior| && e.local.prior[j].owner == e.me && e.local.prior[j].prio == prio
  }

  predicate NoneHad(said: seq<NodeState>, j: nat, prio: int) { forall h | 0 <= h < |said| :: !Had(said[h], j, prio) }

  lemma FirstIs(names: seq<Address>, cfg: seq<Address>, gid: int, said: seq<NodeState>, ms: seq<StateMsg>, j: nat,
          prio: int)
    requires Speakers(names, cfg, gid, said, ms) && j < |cfg|
    ensures var i := First(ms, cfg[j], prio);
      if i < |ms| then FirstToHave(said, j, prio, i) && ms[i].sender == said[i].me else NoneHad(said, j, prio)
  {
    forall h | 0 <= h < |ms|
      ensures ClaimPrio(ms[h].claims, cfg[j]) == Some(prio) <==> Had(said[h], j, prio)
      ensures ms[h].sender == said[h].me
    {
      OwnClaimsPrio(said[h].local.prior, cfg, said[h].me);
    }
  }

  lemma OnlyFirst(said: seq<NodeState>, j: nat, prio: int, i: nat, k: nat)
    requires FirstToHave(said, j, prio, i) && FirstToHave(said, j, prio, k)
    ensures i == k
  {}

  /** And if none is, the entry goes to the first speaker that had it by preference; else to the
      first that had it at all; else it stays vacant. */
  lemma ContestLaw(names: seq<Address>, cfg: seq<Address>, gid: int, said: seq<NodeState>, ms: seq<StateMsg>, j: nat,
          i: nat)
    requires Speakers(names, cfg, gid, said, ms) && j < |cfg| && forall k: nat :: !Granted(said, j, cfg[j], k)
    ensures FirstToHave(said, j, PREFER_CLAIMED, i) ==>
      EntryAfter(ms, cfg[j]) == Entry(cfg[j], said[i].me, PREFER_CLAIMED)
    ensures NoneHad(said, j, PREFER_CLAIMED) && FirstToHave(said, j, CLAIMED, i) ==>
      EntryAfter(ms, cfg[j]) == Entry(cfg[j], said[i].me, CLAIMED)
    ensures NoneHad(said, j, PREFER_CLAIMED) && NoneHad(said, j, CLAIMED) ==>
      EntryAfter(ms, cfg[j]) == Entry(cfg[j], 0, UNCLAIMED)
  {
    RowIs(names, cfg, ms, cfg[j]);
    if InTime(ms, cfg[j]) { FirstIsGranted(names, cfg, gid, said, ms, j); }
    FirstIs(names, cfg, gid, said, ms, j, PREFER_CLAIMED);
    FirstIs(names, cfg, gid, said, ms, j, CLAIMED);
    var (strong, weak) := (First(ms, cfg[j], PREFER_CLAIMED), First(ms, cfg[j], CLAIMED));
    if FirstToHave(said, j, PREFER_CLAIMED, i) && strong < |ms| { OnlyFirst(said, j, PREFER_CLAIMED, strong, i); }
    if FirstToHave(said, j, CLAIMED, i) && weak < |ms| { OnlyFirst(said, j, CLAIMED, weak, i); }
  }

  // ----- in a run -----

  /** The speakers of a gather of view v. */
  function SpeakersOf(s: Session, ms: seq<StateMsg>): (r: seq<NodeState>)
    requires forall i | 0 <= i < |ms| :: ms[i].index in s.entered
    ensures |r| == |ms| && forall i | 0 <= i < |ms| :: r[i] == s.entered[ms[i].index]
  {
    seq(|ms|, i requires 0 <= i < |ms| => s.entered[ms[i].index])
  }

  lemma SpeakersAt(cfg: seq<Address>, v: nat, s: Session, pos: nat, ms: seq<StateMsg>)
    requires SessionOk(cfg, v, s) && pos < |s.log| && BoardOk(cfg, v, s, pos) && Heard(s.names, cfg, ms)
    requires var (b, ev) := (BoardAt(cfg, |s.names|, v, s.log[..pos]), s.log[pos]);
      b.Gathering? && Matches(v, |s.names|, ev) && ms == b.ms + [ev.msg]
    ensures forall i | 0 <= i < |ms| :: ms[i].index in s.entered
    ensures Speakers(s.names, cfg, v, SpeakersOf(s, ms), ms)
  {
    assert EventOk(cfg, v, s, pos);
    forall i | 0 <= i < |ms| ensures ms[i].index in s.entered && ms[i] == MakeState(s.entered[ms[i].index]) {}
  }

  lemma SpeakersHere(cfg: seq<Address>, w: World, a: Address, v: nat, ms: seq<StateMsg>)
    requires Inv(cfg, w) && AboutToSettle(cfg, w, a, v, ms)
    ensures forall i | 0 <= i < |ms| :: ms[i].index in w.views[v].entered
    ensures Speakers(w.views[v].names, cfg, v, SpeakersOf(w.views[v], ms), ms)
  {
    assert SessionOk(cfg, v, w.views[v]) && NodeOk(cfg, w, a);
    BoardFacts(cfg, v, w.views[v], w.places[a].pos);
    SettlingFacts(cfg, w, a, v, ms);
    SpeakersAt(cfg, v, w.views[v], w.places[a].pos, ms);
  }

  /** In every run: when a gather is complete for a node, each entry for which a wish is granted
      belongs to the member that has the wish, as PREFER_CLAIMED, and the node has the entry up
      exactly if it is that member. */
  lemma WishInRun(cfg: seq<Address>, ws: seq<World>, acts: seq<Action>, i: nat, v: nat, ms: seq<StateMsg>, j: nat,
          k: nat)
    requires IsRun(cfg, ws, acts) && i < |acts| && acts[i].Deliver? && AboutToSettle(cfg, ws[i], acts[i].a, v, ms)
    requires j < |cfg| && forall h | 0 <= h < |ms| :: ms[h].index in ws[i].views[v].entered
    requires Granted(SpeakersOf(ws[i].views[v], ms), j, cfg[j], k)
    ensures acts[i].a in ws[i + 1].nodes
    ensures var (st, who) := (ws[i + 1].nodes[acts[i].a], SpeakersOf(ws[i].views[v], ms)[k].me);
      && st.phase == RUN && j < |st.shared.table| && st.shared.table[j] == Entry(cfg[j], who, PREFER_CLAIMED)
      && (j in st.local.held <==> st.me == who)
  {
    RunKeeps(cfg, ws, acts, i);
    RunKeeps(cfg, ws, acts, i + 1);
    assert Next(cfg, ws[i], acts[i], ws[i + 1]);
    SpeakersHere(cfg, ws[i], acts[i].a, v, ms);
    WishLaw(ws[i].views[v].names, cfg, v, SpeakersOf(ws[i].views[v], ms), ms, j);
    WishSettled(cfg, ws[i], ws[i + 1], acts[i].a, v, ms, j);
  }

  lemma WishSettled(cfg: seq<Address>, w: World, w': World, a: Address, v: nat, ms: seq<StateMsg>, j: nat)
    requires Inv(cfg, w) && Inv(cfg, w') && Delivers(w, w', a) && AboutToSettle(cfg, w, a, v, ms) && j < |cfg|
    requires EntryAfter(ms, cfg[j]).prio == PREFER
    ensures a in w'.nodes
    ensures var st := w'.nodes[a];
      && st.phase == RUN && j < |st.shared.table| && st.shared.table[j] == Promoted(EntryAfter(ms, cfg[j]))
      && (j in st.local.held <==> st.shared.table[j].owner == st.me)
  {
    SettlingFacts(cfg, w, a, v, ms);
    assert NodeOk(cfg, w, a) && NodeOk(cfg, w', a);
    SettlingStep(cfg, w, a, v, ms);
    var (s, e) := (w.views[v], w.views[v].entered[w.nodes[a].index]);
    RowOf(s.names, cfg, v, e, true, ms, j);
  }
}
