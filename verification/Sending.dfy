/** The STATE messages of runs, as bytes. */
module Sending {
  import opened Tables
  import opened Protocol
  import opened Bytes
  import opened Gather
  import opened Contest
  import opened Roster
  import opened World
  import opened Runs
  import opened Safety
  import opened Messages

  /** The numbers of views and members, and the lists that configurations allow, fit the
      fields of a message. */
  predicate Fits(cfg: seq<Address>, v: nat, q: nat, st: NodeState) {
    v < 0x1_0000_0000_0000_0000_0000_0000 && Small(q) && |cfg| <= MAX_PSEUDO && |st.prefs| <= MAX_PSEUDO
  }

  lemma {:induction false} OwnClaimsBounded(prior: seq<Entry>, me: Address)
    ensures |OwnClaims(prior, me)| <= |prior|
  {
    if prior != [] { OwnClaimsBounded(prior[..|prior| - 1], me); }
  }

  /** In every run, whenever a node enters a view, the bytes of its STATE message, written
      with its own count, are read back by every member as the message the protocol model
      delivers. */
  lemma RunsRoundTrip(o: Order, cfg: seq<Address>, ws: seq<World>, acts: seq<Action>, i: nat)
    requires IsRun(cfg, ws, acts) && i < |acts| && acts[i].Enter? && acts[i].a in ws[i].nodes
    requires Fits(cfg, acts[i].v, acts[i].q, ws[i].nodes[acts[i].a])
    ensures acts[i].a in ws[i + 1].nodes
    ensures var st := ws[i + 1].nodes[acts[i].a];
      && Sendable(MakeState(st)) && Small(st.local.num)
      && ReadState(o, Layout(o, StateWords(MakeState(st), st.local.num))) == Some(Received(st.local.num, MakeState(st)))
  {
    RunKeeps(cfg, ws, acts, i);
    SendStateAssertion(cfg, ws, acts, i);
    var Enter(a, v, q) := acts[i];
    assert Next(cfg, ws[i], acts[i], ws[i + 1]);
    EnterStart(cfg, ws[i], ws[i + 1], a, v, q);
    var st := ws[i + 1].nodes[a];
    SendsWellFormed(ws[i].views[v].names, cfg, v, st);
    OwnClaimsBounded(st.local.prior, st.me);
    ManagedIsSmall(MakeState(st));
    StateRoundTripIff(o, MakeState(st), st.local.num);
  }

  lemma ManagedIsSmall(m: StateMsg)
    requires forall i | 0 <= i < |m.claims| :: Managed(m.claims[i].prio)
    ensures forall i | 0 <= i < |m.claims| :: Small(m.claims[i].prio)
  {
    forall i | 0 <= i < |m.claims| ensures Small(m.claims[i].prio) { assert Managed(m.claims[i].prio); }
  }

  /** The wishes of a daemon are those it was started with. */
  lemma {:induction false} WishesStay(cfg: seq<Address>, ws: seq<World>, acts: seq<Action>, i: nat, a: Address)
    requires IsRun(cfg, ws, acts) && i < |ws| && a in ws[0].nodes
    ensures a in ws[i].nodes && ws[i].nodes[a].prefs == ws[0].nodes[a].prefs && ws[i].nodes[a].me == a
  {
    if i == 0 {
      assert Idle(cfg, a, ws[0].nodes[a]);
    } else {
      WishesStay(cfg, ws, acts, i - 1, a);
      assert Next(cfg, ws[i - 1], acts[i - 1], ws[i]);
      StepKeepsWishes(cfg, ws[i - 1], acts[i - 1], ws[i], a);
    }
  }

  lemma StepKeepsWishes(cfg: seq<Address>, w: World, act: Action, w': World, a: Address)
    requires Next(cfg, w, act, w') && a in w.nodes
    ensures a in w'.nodes && w'.nodes[a].prefs == w.nodes[a].prefs && w'.nodes[a].me == w.nodes[a].me
  {
    if act.Deliver? && act.a == a {
      var ev := w.views[w.places[a].v].log[w.places[a].pos];
      HandlersKeepWishes(w.nodes[a], ev);
    }
  }

  lemma HandlersKeepWishes(st: NodeState, ev: Event)
    requires Sized(st) && (ev.State? && ev.msg.gid == st.gid ==> ev.msg.index < |st.shared.members|)
    ensures Step(st, ev).prefs == st.prefs && Step(st, ev).me == st.me
  {}

  /** Every held entry is claimed with the priority the old table has for it. */
  predicate ClaimsHeld(cfg: seq<Address>, st: NodeState, claims: seq<Claim>) {
    && |claims| == |st.local.held|
    && forall j | j in st.local.held ::
      j < |cfg| && j < |st.local.prior| && ClaimPrio(claims, cfg[j]) == Some(st.local.prior[j].prio)
  }

  /** What the receivers read out of the bytes that node a sends when it enters view v as member
      q: just that, its maturity, the entries it holds, and the preferences it was started with. */
  lemma WhatIsRead(o: Order, cfg: seq<Address>, ws: seq<World>, acts: seq<Action>, i: nat)
    requires IsRun(cfg, ws, acts) && i < |acts| && acts[i].Enter?
    requires acts[i].a in ws[i].nodes && acts[i].a in ws[0].nodes
    requires Fits(cfg, acts[i].v, acts[i].q, ws[i].nodes[acts[i].a])
    ensures acts[i].a in ws[i + 1].nodes
    ensures var st := ws[i + 1].nodes[acts[i].a];
      && Sendable(MakeState(st)) && Small(st.local.num)
      && var r := ReadState(o, Layout(o, StateWords(MakeState(st), st.local.num)));
         && r.Some? && r.value.num == |st.local.held|
         && r.value.msg.gid == acts[i].v && r.value.msg.index == acts[i].q && r.value.msg.sender == acts[i].a
         && (r.value.msg.mature <==> ws[i].nodes[acts[i].a].maturity)
         && ClaimsHeld(cfg, st, r.value.msg.claims) && r.value.msg.prefs == ws[0].nodes[acts[i].a].prefs
  {
    RunsRoundTrip(o, cfg, ws, acts, i);
    SendStateAssertion(cfg, ws, acts, i);
    WishesStay(cfg, ws, acts, i + 1, acts[i].a);
    WhatEnters(cfg, ws, acts, i);
  }

  lemma WhatEnters(cfg: seq<Address>, ws: seq<World>, acts: seq<Action>, i: nat)
    requires IsRun(cfg, ws, acts) && i < |acts| && acts[i].Enter? && acts[i].a in ws[i].nodes
    ensures acts[i].a in ws[i + 1].nodes
    ensures var (st, m) := (ws[i + 1].nodes[acts[i].a], MakeState(ws[i + 1].nodes[acts[i].a]));
      && m.gid == acts[i].v && m.index == acts[i].q && (m.mature <==> ws[i].nodes[acts[i].a].maturity)
      && m.sender == st.me && m.prefs == st.prefs && ClaimsHeld(cfg, st, m.claims)
  {
    RunKeeps(cfg, ws, acts, i);
    SendStateAssertion(cfg, ws, acts, i);
    var Enter(a, v, q) := acts[i];
    assert Next(cfg, ws[i], acts[i], ws[i + 1]);
    EnterStart(cfg, ws[i], ws[i + 1], a, v, q);
    var st := ws[i + 1].nodes[a];
    OwnClaimsPrio(st.local.prior, cfg, st.me);
  }
}
