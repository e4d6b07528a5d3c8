/** A view: its members enter it with what they hold, and hear the same STATE messages.
    Here the state of any member in the middle of a gather is given in closed form. */
module Roster {
  import opened Tables
  import opened Protocol
  import opened Gather
  import opened Contest
  import opened Tally

  /** What every member starts a gather with: no owner anywhere, nobody heard. */
  function Start(cfg: seq<Address>, n: nat): (r: Shared)
    ensures |r.members| == n && Wears(r.table, cfg)
    ensures forall j | 0 <= j < |cfg| :: r.table[j] == Entry(cfg[j], 0, UNCLAIMED)
  {
    Shared(seq(|cfg|, j requires 0 <= j < |cfg| => Entry(cfg[j], 0, UNCLAIMED)), NoMembers(n))
  }

  /** A node as it enters a view: it holds exactly the entries its old table gives it. */
  predicate Enters(names: seq<Address>, cfg: seq<Address>, gid: int, e: NodeState) {
    && Distinct(names) && Distinct(cfg)
    && e.phase == GATHER && e.gid == gid && e.pending == |names|
    && e.index < |names| && e.me == names[e.index]
    && e.shared == Start(cfg, |names|)
    && Rested(cfg, e) && e.local.downs == multiset{}
  }

  /** The part of a node's state that survives from one view to the next. */
  predicate Rested(cfg: seq<Address>, e: NodeState) {
    && Wears(e.local.prior, cfg) && e.me != 0
    && e.local.held == OwnedSet(e.local.prior, e.me) && e.local.num == |e.local.held|
    && (forall j | 0 <= j < |cfg| && e.local.prior[j].owner == e.me :: Managed(e.local.prior[j].prio))
    && (!e.oldMaturity ==> e.local.held == {}) && (!e.maturity ==> !e.oldMaturity)
  }

  predicate InRange(ms: seq<StateMsg>, n: nat) { forall i | 0 <= i < |ms| :: ms[i].index < n }

  /** The table and counts after the messages ms, the same at every member. */
  function Gathered(cfg: seq<Address>, n: nat, ms: seq<StateMsg>): (r: Shared)
    requires InRange(ms, n)
    ensures |r.members| == n && |r.table| == |cfg|
  {
    if ms == [] then Start(cfg, n) else ShareMsg(Gathered(cfg, n, ms[..|ms| - 1]), ms[|ms| - 1])
  }

  function LocalGathered(lo: Local, me: Address, cfg: seq<Address>, n: nat, ms: seq<StateMsg>): (r: Local)
    requires InRange(ms, n) && |lo.prior| == |cfg|
    ensures |r.prior| == |cfg|
  {
    if ms == [] then lo
    else
      var before := ms[..|ms| - 1];
      LocalMsg(LocalGathered(lo, me, cfg, n, before), me, Gathered(cfg, n, before), ms[|ms| - 1])
  }

  function GatherState(cfg: seq<Address>, e: NodeState, mature: bool, ms: seq<StateMsg>): (r: NodeState)
    requires InRange(ms, |e.shared.members|) && |e.local.prior| == |cfg|
  {
    var n := |e.shared.members|;
    e.(maturity := e.maturity || mature, pending := e.pending - |ms|,
       shared := Gathered(cfg, n, ms), local := LocalGathered(e.local, e.me, cfg, n, ms))
  }

  predicate Known(names: seq<Address>, cfg: seq<Address>, ms: seq<StateMsg>, k: nat, x: Member)
    requires k < |names|
  {
    x == if Spoke(ms, names[k]) then Member(names[k], |CountedSet(cfg, ms, names[k])|, true) else Member(0, 0, false)
  }

  /** One more message: if the records were right, they are right again. */
  lemma RecordsStep(names: seq<Address>, cfg: seq<Address>, ms: seq<StateMsg>, m: StateMsg, g: Shared)
    requires Heard(names, cfg, ms) && WellFormed(names, cfg, m) && !Spoke(ms, m.sender)
    requires |g.members| == |names| && Wears(g.table, cfg)
    requires forall j | 0 <= j < |cfg| :: g.table[j] == EntryAfter(ms, cfg[j])
    requires forall k | 0 <= k < |names| :: Known(names, cfg, ms, k, g.members[k])
    ensures forall k | 0 <= k < |names| :: Known(names, cfg, ms + [m], k, ShareMsg(g, m).members[k])
  {
    var sh := Enlist(g, m);
    forall k | 0 <= k < |names| ensures Recorded(names, cfg, ms, m, [], k, sh.members[k]) {
      SpokeBy(ms, m, names[k]);
      if k == m.index {
        assert CountedMid(cfg, ms, m, [], m.sender) == ClaimSet(cfg, m.claims);
        ClaimSetSize(cfg, m.claims);
      } else {
        assert CountedMid(cfg, ms, m, [], names[k]) == CountedSet(cfg, ms, names[k]);
      }
    }
    assert m.claims[..|m.claims|] == m.claims;
    ClaimsTally(names, cfg, ms, m, |m.claims|, sh, m.claims);
    assert (ms + [m])[..|ms|] == ms;
    forall k | 0 <= k < |names| ensures Known(names, cfg, ms + [m], k, ShareMsg(g, m).members[k]) {
      assert ShareMsg(g, m).members[k] == ShareClaims(sh, m.index, m.sender, m.claims).members[k];
      assert CountedSet(cfg, ms + [m], names[k]) == CountedMid(cfg, ms, m, m.claims, names[k]);
    }
  }

  lemma SpokeBy(ms: seq<StateMsg>, m: StateMsg, a: Address)
    ensures Spoke(ms + [m], a) <==> Spoke(ms, a) || m.sender == a
  {
    if Spoke(ms, a) || m.sender == a { SpokeGrows(ms, m, a); }
  }

  /** The common table, entry by entry, and the members' counts as sizes of sets. */
  lemma {:induction false} GatheredFacts(names: seq<Address>, cfg: seq<Address>, ms: seq<StateMsg>)
    requires Heard(names, cfg, ms)
    ensures InRange(ms, |names|)
    ensures Wears(Gathered(cfg, |names|, ms).table, cfg)
    ensures forall j | 0 <= j < |cfg| :: Gathered(cfg, |names|, ms).table[j] == EntryAfter(ms, cfg[j])
    ensures forall k | 0 <= k < |names| :: Known(names, cfg, ms, k, Gathered(cfg, |names|, ms).members[k])
  {
    if ms != [] {
      var (before, m) := (ms[..|ms| - 1], ms[|ms| - 1]);
      SpeaksOnce(names, cfg, ms);
      GatheredFacts(names, cfg, before);
      assert ms == before + [m];
      var g := Gathered(cfg, |names|, before);
      RecordsStep(names, cfg, before, m, g);
      MsgPerEntry(g, Local(g.table, {}, 0, multiset{}), 0, cfg, m);
    }
  }

  lemma ClaimPrioMore(claims: seq<Claim>, c: Claim, p: Address)
    ensures ClaimPrio(claims + [c], p) == if c.pseudo == p then Some(c.prio) else ClaimPrio(claims, p)
  {
    assert (claims + [c])[..|claims|] == claims;
  }

  predicate KnownClaims(claims: seq<Claim>, cfg: seq<Address>) {
    forall i | 0 <= i < |claims| :: claims[i].pseudo in cfg
  }

  lemma {:induction false} OwnClaimsKnown(prior: seq<Entry>, cfg: seq<Address>, me: Address)
    requires Wears(prior, cfg)
    ensures KnownClaims(OwnClaims(prior, me), cfg)
  {
    if prior != [] {
      var n := |prior| - 1;
      OwnClaimsKnown(prior[..n], cfg[..n], me);
      assert prior[n].pseudo == cfg[n];
      forall p | p in cfg[..n] ensures p in cfg {}
    }
  }

  lemma {:induction false} OwnClaimAt(prior: seq<Entry>, cfg: seq<Address>, me: Address, j: nat)
    requires Wears(prior, cfg) && Distinct(cfg) && j < |cfg|
    ensures ClaimPrio(OwnClaims(prior, me), cfg[j]) == if prior[j].owner == me then Some(prior[j].prio) else None
  {
    var n := |prior| - 1;
    var cs := OwnClaims(prior[..n], me);
    ClaimPrioMore(cs, Claim(prior[n].pseudo, prior[n].prio), cfg[j]);
    assert cs + [] == cs;
    if j < n {
      OwnClaimAt(prior[..n], cfg[..n], me, j);
    } else {
      OwnClaimsKnown(prior[..n], cfg[..n], me);
      ClaimPrioNone(cs, cfg[n]);
    }
  }

  /** The claims of a STATE message, address by address. */
  lemma OwnClaimsPrio(prior: seq<Entry>, cfg: seq<Address>, me: Address)
    requires Wears(prior, cfg) && Distinct(cfg)
    ensures forall i | 0 <= i < |OwnClaims(prior, me)| :: OwnClaims(prior, me)[i].pseudo in cfg
    ensures forall j | 0 <= j < |cfg| ::
      ClaimPrio(OwnClaims(prior, me), cfg[j]) == if prior[j].owner == me then Some(prior[j].prio) else None
  {
    OwnClaimsKnown(prior, cfg, me);
    forall j | 0 <= j < |cfg|
      ensures ClaimPrio(OwnClaims(prior, me), cfg[j]) == if prior[j].owner == me then Some(prior[j].prio) else None
    {
      OwnClaimAt(prior, cfg, me, j);
    }
  }

  lemma {:induction false} OwnClaimsShape(prior: seq<Entry>, cfg: seq<Address>, me: Address)
    requires Wears(prior, cfg) && Distinct(cfg)
    ensures DistinctClaims(OwnClaims(prior, me)) && |OwnClaims(prior, me)| == |OwnedSet(prior, me)|
  {
    if prior == [] {
      assert OwnedSet(prior, me) == {};
    } else {
      var n := |prior| - 1;
      OwnClaimsShape(prior[..n], cfg[..n], me);
      OwnClaimsPrio(prior[..n], cfg[..n], me);
      OwnedSetStep(prior, me);
      var cs := OwnClaims(prior[..n], me);
      assert forall i | 0 <= i < |cs| :: cs[i].pseudo in cfg[..n];
    }
  }

  /** They come in table order: the claim for an entry lies behind those for the own entries
      before it. */
  lemma {:induction false} OwnClaimsInOrder(prior: seq<Entry>, me: Address, j: nat)
    requires j < |prior| && prior[j].owner == me
    ensures var (cs, k) := (OwnClaims(prior, me), |OwnedSet(prior[..j], me)|);
      k < |cs| && cs[k] == Claim(prior[j].pseudo, prior[j].prio)
    ensures |OwnClaims(prior, me)| == |OwnedSet(prior, me)|
  {
    var n := |prior| - 1;
    OwnedSetStep(prior, me);
    ClaimsCounted(prior[..n], me);
    if j < n {
      assert prior[..n][..j] == prior[..j];
      OwnClaimsInOrder(prior[..n], me, j);
    }
  }

  lemma {:induction false} ClaimsCounted(prior: seq<Entry>, me: Address)
    ensures |OwnClaims(prior, me)| == |OwnedSet(prior, me)|
  {
    if prior == [] {
      assert OwnedSet(prior, me) == {};
    } else {
      ClaimsCounted(prior[..|prior| - 1], me);
      OwnedSetStep(prior, me);
    }
  }

  lemma OwnClaimsManaged(prior: seq<Entry>, me: Address)
    requires forall j | 0 <= j < |prior| && prior[j].owner == me :: Managed(prior[j].prio)
    ensures forall i | 0 <= i < |OwnClaims(prior, me)| :: Managed(OwnClaims(prior, me)[i].prio)
  {}

  /** A node that enters a view sends a well-formed STATE message. */
  lemma SendsWellFormed(names: seq<Address>, cfg: seq<Address>, gid: int, e: NodeState)
    requires Enters(names, cfg, gid, e)
    ensures WellFormed(names, cfg, MakeState(e)) && |MakeState(e).claims| == e.local.num
  {
    OwnClaimsPrio(e.local.prior, cfg, e.me);
    OwnClaimsShape(e.local.prior, cfg, e.me);
    OwnClaimsManaged(e.local.prior, e.me);
  }

  /** What a member said about itself in this view is what it knew when it entered. */
  predicate TrueToSelf(e: NodeState, ms: seq<StateMsg>) {
    forall i | 0 <= i < |ms| && ms[i].index == e.index :: ms[i] == MakeState(e)
  }

  lemma HonestCells(names: seq<Address>, cfg: seq<Address>, gid: int, e: NodeState, ms: seq<StateMsg>, j: nat)
    requires Enters(names, cfg, gid, e) && Heard(names, cfg, ms) && TrueToSelf(e, ms) && j < |cfg|
    ensures Honest(e.me, CellOf(e.local, j), ms, cfg[j])
  {
    OwnClaimsPrio(e.local.prior, cfg, e.me);
    forall i | 0 <= i < |ms| && ms[i].sender == e.me
      ensures ClaimPrio(ms[i].claims, cfg[j]) == if j in e.local.held then Some(e.local.prior[j].prio) else None
    {
      assert WellFormed(names, cfg, ms[i]);
    }
  }

  /** Everything one member knows, entry by entry; and it counts what it holds. */
  lemma {:induction false} LocalFacts(names: seq<Address>, cfg: seq<Address>, gid: int, e: NodeState, ms: seq<StateMsg>)
    requires Enters(names, cfg, gid, e) && Heard(names, cfg, ms) && TrueToSelf(e, ms)
    ensures InRange(ms, |names|)
    ensures var lo := LocalGathered(e.local, e.me, cfg, |names|, ms);
      && Wears(lo.prior, cfg) && lo.held <= e.local.held && lo.num == |lo.held|
      && forall j | 0 <= j < |cfg| :: CellOf(lo, j) == CellAfter(CellOf(e.local, j), e.me, ms, cfg[j])
  {
    if ms != [] {
      var (before, m) := (ms[..|ms| - 1], ms[|ms| - 1]);
      SpeaksOnce(names, cfg, ms);
      LocalFacts(names, cfg, gid, e, before);
      GatheredFacts(names, cfg, before);
      var g := Gathered(cfg, |names|, before);
      var lo := LocalGathered(e.local, e.me, cfg, |names|, before);
      MsgPerEntry(g, lo, e.me, cfg, m);
      assert WellFormed(names, cfg, m);
      forall j | 0 <= j < |cfg|
        ensures m.sender == e.me && Claims(m, cfg[j]) ==> j in lo.held
        ensures g.table[j].owner == e.me && g.table[j].prio == CLAIMED ==> j in lo.held
      {
        HonestCells(names, cfg, gid, e, ms, j);
        assert Honest(e.me, CellOf(e.local, j), before, cfg[j]);
        CellFacts(names, cfg, e.me, CellOf(e.local, j), before, cfg[j]);
        assert CellOf(lo, j).held <==> j in lo.held;
      }
      NumFollowsHeld(lo, e.me, Enlist(g, m), cfg, m.index, m.sender, m.claims, |m.claims|);
      assert m.claims[..|m.claims|] == m.claims;
    }
  }

  /** One claim on entry f keeps the count of held entries right. */
  lemma NumStep(lo: Local, me: Address, table: seq<Entry>, sender: Address, c: Claim, f: nat)
    requires |lo.prior| == |table| && f < |table| && Find(table, c.pseudo) == f && lo.num == |lo.held|
    requires sender == me ==> f in lo.held
    requires table[f].owner == me && table[f].prio == CLAIMED ==> f in lo.held
    ensures var r := LocalClaim(lo, me, table, sender, c); r.num == |r.held| && r.held <= lo.held
  {}

  /** When a claim is handled, the node still holds its entry if it did at the start. */
  lemma UntouchedHeld(lo: Local, me: Address, sh: Shared, cfg: seq<Address>, ix: nat, sender: Address,
          claims: seq<Claim>, t: nat, f: nat)
    requires ix < |sh.members| && Wears(sh.table, cfg) && Wears(lo.prior, cfg)
    requires Distinct(cfg) && DistinctClaims(claims)
    requires t < |claims| && f < |cfg| && cfg[f] == claims[t].pseudo
    ensures f in LocalClaims(lo, me, sh, ix, sender, claims[..t]).held <==> f in lo.held
  {
    ClaimsPerCell(lo, me, sh, cfg, ix, sender, claims[..t]);
    ClaimPrioNone(claims[..t], claims[t].pseudo);
    var r := LocalClaims(lo, me, sh, ix, sender, claims[..t]);
    assert CellOf(r, f).held == CellOf(lo, f).held;
  }

  /** Handling claims keeps the count of held entries right, provided the node holds what
      it claims and what it owns. */
  lemma {:induction false} NumFollowsHeld(lo: Local, me: Address, sh: Shared, cfg: seq<Address>, ix: nat,
          sender: Address, claims: seq<Claim>, t: nat)
    requires ix < |sh.members| && Wears(sh.table, cfg) && Wears(lo.prior, cfg) && Distinct(cfg)
    requires DistinctClaims(claims) && t <= |claims|
    requires lo.num == |lo.held| && forall i | 0 <= i < |claims| :: claims[i].pseudo in cfg
    requires forall j | 0 <= j < |cfg| && sender == me && ClaimPrio(claims, cfg[j]).Some? :: j in lo.held
    requires forall j | 0 <= j < |cfg| && sh.table[j].owner == me && sh.table[j].prio == CLAIMED :: j in lo.held
    ensures var r := LocalClaims(lo, me, sh, ix, sender, claims[..t]);
      r.num == |r.held| && r.held <= lo.held
  {
    if t > 0 {
      NumFollowsHeld(lo, me, sh, cfg, ix, sender, claims, t - 1);
      assert claims[..t][..t - 1] == claims[..t - 1];
      var f := UntouchedEntry(sh, cfg, ix, sender, claims, t - 1);
      UntouchedHeld(lo, me, sh, cfg, ix, sender, claims, t - 1, f);
      ClaimPrioSome(claims, t - 1);
      NumStep(LocalClaims(lo, me, sh, ix, sender, claims[..t - 1]), me,
              ShareClaims(sh, ix, sender, claims[..t - 1]).table, sender, claims[t - 1], f);
    }
  }
}
