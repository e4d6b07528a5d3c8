/** The members' counts while STATE messages arrive. Every conflict adjusts a count; here
    the counts are shown to be the sizes of explicit sets of entries. */
module Tally {
  import opened Tables
  import opened Protocol
  import opened Gather
  import opened Contest

  /** Is the entry for p counted for the member with address a? A member is counted for all
      entries it claims, except where its claim was refused or later taken over. */
  predicate CountedAt(ms: seq<StateMsg>, p: Address, a: Address) {
    if ms == [] then false
    else
      var n := |ms| - 1;
      CountedNext(CountedAt(ms[..n], p, a), a, EntryAfter(ms[..n], p), ms[n].sender,
                  ClaimPrio(ms[n].claims, p), ClaimPrio(ms[n].claims, p))
  }

  /** The same in the middle of one message from sender, of whose claims on this entry
      `all` is the one in the message and `sofar` the one already handled. */
  predicate CountedNext(before: bool, a: Address, e: Entry, sender: Address, all: Option<int>, sofar: Option<int>) {
    if a == sender then all.Some? && !(sofar.Some? && Judge(e, sofar.value).Refused?)
    else before && !(sofar.Some? && Judge(e, sofar.value).TakenOver? && e.owner == a)
  }

  function CountedSet(cfg: seq<Address>, ms: seq<StateMsg>, a: Address): set<nat> {
    set j: nat | j < |cfg| && CountedAt(ms, cfg[j], a)
  }

  /** Without a preference on it, an entry is counted for its owner and for nobody else. */
  lemma {:induction false} CountedForOwner(names: seq<Address>, cfg: seq<Address>, ms: seq<StateMsg>, p: Address,
          a: Address)
    requires Heard(names, cfg, ms) && a != 0 && EntryAfter(ms, p).prio != PREFER
    ensures CountedAt(ms, p, a) <==> EntryAfter(ms, p).owner == a
  {
    if ms != [] {
      var n := |ms| - 1;
      SpeaksOnce(names, cfg, ms);
      PreferStays(names, cfg, ms, p);
      EntryFacts(names, cfg, ms[..n], p);
      ClaimsAreManaged(ms[n].claims, p);
      CountedForOwner(names, cfg, ms[..n], p, a);
    }
  }

  /** An entry that at most one member claims is counted for exactly that member, whatever
      preferences are installed. */
  lemma {:induction false} CountedForClaimant(names: seq<Address>, cfg: seq<Address>, ms: seq<StateMsg>, p: Address,
          a: Address)
    requires Heard(names, cfg, ms) && Claimants(ms, p) <= 1
    ensures CountedAt(ms, p, a) <==> exists i | 0 <= i < |ms| :: ms[i].sender == a && Claims(ms[i], p)
  {
    if ms != [] {
      var n := |ms| - 1;
      SpeaksOnce(names, cfg, ms);
      EntryFacts(names, cfg, ms[..n], p);
      ClaimsAreManaged(ms[n].claims, p);
      CountedForClaimant(names, cfg, ms[..n], p, a);
      if exists i | 0 <= i < n :: ms[..n][i].sender == a && Claims(ms[..n][i], p) {
        var i :| 0 <= i < n && ms[..n][i].sender == a && Claims(ms[..n][i], p);
        assert ms[i].sender == a && Claims(ms[i], p);
      }
      if a == ms[n].sender {
        assert CountedAt(ms, p, a) <==> Claims(ms[n], p);
      } else {
        assert CountedAt(ms, p, a) == CountedAt(ms[..n], p, a);
      }
    }
  }

  function ClaimSet(cfg: seq<Address>, claims: seq<Claim>): set<nat> {
    set j: nat | j < |cfg| && ClaimPrio(claims, cfg[j]).Some?
  }

  /** The entries of a list of claims are as many as the claims. */
  lemma {:induction false} ClaimSetSize(cfg: seq<Address>, claims: seq<Claim>)
    requires Distinct(cfg) && DistinctClaims(claims)
    requires forall i | 0 <= i < |claims| :: claims[i].pseudo in cfg
    ensures |ClaimSet(cfg, claims)| == |claims|
  {
    if claims == [] {
      assert ClaimSet(cfg, claims) == {};
    } else {
      var n := |claims| - 1;
      ClaimSetSize(cfg, claims[..n]);
      ClaimsOnce(claims);
      var f :| 0 <= f < |cfg| && cfg[f] == claims[n].pseudo;
      assert f !in ClaimSet(cfg, claims[..n]) && ClaimSet(cfg, claims) == ClaimSet(cfg, claims[..n]) + {f};
    }
  }

  /** The entries counted for a while message m, arriving after ms, has had the claims
      `sofar` handled. */
  function CountedMid(cfg: seq<Address>, ms: seq<StateMsg>, m: StateMsg, sofar: seq<Claim>, a: Address): set<nat> {
    set j: nat | j < |cfg| && InMid(ms, m, sofar, cfg[j], a)
  }

  predicate InMid(ms: seq<StateMsg>, m: StateMsg, sofar: seq<Claim>, p: Address, a: Address) {
    CountedNext(CountedAt(ms, p, a), a, EntryAfter(ms, p), m.sender, ClaimPrio(m.claims, p), ClaimPrio(sofar, p))
  }

  /** A member heard (or speaking, for m) has its address and its set's size on record;
      the others are blank. */
  predicate Recorded(names: seq<Address>, cfg: seq<Address>, ms: seq<StateMsg>, m: StateMsg, sofar: seq<Claim>,
          k: nat, x: Member)
    requires k < |names|
  {
    x == if Spoke(ms + [m], names[k]) then Member(names[k], |CountedMid(cfg, ms, m, sofar, names[k])|, true)
         else Member(0, 0, false)
  }

  /** What one claim does to the record of member k. */
  function MemberAfter(x: Member, k: nat, ix: nat, e: Entry, prio: int): Member {
    var v := Judge(e, prio);
    if (v.Refused? && k == ix) || (v.TakenOver? && x.addr == e.owner) then x.(num := x.num - 1) else x
  }

  lemma ShareClaimMember(sh: Shared, ix: nat, sender: Address, c: Claim, f: nat, k: nat)
    requires ix < |sh.members| && k < |sh.members| && f < |sh.table| && Find(sh.table, c.pseudo) == f
    ensures ShareClaim(sh, ix, sender, c).members[k] == MemberAfter(sh.members[k], k, ix, sh.table[f], c.prio)
  {}

  /** Handling one more claim takes its entry out of the sender's set if it is refused and
      out of the old owner's set if it is taken over; no other set changes. */
  lemma MidStep(names: seq<Address>, cfg: seq<Address>, ms: seq<StateMsg>, m: StateMsg, t: nat, f: nat, a: Address)
    requires Heard(names, cfg, ms) && WellFormed(names, cfg, m) && t < |m.claims| && a != 0
    requires f < |cfg| && cfg[f] == m.claims[t].pseudo && !Spoke(ms, m.sender)
    ensures var (s, s') := (CountedMid(cfg, ms, m, m.claims[..t], a), CountedMid(cfg, ms, m, m.claims[..t + 1], a));
      var (e, v) := (EntryAfter(ms, cfg[f]), Judge(EntryAfter(ms, cfg[f]), m.claims[t].prio));
      if (v.Refused? && a == m.sender) || (v.TakenOver? && a == e.owner) then f in s && s' == s - {f} else s' == s
  {
    var c := m.claims[t];
    var (sofar, next) := (m.claims[..t], m.claims[..t + 1]);
    assert next[..t] == sofar;
    ClaimPrioNone(sofar, c.pseudo);
    ClaimPrioSome(m.claims, t);
    CountedFits(names, cfg, ms, cfg[f], a);
    assert forall j | 0 <= j < |cfg| && j != f :: ClaimPrio(next, cfg[j]) == ClaimPrio(sofar, cfg[j]);
    assert ClaimPrio(next, cfg[f]) == Some(c.prio);
    var (s, s') := (CountedMid(cfg, ms, m, sofar, a), CountedMid(cfg, ms, m, next, a));
    assert forall j | 0 <= j < |cfg| && j != f :: InMid(ms, m, next, cfg[j], a) == InMid(ms, m, sofar, cfg[j], a);
    if InMid(ms, m, next, cfg[f], a) {
      assert s' == s;
    } else {
      assert s' == s - {f};
    }
  }

  /** An entry taken as CLAIMED is counted for its owner. */
  lemma CountedFits(names: seq<Address>, cfg: seq<Address>, ms: seq<StateMsg>, p: Address, a: Address)
    requires Heard(names, cfg, ms) && a != 0
    ensures EntryAfter(ms, p).prio == CLAIMED ==> (CountedAt(ms, p, a) <==> EntryAfter(ms, p).owner == a)
    ensures EntryAfter(ms, p).owner != 0 ==> Spoke(ms, EntryAfter(ms, p).owner)
  {
    EntryFacts(names, cfg, ms, p);
    if EntryAfter(ms, p).prio == CLAIMED { CountedForOwner(names, cfg, ms, p, a); }
  }

  /** One more claim handled: a member's record stays the size of the set counted for it. */
  lemma TallyStep(names: seq<Address>, cfg: seq<Address>, ms: seq<StateMsg>, m: StateMsg, t: nat, f: nat, k: nat,
          x: Member)
    requires Heard(names, cfg, ms) && WellFormed(names, cfg, m) && t < |m.claims| && k < |names|
    requires f < |cfg| && cfg[f] == m.claims[t].pseudo && !Spoke(ms, m.sender)
    requires Recorded(names, cfg, ms, m, m.claims[..t], k, x)
    ensures Recorded(names, cfg, ms, m, m.claims[..t + 1], k,
                     MemberAfter(x, k, m.index, EntryAfter(ms, cfg[f]), m.claims[t].prio))
  {
    MidStep(names, cfg, ms, m, t, f, names[k]);
    var e := EntryAfter(ms, cfg[f]);
    EntryFacts(names, cfg, ms, cfg[f]);
    assert names[k] == m.sender <==> k == m.index;
    if Spoke(ms + [m], names[k]) {
    } else {
      if e.owner == names[k] { SpokeGrows(ms, m, names[k]); assert false; }
      assert (ms + [m])[|ms|].sender == m.sender;
    }
  }

  lemma SpokeGrows(ms: seq<StateMsg>, m: StateMsg, a: Address)
    requires Spoke(ms, a) || m.sender == a
    ensures Spoke(ms + [m], a)
  {
    if Spoke(ms, a) {
      var i :| 0 <= i < |ms| && ms[i].sender == a;
      assert (ms + [m])[i].sender == a;
    } else {
      assert (ms + [m])[|ms|].sender == a;
    }
  }

  /** One more claim, for all members. */
  lemma RecordsClaim(names: seq<Address>, cfg: seq<Address>, ms: seq<StateMsg>, m: StateMsg, t: nat, f: nat, r: Shared)
    requires Heard(names, cfg, ms) && WellFormed(names, cfg, m) && !Spoke(ms, m.sender) && t < |m.claims|
    requires f < |cfg| == |r.table| && cfg[f] == m.claims[t].pseudo && Find(r.table, cfg[f]) == f
    requires r.table[f] == EntryAfter(ms, cfg[f]) && |r.members| == |names|
    requires forall k | 0 <= k < |names| :: Recorded(names, cfg, ms, m, m.claims[..t], k, r.members[k])
    ensures forall k | 0 <= k < |names| ::
      Recorded(names, cfg, ms, m, m.claims[..t + 1], k, ShareClaim(r, m.index, m.sender, m.claims[t]).members[k])
  {
    forall k | 0 <= k < |names|
      ensures Recorded(names, cfg, ms, m, m.claims[..t + 1], k,
                       ShareClaim(r, m.index, m.sender, m.claims[t]).members[k])
    {
      ShareClaimMember(r, m.index, m.sender, m.claims[t], f, k);
      TallyStep(names, cfg, ms, m, t, f, k, r.members[k]);
    }
  }

  /** When a claim is handled, its entry is still as it was when the message arrived. */
  lemma UntouchedEntry(sh: Shared, cfg: seq<Address>, ix: nat, sender: Address, claims: seq<Claim>,
          t: nat) returns (f: nat)
    requires ix < |sh.members| && Wears(sh.table, cfg) && Distinct(cfg) && DistinctClaims(claims)
    requires t < |claims| && claims[t].pseudo in cfg
    ensures f < |cfg| && cfg[f] == claims[t].pseudo
    ensures var r := ShareClaims(sh, ix, sender, claims[..t]);
      Find(r.table, cfg[f]) == f && r.table[f] == sh.table[f]
  {
    f :| 0 <= f < |cfg| && cfg[f] == claims[t].pseudo;
    ClaimsPerEntry(sh, cfg, ix, sender, claims[..t]);
    FindsItself(ShareClaims(sh, ix, sender, claims[..t]).table, cfg, f);
    ClaimPrioNone(claims[..t], claims[t].pseudo);
  }

  /** The member records after the first t claims of a message. */
  lemma {:induction false} ClaimsTally(names: seq<Address>, cfg: seq<Address>, ms: seq<StateMsg>, m: StateMsg,
          t: nat, sh: Shared, sofar: seq<Claim>)
    requires Heard(names, cfg, ms) && WellFormed(names, cfg, m) && !Spoke(ms, m.sender)
    requires t <= |m.claims| && sofar == m.claims[..t]
    requires |sh.members| == |names| && Wears(sh.table, cfg)
    requires forall j | 0 <= j < |cfg| :: sh.table[j] == EntryAfter(ms, cfg[j])
    requires forall k | 0 <= k < |names| :: Recorded(names, cfg, ms, m, [], k, sh.members[k])
    ensures forall k | 0 <= k < |names| ::
      Recorded(names, cfg, ms, m, sofar, k, ShareClaims(sh, m.index, m.sender, sofar).members[k])
  {
    if t == 0 {
      assert sofar == [];
    } else {
      ClaimsTally(names, cfg, ms, m, t - 1, sh, m.claims[..t - 1]);
      assert sofar[..t - 1] == m.claims[..t - 1];
      var f := UntouchedEntry(sh, cfg, m.index, m.sender, m.claims, t - 1);
      RecordsClaim(names, cfg, ms, m, t - 1, f, ShareClaims(sh, m.index, m.sender, m.claims[..t - 1]));
    }
  }

  lemma ClaimPrioSome(claims: seq<Claim>, t: nat)
    requires DistinctClaims(claims) && t < |claims|
    ensures ClaimPrio(claims, claims[t].pseudo) == Some(claims[t].prio)
  {}
}
