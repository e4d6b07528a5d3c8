/** What the STATE messages delivered so far make of one single entry. The handlers of
    Protocol.dfy loop over whole messages and whole tables; here every entry is followed
    on its own, and the loops are shown to act entry by entry. */
module Gather {
  import opened Tables
  import opened Protocol

  /** The priority with which a list of claims claims an address, if it does. */
  function ClaimPrio(claims: seq<Claim>, p: Address): Option<int> {
    if claims == [] then None
    else if claims[|claims| - 1].pseudo == p then Some(claims[|claims| - 1].prio)
    else ClaimPrio(claims[..|claims| - 1], p)
  }

  predicate DistinctClaims(claims: seq<Claim>) {
    forall i, k | 0 <= i < k < |claims| :: claims[i].pseudo != claims[k].pseudo
  }

  function AfterClaim(e: Entry, sender: Address, prio: Option<int>): Entry {
    if prio.None? then e
    else
      var v := Judge(e, prio.value);
      if v.Granted? || v.TakenOver? then Entry(e.pseudo, sender, prio.value) else e
  }

  function Preferred(e: Entry, sender: Address, prefs: seq<Address>): Entry {
    if e.pseudo in prefs && e.prio < PREFER then Entry(e.pseudo, sender, PREFER) else e
  }

  function MsgEntry(e: Entry, m: StateMsg): Entry {
    Preferred(AfterClaim(e, m.sender, ClaimPrio(m.claims, e.pseudo)), m.sender, m.prefs)
  }

  /** The entry for address p after the messages ms, delivered in this order. */
  function EntryAfter(ms: seq<StateMsg>, p: Address): (e: Entry)
    ensures e.pseudo == p
  {
    if ms == [] then Entry(p, 0, UNCLAIMED) else MsgEntry(EntryAfter(ms[..|ms| - 1], p), ms[|ms| - 1])
  }

  /** What one node knows about one entry: its old-table entry, whether it has brought the
      entry up, and how often it took it down in this view. */
  datatype Cell = Cell(prior: Entry, held: bool, downs: nat)

  function CellOf(lo: Local, j: nat): Cell
    requires j < |lo.prior|
  {
    Cell(lo.prior[j], j in lo.held, lo.downs[j])
  }

  function Drop(c: Cell): Cell { c.(held := false, downs := c.downs + 1) }

  function ClaimCell(c: Cell, me: Address, e: Entry, sender: Address, prio: Option<int>): Cell {
    if prio.None? then c
    else
      match Judge(e, prio.value)
      case Granted => c
      case Refused => (if me == sender then Drop(c) else c).(prior := Entry(c.prior.pseudo, e.owner, e.prio))
      case TakenOver => (if me == e.owner then Drop(c) else c).(prior := Entry(c.prior.pseudo, sender, prio.value))
      case Ignored => c
  }

  function CellAfter(c: Cell, me: Address, ms: seq<StateMsg>, p: Address): Cell {
    if ms == [] then c
    else
      var before := ms[..|ms| - 1];
      var m := ms[|ms| - 1];
      ClaimCell(CellAfter(c, me, before, p), me, EntryAfter(before, p), m.sender, ClaimPrio(m.claims, p))
  }

  // ----- the loops act entry by entry -----

  /** A whole list of claims does to each entry of the table what that entry's own claim does. */
  lemma {:induction false} ClaimsPerEntry(sh: Shared, cfg: seq<Address>, ix: nat, sender: Address, claims: seq<Claim>)
    requires ix < |sh.members| && Wears(sh.table, cfg) && Distinct(cfg) && DistinctClaims(claims)
    ensures var t := ShareClaims(sh, ix, sender, claims).table;
      Wears(t, cfg) && forall j | 0 <= j < |cfg| :: t[j] == AfterClaim(sh.table[j], sender, ClaimPrio(claims, cfg[j]))
  {
    if claims != [] {
      var n := |claims| - 1;
      var c := claims[n];
      ClaimsPerEntry(sh, cfg, ix, sender, claims[..n]);
      var sh' := ShareClaims(sh, ix, sender, claims[..n]);
      var f := Find(sh'.table, c.pseudo);
      forall j | 0 <= j < |cfg|
        ensures ShareClaims(sh, ix, sender, claims).table[j]
          == AfterClaim(sh.table[j], sender, ClaimPrio(claims, cfg[j]))
      {
        if cfg[j] == c.pseudo {
          FindsItself(sh'.table, cfg, j);
          ClaimsOnce(claims);
        } else {
          assert sh'.table[j].pseudo == cfg[j];
        }
      }
    }
  }

  /** In distinct claims the last one claims an address that no earlier one does. */
  lemma ClaimsOnce(claims: seq<Claim>)
    requires DistinctClaims(claims) && claims != []
    ensures ClaimPrio(claims[..|claims| - 1], claims[|claims| - 1].pseudo) == None
  {
    ClaimPrioNone(claims[..|claims| - 1], claims[|claims| - 1].pseudo);
  }

  lemma ClaimPrioNone(claims: seq<Claim>, p: Address)
    requires forall i | 0 <= i < |claims| :: claims[i].pseudo != p
    ensures ClaimPrio(claims, p) == None
  {}

  /** One claim touches the cell of the entry it names and no other. */
  lemma ClaimStep(lo: Local, me: Address, table: seq<Entry>, cfg: seq<Address>, sender: Address, c: Claim, j: nat)
    requires Wears(table, cfg) && Wears(lo.prior, cfg) && Distinct(cfg) && j < |cfg|
    ensures LocalClaim(lo, me, table, sender, c).prior[j].pseudo == cfg[j]
    ensures CellOf(LocalClaim(lo, me, table, sender, c), j)
      == if cfg[j] == c.pseudo then ClaimCell(CellOf(lo, j), me, table[j], sender, Some(c.prio)) else CellOf(lo, j)
  {
    assert table[j].pseudo == lo.prior[j].pseudo == cfg[j];
    if cfg[j] == c.pseudo {
      FindsItself(table, cfg, j);
    }
  }

  /** The same for what one node knows about each entry. */
  lemma {:induction false} ClaimsPerCell(lo: Local, me: Address, sh: Shared, cfg: seq<Address>, ix: nat,
          sender: Address, claims: seq<Claim>)
    requires ix < |sh.members| && Wears(sh.table, cfg) && Wears(lo.prior, cfg)
    requires Distinct(cfg) && DistinctClaims(claims)
    ensures Wears(LocalClaims(lo, me, sh, ix, sender, claims).prior, cfg)
    ensures forall j | 0 <= j < |cfg| ::
      CellOf(LocalClaims(lo, me, sh, ix, sender, claims), j)
      == ClaimCell(CellOf(lo, j), me, sh.table[j], sender, ClaimPrio(claims, cfg[j]))
  {
    if claims != [] {
      var n := |claims| - 1;
      ClaimsPerCell(lo, me, sh, cfg, ix, sender, claims[..n]);
      ClaimsPerEntry(sh, cfg, ix, sender, claims[..n]);
      ClaimsOnce(claims);
      var lo' := LocalClaims(lo, me, sh, ix, sender, claims[..n]);
      var sh' := ShareClaims(sh, ix, sender, claims[..n]);
      forall j | 0 <= j < |cfg|
        ensures LocalClaims(lo, me, sh, ix, sender, claims).prior[j].pseudo == cfg[j]
        ensures CellOf(LocalClaims(lo, me, sh, ix, sender, claims), j)
          == ClaimCell(CellOf(lo, j), me, sh.table[j], sender, ClaimPrio(claims, cfg[j]))
      {
        ClaimStep(lo', me, sh'.table, cfg, sender, claims[n], j);
      }
    }
  }

  /** A whole list of preferences, entry by entry. */
  lemma {:induction false} PrefsPerEntry(table: seq<Entry>, cfg: seq<Address>, sender: Address, prefs: seq<Address>)
    requires Wears(table, cfg) && Distinct(cfg)
    ensures var t := SharePrefs(table, sender, prefs);
      Wears(t, cfg) && forall j | 0 <= j < |cfg| :: t[j] == Preferred(table[j], sender, prefs)
  {
    if prefs != [] {
      var n := |prefs| - 1;
      PrefsPerEntry(table, cfg, sender, prefs[..n]);
      var t := SharePrefs(table, sender, prefs[..n]);
      var f := Find(t, prefs[n]);
      assert prefs == prefs[..n] + [prefs[n]];
      forall j | 0 <= j < |cfg|
        ensures SharePrefs(table, sender, prefs)[j] == Preferred(table[j], sender, prefs)
      {
        if cfg[j] == prefs[n] {
          FindsItself(t, cfg, j);
        } else {
          assert t[j].pseudo == cfg[j];
        }
      }
    }
  }

  /** One whole STATE message, entry by entry. */
  lemma MsgPerEntry(sh: Shared, lo: Local, me: Address, cfg: seq<Address>, m: StateMsg)
    requires m.index < |sh.members| && Wears(sh.table, cfg) && Wears(lo.prior, cfg) && Distinct(cfg)
    requires DistinctClaims(m.claims)
    ensures Wears(ShareMsg(sh, m).table, cfg) && Wears(LocalMsg(lo, me, sh, m).prior, cfg)
    ensures forall j | 0 <= j < |cfg| :: ShareMsg(sh, m).table[j] == MsgEntry(sh.table[j], m)
    ensures forall j | 0 <= j < |cfg| ::
      CellOf(LocalMsg(lo, me, sh, m), j)
      == ClaimCell(CellOf(lo, j), me, sh.table[j], m.sender, ClaimPrio(m.claims, cfg[j]))
  {
    ClaimsPerEntry(Enlist(sh, m), cfg, m.index, m.sender, m.claims);
    ClaimsPerCell(lo, me, Enlist(sh, m), cfg, m.index, m.sender, m.claims);
    PrefsPerEntry(ShareClaims(Enlist(sh, m), m.index, m.sender, m.claims).table, cfg, m.sender, m.prefs);
  }
}
