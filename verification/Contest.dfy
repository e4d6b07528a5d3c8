/** Who wins a contested entry, and what each claimant then believes and does. Every lemma
    follows a single entry through the STATE messages of one view, in delivery order. */
module Contest {
  import opened Tables
  import opened Protocol
  import opened Gather

  predicate Managed(prio: int) { prio == CLAIMED || prio == PREFER_CLAIMED }

  /** A STATE message as a member of the view (whose real addresses are names) sends it. */
  predicate WellFormed(names: seq<Address>, cfg: seq<Address>, m: StateMsg) {
    && m.index < |names| && m.sender == names[m.index]
    && DistinctClaims(m.claims) && (!m.mature ==> m.claims == [])
    && (forall i | 0 <= i < |m.claims| :: m.claims[i].pseudo in cfg && Managed(m.claims[i].prio))
  }

  /** STATE messages of one view: each member is heard at most once. */
  predicate Heard(names: seq<Address>, cfg: seq<Address>, ms: seq<StateMsg>) {
    && Distinct(names) && Distinct(cfg)
    && (forall i | 0 <= i < |ms| :: WellFormed(names, cfg, ms[i]))
    && (forall i, k | 0 <= i < k < |ms| :: ms[i].index != ms[k].index)
  }

  predicate Claims(m: StateMsg, p: Address) { ClaimPrio(m.claims, p).Some? }

  /** How many of the messages claim address p. */
  function Claimants(ms: seq<StateMsg>, p: Address): nat {
    if ms == [] then 0
    else Claimants(ms[..|ms| - 1], p) + (if Claims(ms[|ms| - 1], p) then 1 else 0)
  }

  /** The first message, in delivery order, that claims p with priority prio. */
  function First(ms: seq<StateMsg>, p: Address, prio: int): (i: nat)
    ensures i <= |ms|
    ensures i < |ms| ==> ClaimPrio(ms[i].claims, p) == Some(prio)
    ensures forall k | 0 <= k < i :: ClaimPrio(ms[k].claims, p) != Some(prio)
  {
    if ms == [] then 0
    else
      var n := |ms| - 1;
      var i := First(ms[..n], p, prio);
      if i < n then i else if ClaimPrio(ms[n].claims, p) == Some(prio) then n else n + 1
  }

  predicate Spoke(ms: seq<StateMsg>, a: Address) { exists i | 0 <= i < |ms| :: ms[i].sender == a }

  lemma ClaimsAreManaged(claims: seq<Claim>, p: Address)
    requires forall i | 0 <= i < |claims| :: Managed(claims[i].prio)
    ensures ClaimPrio(claims, p).Some? ==> Managed(ClaimPrio(claims, p).value)
  {}

  /** Someone who spoke last has not spoken before. */
  lemma SpeaksOnce(names: seq<Address>, cfg: seq<Address>, ms: seq<StateMsg>)
    requires Heard(names, cfg, ms) && ms != []
    ensures Heard(names, cfg, ms[..|ms| - 1])
    ensures !Spoke(ms[..|ms| - 1], ms[|ms| - 1].sender)
    ensures forall a :: Spoke(ms, a) <==> Spoke(ms[..|ms| - 1], a) || a == ms[|ms| - 1].sender
    ensures ms[|ms| - 1].sender != 0
  {
    var n := |ms| - 1;
    forall a ensures Spoke(ms, a) <==> Spoke(ms[..n], a) || a == ms[n].sender {
      if Spoke(ms[..n], a) {
        var i :| 0 <= i < n && ms[..n][i].sender == a;
        assert ms[i].sender == a;
      }
    }
  }

  /** An entry without an owner has had no claimant; an entry with an owner belongs to
      someone who was heard and, unless it was only preferred, claimed it. */
  lemma {:induction false} EntryFacts(names: seq<Address>, cfg: seq<Address>, ms: seq<StateMsg>, p: Address)
    requires Heard(names, cfg, ms)
    ensures var e := EntryAfter(ms, p);
      && (e.owner == 0 <==> e.prio == UNCLAIMED)
      && (e.prio == UNCLAIMED || e.prio == PREFER || Managed(e.prio))
      && (e.owner == 0 ==> Claimants(ms, p) == 0)
      && (e.owner != 0 ==> Spoke(ms, e.owner))
      && (Managed(e.prio) ==> Claimants(ms, p) >= 1)
      && (Managed(e.prio) ==> exists i | 0 <= i < |ms| :: ms[i].sender == e.owner && Claims(ms[i], p))
  {
    if ms != [] {
      var n := |ms| - 1;
      SpeaksOnce(names, cfg, ms);
      EntryFacts(names, cfg, ms[..n], p);
      ClaimsAreManaged(ms[n].claims, p);
      var (b, e) := (EntryAfter(ms[..n], p), EntryAfter(ms, p));
      if Managed(e.prio) {
        if e.owner == ms[n].sender && Claims(ms[n], p) {
        } else {
          var i :| 0 <= i < n && ms[..n][i].sender == b.owner && Claims(ms[..n][i], p);
          assert ms[i].sender == e.owner && Claims(ms[i], p);
        }
      }
    }
  }

  /** A preference, once installed, stays until the gather ends. */
  lemma PreferStays(names: seq<Address>, cfg: seq<Address>, ms: seq<StateMsg>, p: Address)
    requires Heard(names, cfg, ms) && ms != []
    ensures EntryAfter(ms[..|ms| - 1], p).prio == PREFER ==> EntryAfter(ms, p) == EntryAfter(ms[..|ms| - 1], p)
  {
    ClaimsAreManaged(ms[|ms| - 1].claims, p);
    EntryFacts(names, cfg, ms[..|ms| - 1], p);
  }

  /** The rule for contested entries: the entry goes to the first member to claim it as
      PREFER_CLAIMED, and if there is none to the first member to claim it at all. */
  function Winner(ms: seq<StateMsg>, p: Address): Entry {
    var (strong, weak) := (First(ms, p, PREFER_CLAIMED), First(ms, p, CLAIMED));
    if strong < |ms| then Entry(p, ms[strong].sender, PREFER_CLAIMED)
    else if weak < |ms| then Entry(p, ms[weak].sender, CLAIMED)
    else Entry(p, 0, UNCLAIMED)
  }

  lemma WinnerStep(ms: seq<StateMsg>, p: Address)
    requires ms != [] && forall i | 0 <= i < |ms| :: ms[i].sender != 0
    requires Claims(ms[|ms| - 1], p) ==> Managed(ClaimPrio(ms[|ms| - 1].claims, p).value)
    ensures Winner(ms, p)
      == AfterClaim(Winner(ms[..|ms| - 1], p), ms[|ms| - 1].sender, ClaimPrio(ms[|ms| - 1].claims, p))
  {
    var n := |ms| - 1;
    var (strong, weak) := (First(ms[..n], p, PREFER_CLAIMED), First(ms[..n], p, CLAIMED));
    assert strong < n ==> ms[..n][strong] == ms[strong];
    assert weak < n ==> ms[..n][weak] == ms[weak];
  }

  /** Where no preference is installed, every contest ends by that rule. */
  lemma {:induction false} ContestGoesTo(names: seq<Address>, cfg: seq<Address>, ms: seq<StateMsg>, p: Address)
    requires Heard(names, cfg, ms) && EntryAfter(ms, p).prio != PREFER
    ensures EntryAfter(ms, p) == Winner(ms, p)
  {
    if ms != [] {
      var n := |ms| - 1;
      SpeaksOnce(names, cfg, ms);
      PreferStays(names, cfg, ms, p);
      ContestGoesTo(names, cfg, ms[..n], p);
      ClaimsAreManaged(ms[n].claims, p);
      forall i | 0 <= i < |ms| ensures ms[i].sender != 0 { assert WellFormed(names, cfg, ms[i]); }
      WinnerStep(ms, p);
    }
  }

  /** A node's own knowledge of an entry when the view begins: it holds exactly what its
      old table says it owns, and its own STATE message claims exactly that. */
  predicate Honest(me: Address, c: Cell, ms: seq<StateMsg>, p: Address) {
    && me != 0 && c.prior.pseudo == p && c.downs == 0
    && (c.held <==> c.prior.owner == me)
    && (c.held ==> Managed(c.prior.prio))
    && (forall i | 0 <= i < |ms| && ms[i].sender == me ::
          ClaimPrio(ms[i].claims, p) == if c.held then Some(c.prior.prio) else None)
  }

  /** What a node holds of an entry whose table row is e, when d is its cell now and c its
      cell at the start of the view; spoke: its own message has been delivered. */
  predicate CellInv(me: Address, c: Cell, e: Entry, d: Cell, spoke: bool) {
    && d.prior.pseudo == c.prior.pseudo
    && (d.held ==> c.held) && d.downs == (if c.held && !d.held then 1 else 0)
    && (!spoke ==> d.held == c.held && e.owner != me)
    && (spoke && e.prio != PREFER ==> (d.held <==> e.owner == me))
    && (d.prior.owner == me ==> Managed(d.prior.prio))
  }

  lemma CellStep(me: Address, c: Cell, e: Entry, d: Cell, spoke: bool, sender: Address, claim: Option<int>,
          prefs: seq<Address>)
    requires CellInv(me, c, e, d, spoke)
    requires me != 0 && sender != 0 && (claim.Some? ==> Managed(claim.value))
    requires (e.owner == 0 <==> e.prio == UNCLAIMED) && (e.prio == UNCLAIMED || e.prio == PREFER || Managed(e.prio))
    requires sender == me ==> !spoke && (claim.Some? <==> c.held)
    requires claim.Some? && sender == me ==> claim.value == c.prior.prio
    ensures CellInv(me, c, Preferred(AfterClaim(e, sender, claim), sender, prefs), ClaimCell(d, me, e, sender, claim),
      spoke || sender == me)
  {}

  /** What a node holds while STATE messages arrive. Until its own message is delivered it
      keeps what it held; afterwards it holds an entry without a preference exactly when it
      won it, and each entry it lost it took down exactly once. */
  lemma {:induction false} CellFacts(names: seq<Address>, cfg: seq<Address>, me: Address, c: Cell, ms: seq<StateMsg>,
          p: Address)
    requires Heard(names, cfg, ms) && Honest(me, c, ms, p)
    ensures CellInv(me, c, EntryAfter(ms, p), CellAfter(c, me, ms, p), Spoke(ms, me))
  {
    if ms != [] {
      var n := |ms| - 1;
      SpeaksOnce(names, cfg, ms);
      assert Honest(me, c, ms[..n], p);
      CellFacts(names, cfg, me, c, ms[..n], p);
      EntryFacts(names, cfg, ms[..n], p);
      ClaimsAreManaged(ms[n].claims, p);
      CellStep(me, c, EntryAfter(ms[..n], p), CellAfter(c, me, ms[..n], p), Spoke(ms[..n], me),
               ms[n].sender, ClaimPrio(ms[n].claims, p), ms[n].prefs);
    }
  }

  // ----- which claims take effect -----

  /** How many claims on p arrived while no preference was installed on it: the others are
      ignored. */
  function Effective(ms: seq<StateMsg>, p: Address): nat {
    if ms == [] then 0
    else
      var n := |ms| - 1;
      Effective(ms[..n], p) + (if Claims(ms[n], p) && EntryAfter(ms[..n], p).prio != PREFER then 1 else 0)
  }

  /** A claim of member a on p was among them. */
  predicate OwnEffective(ms: seq<StateMsg>, a: Address, p: Address) {
    ms != [] &&
      var n := |ms| - 1;
      OwnEffective(ms[..n], a, p) || (ms[n].sender == a && Claims(ms[n], p) && EntryAfter(ms[..n], p).prio != PREFER)
  }

  /** The claim of member a on p took effect, or at most one claim did. */
  predicate Unharmed(ms: seq<StateMsg>, a: Address, p: Address) { OwnEffective(ms, a, p) || Effective(ms, p) <= 1 }

  lemma {:induction false} OwnEffectiveSpoke(ms: seq<StateMsg>, a: Address, p: Address)
    ensures OwnEffective(ms, a, p) ==> Spoke(ms, a)
  {
    if ms != [] {
      var n := |ms| - 1;
      OwnEffectiveSpoke(ms[..n], a, p);
      if Spoke(ms[..n], a) {
        var i :| 0 <= i < n && ms[..n][i].sender == a;
        assert ms[i].sender == a;
      }
    }
  }

  lemma {:induction false} EffectiveAreClaims(ms: seq<StateMsg>, me: Address, p: Address)
    ensures Effective(ms, p) <= Claimants(ms, p)
    ensures (exists i | 0 <= i < |ms| :: ms[i].sender == me && Claims(ms[i], p)) && !OwnEffective(ms, me, p)
      ==> Effective(ms, p) < Claimants(ms, p)
  {
    if ms != [] {
      var n := |ms| - 1;
      EffectiveAreClaims(ms[..n], me, p);
      if i :| 0 <= i < |ms| && ms[i].sender == me && Claims(ms[i], p) {
        if i < n { assert ms[..n][i] == ms[i]; }
      }
    }
  }

  /** What an old-table entry says, when d is the cell now; held: the node held the entry when
      the view began; own and effective: whether its own claim took effect, and how many did. */
  predicate PriorInv(me: Address, held: bool, e: Entry, d: Cell, own: bool, effective: nat) {
    && (!held ==> !d.held && d.prior.owner != me && !own)
    && (held && !own ==> d.held && (d.prior.owner == me <==> effective <= 1))
    && (own ==> held && (d.held <==> d.prior.owner == me))
    && (held && e.owner == me ==> own)
    && (e.prio != PREFER ==>
          && (effective == 0 <==> e.owner == 0) && (!own ==> e.owner != me)
          && (own ==> (d.held <==> e.owner == me)))
  }

  lemma PriorStep(me: Address, held: bool, e: Entry, d: Cell, own: bool, effective: nat, sender: Address,
          claim: Option<int>, prefs: seq<Address>)
    requires PriorInv(me, held, e, d, own, effective)
    requires me != 0 && sender != 0 && (claim.Some? ==> Managed(claim.value))
    requires e.prio == UNCLAIMED || e.prio == PREFER || Managed(e.prio)
    requires e.owner == 0 <==> e.prio == UNCLAIMED
    requires sender == me ==> !own && (claim.Some? <==> held)
    ensures var takes := claim.Some? && e.prio != PREFER;
      PriorInv(me, held, Preferred(AfterClaim(e, sender, claim), sender, prefs), ClaimCell(d, me, e, sender, claim),
               own || (sender == me && takes), effective + if takes then 1 else 0)
  {}

  lemma {:induction false} PriorFacts(names: seq<Address>, cfg: seq<Address>, me: Address, c: Cell, ms: seq<StateMsg>,
          p: Address)
    requires Heard(names, cfg, ms) && Honest(me, c, ms, p)
    ensures PriorInv(me, c.held, EntryAfter(ms, p), CellAfter(c, me, ms, p), OwnEffective(ms, me, p), Effective(ms, p))
  {
    if ms != [] {
      var n := |ms| - 1;
      SpeaksOnce(names, cfg, ms);
      assert Honest(me, c, ms[..n], p);
      PriorFacts(names, cfg, me, c, ms[..n], p);
      OwnEffectiveSpoke(ms[..n], me, p);
      EntryFacts(names, cfg, ms[..n], p);
      ClaimsAreManaged(ms[n].claims, p);
      PriorStep(me, c.held, EntryAfter(ms[..n], p), CellAfter(c, me, ms[..n], p), OwnEffective(ms[..n], me, p),
                Effective(ms[..n], p), ms[n].sender, ClaimPrio(ms[n].claims, p), ms[n].prefs);
    }
  }

  /** A node that held an entry when the view began has it up, while its old table names
      another owner, exactly when its own claim has not taken effect and two others have. */
  lemma OverwrittenIff(names: seq<Address>, cfg: seq<Address>, me: Address, c: Cell, ms: seq<StateMsg>, p: Address)
    requires Heard(names, cfg, ms) && Honest(me, c, ms, p) && c.held
    ensures var d := CellAfter(c, me, ms, p);
      d.held && d.prior.owner != me <==> !OwnEffective(ms, me, p) && Effective(ms, p) >= 2
  {
    PriorFacts(names, cfg, me, c, ms, p);
  }
}
