/** One wackamole process: the global variables of wackamole.c and the handlers that update
    them in place. Every handler computes the function of Protocol.dfy of the same name. */
module Process {
  import opened Tables
  import opened Protocol
  import opened Balancing

  class Node {
    const me: Address
    const prefer: seq<Address>
    const balanceRate: nat
    const allocationTable: array<Entry>
    const oldTable: array<Entry>
    var state: Phase
    var maturity: bool
    var oldMaturity: bool
    var num: int
    var myIndex: nat
    var members: seq<Member>
    var gid: int
    var pendingStates: int
    /** The entries whose addresses are up on this machine. */
    ghost var held: set<nat>
    /** How often each entry was taken down since the view began. */
    ghost var downs: multiset<nat>

    ghost predicate Valid()
      reads this
    {
      allocationTable != oldTable && allocationTable.Length == oldTable.Length
    }

    ghost function LocalPart(): Local
      reads this, oldTable
    {
      Local(oldTable[..], held, num, downs)
    }

    ghost function SharedPart(): Shared
      reads this, allocationTable
    {
      Shared(allocationTable[..], members)
    }

    /** The state of this process as a value. */
    ghost function Abs(): NodeState
      reads this, allocationTable, oldTable
    {
      NodeState(state, maturity, oldMaturity, me, prefer, myIndex, gid, pendingStates, SharedPart(), LocalPart())
    }

    constructor (me: Address, prefer: seq<Address>, balanceRate: nat, cfg: seq<Address>)
      ensures Valid() && fresh(allocationTable) && fresh(oldTable)
      ensures Abs() == NodeState(BOOT, false, false, me, prefer, 0, 0, 0,
        Shared(seq(|cfg|, j requires 0 <= j < |cfg| => Entry(cfg[j], 0, UNCLAIMED)), []),
        Local(seq(|cfg|, j requires 0 <= j < |cfg| => Entry(cfg[j], 0, UNCLAIMED)), {}, 0, multiset{}))
    {
      this.me, this.prefer, this.balanceRate := me, prefer, balanceRate;
      allocationTable := new Entry[|cfg|](j requires 0 <= j < |cfg| => Entry(cfg[j], 0, UNCLAIMED));
      oldTable := new Entry[|cfg|](j requires 0 <= j < |cfg| => Entry(cfg[j], 0, UNCLAIMED));
      state, maturity, oldMaturity, num, myIndex, members, gid, pendingStates := BOOT, false, false, 0, 0, [], 0, 0;
      held, downs := {}, multiset{};
    }

    /** Acquire: the entry is up on this machine, and counted. */
    method BringUp(j: nat)
      requires Valid()
      modifies this`num, this`held
      ensures LocalPart() == Acquire(old(LocalPart()), j)
    {
      held := held + {j};
      num := num + 1;
    }

    /** Release: the entry is down on this machine, and no longer counted. */
    method TakeDown(j: nat)
      requires Valid()
      modifies this`num, this`held, this`downs
      ensures LocalPart() == Release(old(LocalPart()), j)
    {
      held, downs := held - {j}, downs + multiset{j};
      num := num - 1;
    }

    /** findVEFromAddress: the first entry with this address, if there is one. */
    method FindEntry(addr: Address) returns (j: nat)
      requires Valid()
      ensures j == Find(allocationTable[..], addr)
    {
      j := 0;
      while j < allocationTable.Length
        invariant j <= allocationTable.Length
        invariant Find(allocationTable[..], addr) == j + Find(allocationTable[j..], addr)
      {
        if allocationTable[j].pseudo == addr { return; }
        assert allocationTable[j..][1..] == allocationTable[j + 1..];
        j := j + 1;
      }
    }

    method ReleaseAddress(addr: Address)
      requires Valid() && Find(allocationTable[..], addr) < allocationTable.Length
      modifies this`num, this`held, this`downs
      ensures LocalPart() == Release(old(LocalPart()), Find(allocationTable[..], addr))
    {
      var j := FindEntry(addr);
      if j < allocationTable.Length { TakeDown(j); }
    }

    method CountDown(a: Address)
      modifies this`members
      ensures members == Uncount(old(members), a)
    {
      var k := 0;
      while k < |members|
        invariant k <= |members| == |old(members)|
        invariant forall i | 0 <= i < |members| ::
          var x := old(members)[i];
          members[i] == if i < k && x.addr == a then x.(num := x.num - 1) else x
      {
        if members[k].addr == a {
          members := members[k := members[k].(num := members[k].num - 1)];
        }
        k := k + 1;
      }
    }

    /** The body of the claim loop of Handle_state for the entry j that the claim names. */
    method ResolveClaim(j: nat, ix: nat, sender: Address, c: Claim)
      requires Valid() && j < allocationTable.Length && ix < |members| && j == Find(allocationTable[..], c.pseudo)
      modifies this`num, this`held, this`downs, this`members, allocationTable, oldTable
      ensures SharedPart() == ShareClaim(old(SharedPart()), ix, sender, c)
      ensures LocalPart() == LocalClaim(old(LocalPart()), me, old(allocationTable[..]), sender, c)
    {
      ghost var (table, old0) := (allocationTable[..], oldTable[..]);
      var e := allocationTable[j];
      if e.owner == 0 {
        allocationTable[j] := Entry(e.pseudo, sender, c.prio);
        assert allocationTable[..] == table[j := Entry(e.pseudo, sender, c.prio)];
      } else if e.prio == PREFER_CLAIMED || e.prio == c.prio {
        members := members[ix := members[ix].(num := members[ix].num - 1)];
        if me == sender { ReleaseAddress(c.pseudo); }
        oldTable[j] := Entry(oldTable[j].pseudo, e.owner, e.prio);
        assert oldTable[..] == old0[j := Entry(old0[j].pseudo, e.owner, e.prio)];
      } else if e.prio == CLAIMED && c.prio > PREFER {
        if me == e.owner { ReleaseAddress(c.pseudo); }
        CountDown(e.owner);
        allocationTable[j] := Entry(e.pseudo, sender, c.prio);
        oldTable[j] := Entry(oldTable[j].pseudo, sender, c.prio);
        assert allocationTable[..] == table[j := Entry(e.pseudo, sender, c.prio)];
        assert oldTable[..] == old0[j := Entry(old0[j].pseudo, sender, c.prio)];
      }
    }

    /** One round of the claim loop of Handle_state. */
    method TakeClaim(ix: nat, sender: Address, c: Claim)
      requires Valid() && ix < |members|
      modifies this`num, this`held, this`downs, this`members, allocationTable, oldTable
      ensures SharedPart() == ShareClaim(old(SharedPart()), ix, sender, c)
      ensures LocalPart() == LocalClaim(old(LocalPart()), me, old(allocationTable[..]), sender, c)
    {
      var j := FindEntry(c.pseudo);
      if j < allocationTable.Length { ResolveClaim(j, ix, sender, c); }
    }

    /** The claim loop of Handle_state. */
    method ResolveClaims(ix: nat, sender: Address, claims: seq<Claim>)
      requires Valid() && ix < |members|
      modifies this`num, this`held, this`downs, this`members, allocationTable, oldTable
      ensures SharedPart() == ShareClaims(old(SharedPart()), ix, sender, claims)
      ensures LocalPart() == LocalClaims(old(LocalPart()), me, old(SharedPart()), ix, sender, claims)
    {
      var i := 0;
      ghost var (sh, lo) := (SharedPart(), LocalPart());
      while i < |claims|
        invariant i <= |claims| && ix < |members|
        invariant SharedPart() == ShareClaims(sh, ix, sender, claims[..i])
        invariant LocalPart() == LocalClaims(lo, me, sh, ix, sender, claims[..i])
      {
        assert claims[..i + 1][..i] == claims[..i];
        TakeClaim(ix, sender, claims[i]);
        i := i + 1;
      }
      assert claims[..i] == claims;
    }

    /** The preference loop of Handle_state. */
    method InstallPreferences(sender: Address, prefs: seq<Address>)
      requires Valid()
      modifies allocationTable
      ensures allocationTable[..] == SharePrefs(old(allocationTable[..]), sender, prefs)
    {
      var i := 0;
      while i < |prefs|
        invariant i <= |prefs|
        invariant allocationTable[..] == SharePrefs(old(allocationTable[..]), sender, prefs[..i])
      {
        assert prefs[..i + 1][..i] == prefs[..i];
        ghost var table := allocationTable[..];
        var j := FindEntry(prefs[i]);
        if j < allocationTable.Length && allocationTable[j].prio < PREFER {
          allocationTable[j] := Entry(allocationTable[j].pseudo, sender, PREFER);
          assert allocationTable[..] == table[j := Entry(table[j].pseudo, sender, PREFER)];
        }
        i := i + 1;
      }
      assert prefs[..i] == prefs;
    }

    /** The adjustment loops of Priority_claim and Handle_balance over the members. */
    method MoveCredit(from: Address, to: Address)
      modifies this`members
      ensures members == Recredit(old(members), from, to)
    {
      var k := 0;
      while k < |members|
        invariant k <= |members| == |old(members)|
        invariant forall i | 0 <= i < |members| ::
          members[i] == if i < k then Recredit(old(members), from, to)[i] else old(members)[i]
      {
        var x := members[k];
        if x.addr == from { x := x.(num := x.num - 1); }
        if x.addr == to { x := x.(num := x.num + 1); }
        assert x == Recredit(old(members), from, to)[k];
        members := members[k := x];
        k := k + 1;
      }
    }

    /** One entry of the preference loop of Priority_claim. */
    method GrantPreference(i: nat)
      requires Valid() && i < allocationTable.Length
      modifies this`num, this`held, this`downs, this`members, allocationTable
      ensures LocalPart() == SettlePreferred(old(LocalPart()), me, old(allocationTable[i]), oldTable[i], i)
      ensures SharedPart() == (if old(allocationTable[i]).prio != PREFER then old(SharedPart()) else
        Shared(old(allocationTable[..])[i := old(allocationTable[i]).(prio := PREFER_CLAIMED)],
               Recredit(old(members), oldTable[i].owner, old(allocationTable[i].owner))))
    {
      if allocationTable[i].prio != PREFER { return; }
      ghost var table := allocationTable[..];
      var (e, o) := (allocationTable[i], oldTable[i]);
      if me == e.owner && me != o.owner { BringUp(i); }
      if me == o.owner && me != e.owner { TakeDown(i); }
      MoveCredit(o.owner, e.owner);
      allocationTable[i] := e.(prio := PREFER_CLAIMED);
      assert allocationTable[..] == table[i := e.(prio := PREFER_CLAIMED)];
    }

    method CountEntries(a: Address) returns (count: nat)
      requires Valid()
      ensures count == |OwnedSet(allocationTable[..], a)|
    {
      var j := 0;
      count := 0;
      while j < allocationTable.Length
        invariant j <= allocationTable.Length && count == |OwnedSet(allocationTable[..j], a)|
      {
        assert allocationTable[..j + 1][..j] == allocationTable[..j];
        OwnedSetStep(allocationTable[..j + 1], a);
        if allocationTable[j].owner == a { count := count + 1; }
        j := j + 1;
      }
      assert allocationTable[..j] == allocationTable[..];
    }

    /** Count the entries of each member anew. */
    method RecountAll()
      requires Valid()
      modifies this`members
      ensures members == Recount(old(members), allocationTable[..])
    {
      var i := 0;
      while i < |members|
        invariant i <= |members| == |old(members)|
        invariant forall k | 0 <= k < |members| ::
          members[k] == if k < i then Recount(old(members), allocationTable[..])[k] else old(members)[k]
      {
        var count := CountEntries(members[i].addr);
        members := members[i := members[i].(num := count)];
        i := i + 1;
      }
    }

    /** The preference loop of Priority_claim. */
    method GrantPreferences()
      requires Valid()
      modifies this`num, this`held, this`downs, this`members, allocationTable
      ensures SharedPart() == SharePriority(old(SharedPart()), oldTable[..], oldTable.Length)
      ensures LocalPart() == LocalPriority(old(LocalPart()), me, old(allocationTable[..]), oldTable.Length)
    {
      var i := 0;
      ghost var (sh, lo) := (SharedPart(), LocalPart());
      SharePriorityTail(sh, lo.prior, 0);
      while i < allocationTable.Length
        invariant i <= allocationTable.Length
        invariant SharedPart() == SharePriority(sh, lo.prior, i) && LocalPart() == LocalPriority(lo, me, sh.table, i)
        invariant forall j | i <= j < allocationTable.Length :: allocationTable[j] == sh.table[j]
      {
        GrantPreference(i);
        i := i + 1;
        SharePriorityTail(sh, lo.prior, i);
      }
    }

    /** Priority_claim. */
    method PriorityClaims()
      requires Valid()
      modifies this`num, this`held, this`downs, this`members, this`oldMaturity, allocationTable
      ensures Abs() == PriorityClaim(old(Abs()))
    {
      GrantPreferences();
      if maturity && !oldMaturity {
        oldMaturity := true;
        RecountAll();
      }
    }

    /** The inner loop of Claim_unclaimed. */
    method FindPoorest() returns (m: nat)
      requires |members| >= 1
      ensures m == Poorest(members, |members|)
    {
      m := 0;
      var j := 1;
      while j < |members|
        invariant 1 <= j <= |members| && m == Poorest(members, j)
      {
        if members[j].num < members[m].num { m := j; }
        j := j + 1;
      }
    }

    /** One round of the loop of Claim_unclaimed. */
    method ClaimEntry(i: nat)
      requires Valid() && i < allocationTable.Length && |members| >= 1
      modifies this`num, this`held, this`downs, this`members, allocationTable
      ensures SharedPart() == GiveUnclaimed(old(SharedPart()), i)
      ensures LocalPart() == TakeUnclaimed(old(LocalPart()), myIndex, old(SharedPart()), i)
    {
      ghost var table := allocationTable[..];
      if allocationTable[i].prio == UNCLAIMED {
        var m := FindPoorest();
        if myIndex == m { BringUp(i); }
        allocationTable[i] := Entry(allocationTable[i].pseudo, members[m].addr, CLAIMED);
        members := members[m := members[m].(num := members[m].num + 1)];
        assert allocationTable[..] == table[i := Entry(table[i].pseudo, members[m].addr, CLAIMED)];
      }
    }

    /** Claim_unclaimed. */
    method ClaimUnclaimedEntries()
      requires Valid() && |members| >= 1
      modifies this`num, this`held, this`downs, this`members, allocationTable
      ensures Abs() == ClaimUnclaimed(old(Abs()))
    {
      var i := 0;
      ghost var (sh, lo) := (SharedPart(), LocalPart());
      while i < allocationTable.Length
        invariant i <= allocationTable.Length && |members| >= 1
        invariant SharedPart() == ShareUnclaimed(sh, i) && LocalPart() == LocalUnclaimed(lo, myIndex, sh, i)
      {
        ClaimEntry(i);
        i := i + 1;
      }
    }

    /** Handle_mature. */
    method HandleMaturing()
      requires Valid() && |members| >= 1
      modifies this, allocationTable
      ensures Abs() == HandleMature(old(Abs()))
    {
      if maturity { return; }
      maturity := true;
      if state != GATHER {
        PriorityClaims();
        ClaimUnclaimedEntries();
        state := RUN;
      }
    }

    /** The part of Handle_state that reads the message. */
    method Absorb(m: StateMsg)
      requires Valid() && m.index < |members|
      modifies this`num, this`held, this`downs, this`members, allocationTable, oldTable
      ensures SharedPart() == ShareMsg(old(SharedPart()), m)
      ensures LocalPart() == LocalMsg(old(LocalPart()), me, old(SharedPart()), m)
    {
      members := members[m.index := Member(m.sender, |m.claims|, true)];
      ResolveClaims(m.index, m.sender, m.claims);
      InstallPreferences(m.sender, m.prefs);
    }

    /** Handle_state. */
    method HandleStateMessage(m: StateMsg)
      requires Valid() && |members| >= 1 && (m.gid == gid ==> m.index < |members|)
      modifies this, allocationTable, oldTable
      ensures Abs() == HandleState(old(Abs()), m)
    {
      if gid != m.gid { return; }
      Absorb(m);
      if !maturity && m.mature { HandleMaturing(); }
      pendingStates := pendingStates - 1;
      if pendingStates == 0 {
        if maturity {
          PriorityClaims();
          ClaimUnclaimedEntries();
          state := RUN;
        } else {
          state := BOOT;
        }
      }
    }

    /** Send_state_message: it asserts that the claims it wrote are as many as it counts. */
    method SendState() returns (m: StateMsg)
      requires Valid() && |OwnClaims(oldTable[..], me)| == num
      ensures m == MakeState(Abs())
    {
      var claims := [];
      var i := 0;
      while i < oldTable.Length
        invariant i <= oldTable.Length && claims == OwnClaims(oldTable[..i], me)
      {
        assert oldTable[..i + 1][..i] == oldTable[..i];
        if oldTable[i].owner == me { claims := claims + [Claim(oldTable[i].pseudo, oldTable[i].prio)]; }
        i := i + 1;
      }
      assert oldTable[..i] == oldTable[..];
      assert |claims| == num;
      m := StateMsg(gid, me, myIndex, maturity, claims, prefer);
    }

    method ForgetMembers(n: nat)
      modifies this`members
      ensures members == NoMembers(n)
    {
      var k := 0;
      members := [];
      while k < n
        invariant k <= n && members == NoMembers(k)
      {
        members := members + [Member(0, 0, false)];
        k := k + 1;
      }
    }

    method ClearTable()
      requires Valid()
      modifies allocationTable
      ensures allocationTable[..] == Blank(old(allocationTable[..]))
    {
      var i := 0;
      while i < allocationTable.Length
        invariant i <= allocationTable.Length
        invariant forall j | 0 <= j < allocationTable.Length ::
          var e := old(allocationTable[j]);
          allocationTable[j] == if j < i then Entry(e.pseudo, 0, UNCLAIMED) else e
      {
        allocationTable[i] := Entry(allocationTable[i].pseudo, 0, UNCLAIMED);
        i := i + 1;
      }
    }

    /** Keep the table of a view that was in service. */
    method SaveTable()
      requires Valid()
      modifies oldTable
      ensures oldTable[..] == if state != GATHER && state != BOOT then allocationTable[..] else old(oldTable[..])
    {
      if state == GATHER || state == BOOT { return; }
      forall j | 0 <= j < oldTable.Length { oldTable[j] := allocationTable[j]; }
    }

    /** Handle_membership up to the sending of the STATE message. */
    method EnterView(view: int, n: nat, index: nat)
      requires Valid() && index < n
      modifies this, allocationTable, oldTable
      ensures Abs() == HandleMembership(old(Abs()), view, n, index).(phase := old(state))
    {
      ghost var (st, table) := (HandleMembership(Abs(), view, n, index), allocationTable[..]);
      assert st.shared == Shared(Blank(table), NoMembers(n));
      gid, pendingStates, myIndex := view, n, index;
      ForgetMembers(n);
      SaveTable();
      ghost var prior := oldTable[..];
      assert prior == st.local.prior;
      ClearTable();
      assert oldTable[..] == prior;
      downs := multiset{};
      assert SharedPart() == st.shared;
    }

    /** A membership notification; the message is the STATE message it multicasts. */
    method HandleMembershipNotice(view: int, n: nat, index: nat) returns (m: StateMsg)
      requires Valid() && index < n
      requires num == |OwnClaims(if state != GATHER && state != BOOT then allocationTable[..] else oldTable[..], me)|
      modifies this, allocationTable, oldTable
      ensures Abs() == HandleMembership(old(Abs()), view, n, index) && m == MakeState(Abs())
    {
      EnterView(view, n, index);
      m := SendState();
      state := GATHER;
    }

    /** One move of Handle_balance. */
    method ReplayMove(mv: Move)
      requires Valid()
      modifies this`num, this`held, this`downs, this`members, allocationTable
      ensures SharedPart() == ShareMove(old(SharedPart()), mv)
      ensures LocalPart() == LocalMove(old(LocalPart()), me, old(allocationTable[..]), mv)
    {
      ghost var table := allocationTable[..];
      var i := FindEntry(mv.pseudo);
      if i < allocationTable.Length {
        if me == mv.target { BringUp(i); }
        if me == allocationTable[i].owner { TakeDown(i); }
        MoveCredit(allocationTable[i].owner, mv.target);
        allocationTable[i] := allocationTable[i].(owner := mv.target);
        assert allocationTable[..] == table[i := table[i].(owner := mv.target)];
      }
    }

    /** Handle_balance. */
    method HandleBalanceMessage(moves: seq<Move>)
      requires Valid()
      modifies this`num, this`held, this`downs, this`members, allocationTable
      ensures Abs() == if old(state) != RUN then old(Abs()) else
        old(Abs()).(shared := ShareMoves(old(SharedPart()), moves),
                    local := LocalMoves(old(LocalPart()), me, old(SharedPart()), moves))
    {
      if state != RUN { return; }
      var k := 0;
      ghost var (sh, lo) := (SharedPart(), LocalPart());
      while k < |moves|
        invariant k <= |moves|
        invariant SharedPart() == ShareMoves(sh, moves[..k]) && LocalPart() == LocalMoves(lo, me, sh, moves[..k])
      {
        assert moves[..k + 1][..k] == moves[..k];
        ReplayMove(moves[k]);
        k := k + 1;
      }
      assert moves[..k] == moves;
    }

    /** The loop of Balance that looks for the poorest and the richest member; it starts
        from the indices of the previous round. */
    static method LookAround(counts: seq<Member>, lo: nat, hi: nat) returns (minIndex: nat, maxIndex: nat)
      requires lo < |counts| && hi < |counts|
      ensures minIndex == ScanMin(counts, lo, |counts|) && maxIndex == ScanMax(counts, hi, |counts|)
    {
      minIndex, maxIndex := lo, hi;
      var i := 0;
      while i < |counts|
        invariant i <= |counts| && minIndex == ScanMin(counts, lo, i) && maxIndex == ScanMax(counts, hi, i)
      {
        if counts[i].num < counts[minIndex].num { minIndex := i; }
        if counts[i].num > counts[maxIndex].num { maxIndex := i; }
        i := i + 1;
      }
    }

    /** The inner loop of Balance: the first entry of the richest member that may move goes
        to the poorest. The branch that would notice that there is none sits inside the
        loop under a condition that contradicts the loop's own, so it is never taken. */
    static method TakeFromRichest(table: array<Entry>, counts: seq<Member>, lo: nat, hi: nat, moves: seq<Move>)
      returns (newCounts: seq<Member>, newMoves: seq<Move>)
      requires lo < |counts| && hi < |counts|
      modifies table
      ensures var p := Relocate(Plan(Shared(old(table[..]), counts), lo, hi, moves));
        p == Plan(Shared(table[..], newCounts), lo, hi, newMoves)
    {
      newCounts, newMoves := counts, moves;
      var j := 0;
      while j < table.Length
        invariant j <= table.Length && table[..] == old(table[..])
        invariant Movable(table[..], counts[hi].addr) == j + Movable(table[j..], counts[hi].addr)
        invariant newCounts == counts && newMoves == moves
      {
        assert table[j..][1..] == table[j + 1..];
        if table[j].owner == counts[hi].addr && table[j].prio < PREFER {
          newMoves := moves + [Move(counts[lo].addr, table[j].pseudo)];
          newCounts := newCounts[lo := newCounts[lo].(num := newCounts[lo].num + 1)];
          newCounts := newCounts[hi := newCounts[hi].(num := newCounts[hi].num - 1)];
          ghost var was := table[..];
          table[j] := table[j].(owner := counts[lo].addr);
          assert table[..] == was[j := was[j].(owner := counts[lo].addr)];
          return;
        }
        j := j + 1;
      }
    }

    /** The loop of Balance on the working copies. */
    static method DrawPlan(table: array<Entry>, members: seq<Member>, rate: nat) returns (k: nat, moves: seq<Move>)
      requires |members| >= 1
      modifies table
      ensures var (header, p) := Loop(Plan(Shared(old(table[..]), members), 0, 0, []), 0, rate);
        k == header && moves == p.moves
    {
      var minIndex, maxIndex, counts := 0, 0, members;
      k, moves := 0, [];
      ghost var p := Plan(Shared(table[..], members), 0, 0, []);
      ghost var end := Loop(p, 0, rate);
      while k < rate
        invariant k <= rate && Indexed(p) && end == Loop(p, k, rate)
        invariant p == Plan(Shared(table[..], counts), minIndex, maxIndex, moves)
      {
        LoopRound(p, k, rate);
        minIndex, maxIndex := LookAround(counts, minIndex, maxIndex);
        if counts[maxIndex].num - counts[minIndex].num <= 1 { return; }
        p := Relocate(Scan(p));
        counts, moves := TakeFromRichest(table, counts, minIndex, maxIndex, moves);
        k := k + 1;
      }
    }

    /** The timer event that plans a BALANCE message on working copies of table and counts;
        the result is the message multicast. There is none if the first look finds the
        counts balanced. */
    method Balance() returns (message: Option<(nat, seq<Move>)>)
      requires Valid() && |members| >= 1
      modifies this`state
      ensures Abs() == old(Abs())
      ensures message == if myIndex == 0 && state == RUN then BalanceMessage(SharedPart(), balanceRate) else None
    {
      if myIndex != 0 { return None; }
      if state != RUN { return None; }
      state := BALANCE;
      var k, moves := PlanOnCopies();
      state := RUN;
      message := if k == 0 && balanceRate > 0 then None else Some((k, moves));
    }

    /** The table and the counts are copied before anything is planned. */
    method PlanOnCopies() returns (k: nat, moves: seq<Move>)
      requires Valid() && |members| >= 1
      ensures var (header, p) := Loop(Plan(SharedPart(), 0, 0, []), 0, balanceRate);
        k == header && moves == p.moves
    {
      var n := allocationTable.Length;
      var tempTable := new Entry[n](i requires 0 <= i < n reads allocationTable => allocationTable[i]);
      assert tempTable[..] == allocationTable[..];
      k, moves := DrawPlan(tempTable, members, balanceRate);
    }

    /** One round of the loop of Clean_up. */
    method CleanEntry(i: nat)
      requires Valid() && i < oldTable.Length
      modifies this`num, this`held, this`downs, allocationTable, oldTable
      ensures held == old(held) - {i} && num == old(num) - 1
      ensures allocationTable[i] == old(allocationTable[i]).(owner := 0) && oldTable[i] == old(oldTable[i]).(owner := 0)
      ensures forall j | 0 <= j < oldTable.Length && j != i ::
        allocationTable[j] == old(allocationTable[j]) && oldTable[j] == old(oldTable[j])
    {
      TakeDown(i);
      allocationTable[i] := allocationTable[i].(owner := 0);
      oldTable[i] := oldTable[i].(owner := 0);
    }

    /** Clean_up: take every entry down, then forget its owner in both tables. */
    method CleanUp()
      requires Valid()
      modifies this`num, this`held, this`downs, allocationTable, oldTable
      ensures allocationTable[..] == Disown(old(allocationTable[..])) && oldTable[..] == Disown(old(oldTable[..]))
      ensures held == old(held) - Upto(oldTable.Length) && num == old(num) - oldTable.Length
    {
      var i := 0;
      while i < oldTable.Length
        invariant i <= oldTable.Length && num == old(num) - i
        invariant forall j :: j in held <==> j in old(held) && i <= j
        invariant forall j | 0 <= j < oldTable.Length ::
          allocationTable[j] == if j < i then old(allocationTable[j]).(owner := 0) else old(allocationTable[j])
        invariant forall j | 0 <= j < oldTable.Length ::
          oldTable[j] == if j < i then old(oldTable[j]).(owner := 0) else old(oldTable[j])
      {
        CleanEntry(i);
        i := i + 1;
      }
    }

    /** Spread_reconnect as far as it succeeds: Clean_up, then the initial state. */
    method SpreadReconnect()
      requires Valid() && held <= Upto(oldTable.Length)
      modifies this, allocationTable, oldTable
      ensures Abs() == Reconnect(old(Abs()))
    {
      CleanUp();
      state, oldMaturity, maturity := BOOT, false, false;
      num := 0;
      downs := multiset{};
    }
  }

  /** The preference loop has not touched the entries from i on. */
  lemma {:induction false} SharePriorityTail(sh: Shared, prior: seq<Entry>, i: nat)
    requires i <= |sh.table| == |prior|
    ensures forall j | i <= j < |sh.table| :: SharePriority(sh, prior, i).table[j] == sh.table[j]
  {
    if i > 0 { SharePriorityTail(sh, prior, i - 1); }
  }
}
