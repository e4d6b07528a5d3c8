/** The event handlers of wackamole.c as functions on one node's state. What every
    member of a view computes alike (`Shared`) is kept apart from what each node knows
    about itself (`Local`). The class in Node.dfy is proved to compute these functions. */
module Protocol {
  import opened Tables

  datatype Phase = BOOT | GATHER | RUN | BALANCE

  datatype Claim = Claim(pseudo: Address, prio: int)

  /** A STATE message: the sender's real address and index, its maturity, the entries
      it holds and the entries it would prefer to hold. */
  datatype StateMsg = StateMsg(gid: int, sender: Address, index: nat, mature: bool,
                               claims: seq<Claim>, prefs: seq<Address>)

  datatype Move = Move(target: Address, pseudo: Address)

  datatype Event = State(msg: StateMsg) | Maturing | Rebalance(moves: seq<Move>)

  datatype Shared = Shared(table: seq<Entry>, members: seq<Member>)

  /** `prior` is Old_table; `held` are the entries this node has brought up; `downs` counts how often it took
      each entry down since the current view began. */
  datatype Local = Local(prior: seq<Entry>, held: set<nat>, num: int, downs: multiset<nat>)

  datatype NodeState = NodeState(
    phase: Phase, maturity: bool, oldMaturity: bool,
    me: Address, prefs: seq<Address>, index: nat, gid: int, pending: int,
    shared: Shared, local: Local)

  // ----- bringing an entry up or down -----

  function Acquire(lo: Local, j: nat): Local {
    lo.(held := lo.held + {j}, num := lo.num + 1)
  }

  function Release(lo: Local, j: nat): Local {
    lo.(held := lo.held - {j}, num := lo.num - 1, downs := lo.downs + multiset{j})
  }

  // ----- STATE messages: resolving claims -----

  datatype Verdict = Granted | Refused | TakenOver | Ignored

  /** What becomes of a claim with priority prio on entry e. */
  function Judge(e: Entry, prio: int): Verdict {
    if e.owner == 0 then Granted
    else if e.prio == PREFER_CLAIMED || e.prio == prio then Refused
    else if e.prio == CLAIMED && prio > PREFER then TakenOver
    else Ignored
  }

  /** Subtract one from the count of every member whose address is a. */
  function Uncount(members: seq<Member>, a: Address): (r: seq<Member>)
    ensures |r| == |members|
    ensures forall k | 0 <= k < |r| ::
      r[k] == if members[k].addr == a then members[k].(num := members[k].num - 1) else members[k]
  {
    if members == [] then []
    else
      var last := members[|members| - 1];
      Uncount(members[..|members| - 1], a) + [if last.addr == a then last.(num := last.num - 1) else last]
  }

  function ShareClaim(sh: Shared, ix: nat, sender: Address, c: Claim): (r: Shared)
    requires ix < |sh.members|
    ensures |r.table| == |sh.table| && |r.members| == |sh.members|
  {
    var j := Find(sh.table, c.pseudo);
    if j == |sh.table| then sh
    else
      var e := sh.table[j];
      match Judge(e, c.prio)
      case Granted => sh.(table := sh.table[j := Entry(e.pseudo, sender, c.prio)])
      case Refused => sh.(members := sh.members[ix := sh.members[ix].(num := sh.members[ix].num - 1)])
      case TakenOver => Shared(sh.table[j := Entry(e.pseudo, sender, c.prio)], Uncount(sh.members, e.owner))
      case Ignored => sh
  }

  /** The old-table entry after a conflict keeps its own address but takes the winner. */
  function Overwrite(prior: seq<Entry>, j: nat, owner: Address, prio: int): (r: seq<Entry>)
    requires j < |prior|
    ensures |r| == |prior|
  {
    prior[j := Entry(prior[j].pseudo, owner, prio)]
  }

  function LocalClaim(lo: Local, me: Address, table: seq<Entry>, sender: Address, c: Claim): (r: Local)
    requires |lo.prior| == |table|
    ensures |r.prior| == |lo.prior|
  {
    var j := Find(table, c.pseudo);
    if j == |table| then lo
    else
      var e := table[j];
      match Judge(e, c.prio)
      case Granted => lo
      case Refused =>
        var lo' := if me == sender then Release(lo, j) else lo;
        lo'.(prior := Overwrite(lo.prior, j, e.owner, e.prio))
      case TakenOver =>
        var lo' := if me == e.owner then Release(lo, j) else lo;
        lo'.(prior := Overwrite(lo.prior, j, sender, c.prio))
      case Ignored => lo
  }

  function ShareClaims(sh: Shared, ix: nat, sender: Address, claims: seq<Claim>): (r: Shared)
    requires ix < |sh.members|
    ensures |r.table| == |sh.table| && |r.members| == |sh.members|
  {
    if claims == [] then sh
    else
      var n := |claims| - 1;
      ShareClaim(ShareClaims(sh, ix, sender, claims[..n]), ix, sender, claims[n])
  }

  function LocalClaims(lo: Local, me: Address, sh: Shared, ix: nat, sender: Address, claims: seq<Claim>): (r: Local)
    requires ix < |sh.members| && |lo.prior| == |sh.table|
    ensures |r.prior| == |lo.prior|
  {
    if claims == [] then lo
    else
      var n := |claims| - 1;
      LocalClaim(LocalClaims(lo, me, sh, ix, sender, claims[..n]), me,
                 ShareClaims(sh, ix, sender, claims[..n]).table, sender, claims[n])
  }

  /** One preferred address: the sender takes the entry unless its priority is already
      PREFER or higher. */
  function SharePref(table: seq<Entry>, sender: Address, p: Address): (r: seq<Entry>)
    ensures |r| == |table|
  {
    var j := Find(table, p);
    if j < |table| && table[j].prio < PREFER then table[j := Entry(table[j].pseudo, sender, PREFER)] else table
  }

  function SharePrefs(table: seq<Entry>, sender: Address, prefs: seq<Address>): (r: seq<Entry>)
    ensures |r| == |table|
  {
    if prefs == [] then table
    else SharePref(SharePrefs(table, sender, prefs[..|prefs| - 1]), sender, prefs[|prefs| - 1])
  }

  /** The sender's member record is filled in before its claims are resolved. */
  function Enlist(sh: Shared, m: StateMsg): (r: Shared)
    requires m.index < |sh.members|
    ensures |r.table| == |sh.table| && |r.members| == |sh.members|
  {
    sh.(members := sh.members[m.index := Member(m.sender, |m.claims|, true)])
  }

  function ShareMsg(sh: Shared, m: StateMsg): (r: Shared)
    requires m.index < |sh.members|
    ensures |r.table| == |sh.table| && |r.members| == |sh.members|
  {
    var sh' := ShareClaims(Enlist(sh, m), m.index, m.sender, m.claims);
    sh'.(table := SharePrefs(sh'.table, m.sender, m.prefs))
  }

  function LocalMsg(lo: Local, me: Address, sh: Shared, m: StateMsg): (r: Local)
    requires m.index < |sh.members| && |lo.prior| == |sh.table|
    ensures |r.prior| == |lo.prior|
  {
    LocalClaims(lo, me, Enlist(sh, m), m.index, m.sender, m.claims)
  }

  // ----- Priority_claim and Claim_unclaimed -----

  /** Move one unit of every member's count from the old owner to the new one. */
  function Recredit(members: seq<Member>, from: Address, to: Address): (r: seq<Member>)
    ensures |r| == |members|
    ensures forall k | 0 <= k < |r| ::
      r[k] == members[k].(num := members[k].num
        - (if members[k].addr == from && from != to then 1 else 0)
        + (if members[k].addr == to && from != to then 1 else 0))
  {
    if members == [] then []
    else
      var x := members[|members| - 1];
      Recredit(members[..|members| - 1], from, to)
      + [x.(num := x.num
          - (if x.addr == from && from != to then 1 else 0)
          + (if x.addr == to && from != to then 1 else 0))]
  }

  /** The first i entries of the preference loop of Priority_claim. */
  function SharePriority(sh: Shared, prior: seq<Entry>, i: nat): (r: Shared)
    requires i <= |sh.table| == |prior|
    ensures |r.table| == |sh.table| && |r.members| == |sh.members|
  {
    if i == 0 then sh
    else
      var r := SharePriority(sh, prior, i - 1);
      var e := r.table[i - 1];
      if e.prio != PREFER then r
      else Shared(r.table[i - 1 := e.(prio := PREFER_CLAIMED)], Recredit(r.members, prior[i - 1].owner, e.owner))
  }

  /** One preferred entry e, which the old table gives to o.owner. */
  function SettlePreferred(lo: Local, me: Address, e: Entry, o: Entry, j: nat): (r: Local)
    ensures r.prior == lo.prior
  {
    if e.prio != PREFER then lo
    else if me == e.owner && me != o.owner then Acquire(lo, j)
    else if me == o.owner && me != e.owner then Release(lo, j)
    else lo
  }

  function LocalPriority(lo: Local, me: Address, table: seq<Entry>, i: nat): (r: Local)
    requires i <= |table| == |lo.prior|
    ensures r.prior == lo.prior
  {
    if i == 0 then lo
    else SettlePreferred(LocalPriority(lo, me, table, i - 1), me, table[i - 1], lo.prior[i - 1], i - 1)
  }

  /** Count the entries each member owns from scratch. */
  function Recount(members: seq<Member>, table: seq<Entry>): (r: seq<Member>)
    ensures |r| == |members|
    ensures forall k | 0 <= k < |r| :: r[k] == members[k].(num := |OwnedSet(table, members[k].addr)|)
  {
    if members == [] then []
    else
      var x := members[|members| - 1];
      Recount(members[..|members| - 1], table) + [x.(num := |OwnedSet(table, x.addr)|)]
  }

  function PriorityClaim(st: NodeState): (r: NodeState)
    requires |st.shared.table| == |st.local.prior|
    ensures |r.shared.table| == |st.shared.table| && |r.shared.members| == |st.shared.members|
    ensures r.local.prior == st.local.prior
  {
    var n := |st.shared.table|;
    var sh := SharePriority(st.shared, st.local.prior, n);
    var lo := LocalPriority(st.local, st.me, st.shared.table, n);
    if st.maturity && !st.oldMaturity then
      st.(shared := sh.(members := Recount(sh.members, sh.table)), local := lo, oldMaturity := true)
    else st.(shared := sh, local := lo)
  }

  /** The member that claims next: the first with the smallest count among the first i. */
  function Poorest(members: seq<Member>, i: nat): (m: nat)
    requires 1 <= i <= |members|
    ensures m < i
    ensures forall k | 0 <= k < i :: members[m].num <= members[k].num
    ensures forall k | 0 <= k < m :: members[m].num < members[k].num
  {
    if i == 1 then 0
    else
      var m := Poorest(members, i - 1);
      if members[i - 1].num < members[m].num then i - 1 else m
  }

  /** Entry j goes to member m. */
  function Give(sh: Shared, j: nat, m: nat): (r: Shared)
    requires j < |sh.table| && m < |sh.members|
    ensures |r.table| == |sh.table| && |r.members| == |sh.members|
  {
    Shared(sh.table[j := Entry(sh.table[j].pseudo, sh.members[m].addr, CLAIMED)],
           sh.members[m := sh.members[m].(num := sh.members[m].num + 1)])
  }

  function GiveUnclaimed(sh: Shared, j: nat): (r: Shared)
    requires j < |sh.table| && |sh.members| >= 1
    ensures |r.table| == |sh.table| && |r.members| == |sh.members|
  {
    if sh.table[j].prio == UNCLAIMED then Give(sh, j, Poorest(sh.members, |sh.members|)) else sh
  }

  function ShareUnclaimed(sh: Shared, i: nat): (r: Shared)
    requires i <= |sh.table| && |sh.members| >= 1
    ensures |r.table| == |sh.table| && |r.members| == |sh.members|
  {
    if i == 0 then sh else GiveUnclaimed(ShareUnclaimed(sh, i - 1), i - 1)
  }

  function TakeUnclaimed(lo: Local, index: nat, sh: Shared, j: nat): (r: Local)
    requires j < |sh.table| && |sh.members| >= 1
    ensures r.prior == lo.prior
  {
    if sh.table[j].prio == UNCLAIMED && index == Poorest(sh.members, |sh.members|) then Acquire(lo, j) else lo
  }

  function LocalUnclaimed(lo: Local, index: nat, sh: Shared, i: nat): (r: Local)
    requires i <= |sh.table| && |sh.members| >= 1
    ensures r.prior == lo.prior
  {
    if i == 0 then lo
    else TakeUnclaimed(LocalUnclaimed(lo, index, sh, i - 1), index, ShareUnclaimed(sh, i - 1), i - 1)
  }

  function ClaimUnclaimed(st: NodeState): (r: NodeState)
    requires |st.shared.members| >= 1
    ensures |r.shared.table| == |st.shared.table| && |r.shared.members| == |st.shared.members|
    ensures r.local.prior == st.local.prior
  {
    var n := |st.shared.table|;
    st.(shared := ShareUnclaimed(st.shared, n), local := LocalUnclaimed(st.local, st.index, st.shared, n))
  }

  // ----- the event handlers -----

  predicate Sized(st: NodeState) {
    |st.shared.table| == |st.local.prior| && |st.shared.members| >= 1
  }

  function HandleMature(st: NodeState): (r: NodeState)
    requires Sized(st)
    ensures Sized(r)
  {
    if st.maturity then st
    else
      var s := st.(maturity := true);
      if s.phase == GATHER then s else ClaimUnclaimed(PriorityClaim(s)).(phase := RUN)
  }

  function HandleState(st: NodeState, m: StateMsg): (r: NodeState)
    requires Sized(st) && (m.gid == st.gid ==> m.index < |st.shared.members|)
    ensures Sized(r)
  {
    if m.gid != st.gid then st
    else
      var s1 := st.(shared := ShareMsg(st.shared, m), local := LocalMsg(st.local, st.me, st.shared, m));
      var s2 := if m.mature then HandleMature(s1) else s1;
      var s3 := s2.(pending := s2.pending - 1);
      if s3.pending != 0 then s3
      else if s3.maturity then ClaimUnclaimed(PriorityClaim(s3)).(phase := RUN)
      else s3.(phase := BOOT)
  }

  function ShareMove(sh: Shared, mv: Move): (r: Shared)
    ensures |r.table| == |sh.table| && |r.members| == |sh.members|
  {
    var j := Find(sh.table, mv.pseudo);
    if j == |sh.table| then sh
    else Shared(sh.table[j := sh.table[j].(owner := mv.target)],
                Recredit(sh.members, sh.table[j].owner, mv.target))
  }

  function LocalMove(lo: Local, me: Address, table: seq<Entry>, mv: Move): (r: Local)
    ensures r.prior == lo.prior
  {
    var j := Find(table, mv.pseudo);
    if j == |table| then lo
    else
      var r := if me == mv.target then Acquire(lo, j) else lo;
      if me == table[j].owner then Release(r, j) else r
  }

  function ShareMoves(sh: Shared, moves: seq<Move>): (r: Shared)
    ensures |r.table| == |sh.table| && |r.members| == |sh.members|
  {
    if moves == [] then sh else ShareMove(ShareMoves(sh, moves[..|moves| - 1]), moves[|moves| - 1])
  }

  function LocalMoves(lo: Local, me: Address, sh: Shared, moves: seq<Move>): (r: Local)
    ensures r.prior == lo.prior
  {
    if moves == [] then lo
    else
      var n := |moves| - 1;
      LocalMove(LocalMoves(lo, me, sh, moves[..n]), me, ShareMoves(sh, moves[..n]).table, moves[n])
  }

  function HandleBalance(st: NodeState, moves: seq<Move>): (r: NodeState)
    requires Sized(st)
    ensures Sized(r)
  {
    if st.phase != RUN then st
    else st.(shared := ShareMoves(st.shared, moves), local := LocalMoves(st.local, st.me, st.shared, moves))
  }

  function Blank(table: seq<Entry>): (r: seq<Entry>)
    ensures |r| == |table|
    ensures forall j | 0 <= j < |r| :: r[j] == Entry(table[j].pseudo, 0, UNCLAIMED)
  {
    if table == [] then []
    else Blank(table[..|table| - 1]) + [Entry(table[|table| - 1].pseudo, 0, UNCLAIMED)]
  }

  function NoMembers(n: nat): (r: seq<Member>)
    ensures |r| == n && forall k | 0 <= k < n :: r[k] == Member(0, 0, false)
  {
    if n == 0 then [] else NoMembers(n - 1) + [Member(0, 0, false)]
  }

  /** A membership notification: n members, this node at position index. */
  function HandleMembership(st: NodeState, gid: int, n: nat, index: nat): (r: NodeState)
    requires |st.shared.table| == |st.local.prior| && index < n
    ensures Sized(r)
  {
    var prior := if st.phase != GATHER && st.phase != BOOT then st.shared.table else st.local.prior;
    st.(phase := GATHER, gid := gid, index := index, pending := n,
        shared := Shared(Blank(st.shared.table), NoMembers(n)),
        local := st.local.(prior := prior, downs := multiset{}))
  }

  /** The claims of a STATE message: the old-table entries that the sender owns. */
  function OwnClaims(prior: seq<Entry>, me: Address): seq<Claim> {
    if prior == [] then []
    else
      var e := prior[|prior| - 1];
      OwnClaims(prior[..|prior| - 1], me) + (if e.owner == me then [Claim(e.pseudo, e.prio)] else [])
  }

  function MakeState(st: NodeState): StateMsg {
    StateMsg(st.gid, st.me, st.index, st.maturity, OwnClaims(st.local.prior, st.me), st.prefs)
  }

  function Disown(table: seq<Entry>): (r: seq<Entry>)
    ensures |r| == |table|
    ensures forall j | 0 <= j < |r| :: r[j] == table[j].(owner := 0)
  {
    if table == [] then [] else Disown(table[..|table| - 1]) + [table[|table| - 1].(owner := 0)]
  }

  /** Losing the connection to Spread: everything is taken down and the node starts over. */
  function Reconnect(st: NodeState): (r: NodeState)
    requires |st.shared.table| == |st.local.prior|
    ensures |r.shared.table| == |r.local.prior|
  {
    st.(phase := BOOT, maturity := false, oldMaturity := false,
        shared := st.shared.(table := Disown(st.shared.table)),
        local := Local(Disown(st.local.prior), {}, 0, multiset{}))
  }

  function Step(st: NodeState, ev: Event): (r: NodeState)
    requires Sized(st)
    requires ev.State? && ev.msg.gid == st.gid ==> ev.msg.index < |st.shared.members|
    ensures Sized(r)
  {
    match ev
    case State(m) => HandleState(st, m)
    case Maturing => HandleMature(st)
    case Rebalance(moves) => HandleBalance(st, moves)
  }
}
