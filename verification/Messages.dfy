/** The bytes of the STATE and BALANCE messages: what Send_state_message and Balance put
    into the buffer, and what Handle_state and Handle_balance read out of it. */
module Messages {
  import opened Tables
  import opened Protocol
  import opened Bytes
  import opened Handout
  import opened Moves
  import opened Balancing

  const MAX_MESS_LEN := 100000

  // ----- STATE -----

  /** A group id: three words. */
  function GidWords(gid: int): (r: seq<Word>)
    requires 0 <= gid < 0x1_0000_0000_0000_0000_0000_0000
    ensures |r| == 3 && JoinGid(r[0], r[1], r[2]) == gid
  {
    GidParts(gid);
    [gid / 0x1_0000_0000_0000_0000, gid / 0x1_0000_0000 % 0x1_0000_0000, gid % 0x1_0000_0000]
  }

  lemma GidParts(gid: int)
    requires 0 <= gid < 0x1_0000_0000_0000_0000_0000_0000
    ensures 0 <= gid / 0x1_0000_0000_0000_0000 < 0x1_0000_0000
    ensures gid / 0x1_0000_0000 == gid / 0x1_0000_0000_0000_0000 * 0x1_0000_0000 + gid / 0x1_0000_0000 % 0x1_0000_0000
    ensures gid == gid / 0x1_0000_0000 * 0x1_0000_0000 + gid % 0x1_0000_0000
  {}

  function JoinGid(a: Word, b: Word, c: Word): int {
    a * 0x1_0000_0000_0000_0000 + b * 0x1_0000_0000 + c
  }

  /** What a STATE message can carry: every integer fits its field. */
  predicate Sendable(m: StateMsg) {
    && 0 <= m.gid < 0x1_0000_0000_0000_0000_0000_0000 && Small(m.index) && Small(|m.claims|) && Small(|m.prefs|)
    && forall i | 0 <= i < |m.claims| :: Small(m.claims[i].prio)
  }

  function ClaimWords(claims: seq<Claim>): (r: seq<Word>)
    requires forall i | 0 <= i < |claims| :: Small(claims[i].prio)
    ensures |r| == 2 * |claims|
  {
    if claims == [] then []
    else
      var n := |claims| - 1;
      ClaimWords(claims[..n]) + [claims[n].pseudo, Unsigned(claims[n].prio)]
  }

  /** The words of the message up to the claims; num is the sender's own count. */
  function Head(m: StateMsg, num: int): (r: seq<Word>)
    requires Sendable(m) && Small(num)
    ensures |r| == 7
  {
    GidWords(m.gid) + [m.sender, m.index, if m.mature then 1 else 0, Unsigned(num)]
  }

  function StateWords(m: StateMsg, num: int): (r: seq<Word>)
    requires Sendable(m) && Small(num)
    ensures |r| == 8 + 2 * |m.claims| + |m.prefs|
  {
    Head(m, num) + ClaimWords(m.claims) + [|m.prefs|] + m.prefs
  }

  /** A received STATE message: the announced count and the message read with it. */
  datatype Received = Received(num: int, msg: StateMsg)

  function Times(count: int): nat { if count < 0 then 0 else count }

  function ReadClaims(ws: seq<Word>, n: nat): (r: seq<Claim>)
    requires 7 + 2 * n <= |ws|
    ensures |r| == n
  {
    seq(n, i requires 0 <= i < n => Claim(ws[7 + 2 * i], Signed(ws[8 + 2 * i])))
  }

  /** Handle_state's reading of the words of the message; None if it would read past them. */
  function ParseState(ws: seq<Word>): (r: Option<Received>)
    ensures r.Some? ==> |r.value.msg.claims| == Times(r.value.num)
  {
    if |ws| < 7 then None
    else
      var num := Signed(ws[6]);
      var n := Times(num);
      if |ws| < 8 + 2 * n then None
      else
        var p := Times(Signed(ws[7 + 2 * n]));
        if |ws| < 8 + 2 * n + p then None
        else
          Some(Received(num, StateMsg(JoinGid(ws[0], ws[1], ws[2]), ws[3], ws[4], ws[5] == 1,
                                      ReadClaims(ws, n), ws[8 + 2 * n..8 + 2 * n + p])))
  }

  function ReadState(o: Order, b: seq<Byte>): Option<Received> { ParseState(Words(o, b)) }

  lemma HeadReadBack(m: StateMsg, num: int)
    requires Sendable(m) && Small(num)
    ensures var ws := StateWords(m, num);
      && JoinGid(ws[0], ws[1], ws[2]) == m.gid && ws[3] == m.sender && ws[4] == m.index && (ws[5] == 1 <==> m.mature)
      && ws[6] == Unsigned(num)
  {
    var (ws, h, g) := (StateWords(m, num), Head(m, num), GidWords(m.gid));
    assert forall k | 0 <= k < 7 :: ws[k] == h[k];
    assert forall k | 0 <= k < 3 :: h[k] == g[k];
  }

  lemma ClaimsReadBack(m: StateMsg, num: int)
    requires Sendable(m) && Small(num)
    ensures ReadClaims(StateWords(m, num), |m.claims|) == m.claims
  {
    var (ws, cw) := (StateWords(m, num), ClaimWords(m.claims));
    forall i | 0 <= i < |m.claims| ensures ReadClaims(ws, |m.claims|)[i] == m.claims[i] {
      assert ws[7 + 2 * i] == cw[2 * i] && ws[8 + 2 * i] == cw[2 * i + 1];
      ClaimWordsAt(m.claims, i);
    }
  }

  lemma {:induction false} ClaimWordsAt(claims: seq<Claim>, i: nat)
    requires i < |claims| && forall i | 0 <= i < |claims| :: Small(claims[i].prio)
    ensures var r := ClaimWords(claims);
      Small(claims[i].prio) && r[2 * i] == claims[i].pseudo && r[2 * i + 1] == Unsigned(claims[i].prio)
  {
    if i < |claims| - 1 { ClaimWordsAt(claims[..|claims| - 1], i); }
  }

  lemma PrefsReadBack(m: StateMsg, num: int)
    requires Sendable(m) && Small(num)
    ensures var (ws, n, p) := (StateWords(m, num), |m.claims|, |m.prefs|);
      ws[7 + 2 * n] == p && ws[8 + 2 * n..8 + 2 * n + p] == m.prefs
  {}

  /** Where everything lies in a STATE message, in words of four bytes: group id, sender, index,
      maturity, count; an address and a priority for each claim; the number of preferences and
      the preferences. */
  lemma StateLayout(o: Order, m: StateMsg, num: int, b: seq<Byte>, i: nat, k: nat)
    requires Sendable(m) && Small(num) && b == Layout(o, StateWords(m, num)) && i <= |m.claims| && k <= |m.prefs|
    ensures var (w, n) := (Words(o, b), |m.claims|);
      && |b| == 4 * |w| == 4 * (8 + 2 * n + |m.prefs|)
      && w[0] as int * 0x1_0000_0000_0000_0000 + w[1] as int * 0x1_0000_0000 + w[2] as int == m.gid
      && w[3] == m.sender && w[4] == m.index
      && w[5] == (if m.mature then 1 else 0) && Signed(w[6]) == num && w[7 + 2 * n] == |m.prefs|
      && (i < n ==> w[7 + 2 * i] == m.claims[i].pseudo && Signed(w[8 + 2 * i]) == m.claims[i].prio)
      && (k < |m.prefs| ==> w[8 + 2 * n + k] == m.prefs[k])
  {
    WordsOfLayout(o, StateWords(m, num));
    HeadReadBack(m, num);
    HeadMature(m, num);
    PrefsReadBack(m, num);
    if i < |m.claims| { ClaimLies(m, num, i); }
    if k < |m.prefs| { PrefLies(m, num, k); }
  }

  lemma HeadMature(m: StateMsg, num: int)
    requires Sendable(m) && Small(num)
    ensures StateWords(m, num)[5] == if m.mature then 1 else 0
  {
    assert StateWords(m, num)[5] == Head(m, num)[5];
  }

  lemma ClaimLies(m: StateMsg, num: int, i: nat)
    requires Sendable(m) && Small(num) && i < |m.claims|
    ensures var ws := StateWords(m, num);
      ws[7 + 2 * i] == m.claims[i].pseudo && Signed(ws[8 + 2 * i]) == m.claims[i].prio
  {
    var (ws, cw) := (StateWords(m, num), ClaimWords(m.claims));
    assert ws[7 + 2 * i] == cw[2 * i] && ws[8 + 2 * i] == cw[2 * i + 1];
    ClaimWordsAt(m.claims, i);
  }

  lemma PrefLies(m: StateMsg, num: int, k: nat)
    requires Sendable(m) && Small(num) && k < |m.prefs|
    ensures StateWords(m, num)[8 + 2 * |m.claims| + k] == m.prefs[k]
  {}

  /** If the count the sender writes is the number of claims it writes, the receiver gets
      back exactly the message. */
  lemma StateRoundTrip(o: Order, m: StateMsg)
    requires Sendable(m)
    ensures ReadState(o, Layout(o, StateWords(m, |m.claims|))) == Some(Received(|m.claims|, m))
  {
    WordsOfLayout(o, StateWords(m, |m.claims|));
    WordsReadBack(m);
  }

  lemma WordsReadBack(m: StateMsg)
    requires Sendable(m)
    ensures ParseState(StateWords(m, |m.claims|)) == Some(Received(|m.claims|, m))
  {
    HeadReadBack(m, |m.claims|);
    ClaimsReadBack(m, |m.claims|);
    PrefsReadBack(m, |m.claims|);
    ParsesAs(StateWords(m, |m.claims|), m);
  }

  lemma ParsesAs(ws: seq<Word>, m: StateMsg)
    requires var (n, p) := (|m.claims|, |m.prefs|);
      && Small(n) && Small(p) && |ws| == 8 + 2 * n + p
      && JoinGid(ws[0], ws[1], ws[2]) == m.gid && ws[3] == m.sender && ws[4] == m.index && (ws[5] == 1 <==> m.mature)
      && ws[6] == n && ReadClaims(ws, n) == m.claims && ws[7 + 2 * n] == p && ws[8 + 2 * n..8 + 2 * n + p] == m.prefs
    ensures ParseState(ws) == Some(Received(|m.claims|, m))
  {}

  /** The receiver gets the message and its number of claims back exactly when the sender's
      count agrees with its old table: the condition asserted before sending. */
  lemma StateRoundTripIff(o: Order, m: StateMsg, num: int)
    requires Sendable(m) && Small(num)
    ensures ReadState(o, Layout(o, StateWords(m, num))) == Some(Received(|m.claims|, m)) <==> num == |m.claims|
  {
    if num == |m.claims| {
      StateRoundTrip(o, m);
    } else {
      WordsOfLayout(o, StateWords(m, num));
      HeadReadBack(m, num);
    }
  }

  /** Send_state_message writes the message of the protocol model, within the buffer. */
  method ComposeState(mess: array<Byte>, o: Order, gid: int, me: Address, index: nat, maturity: bool, num: int,
                      oldTable: array<Entry>, prefer: seq<Address>)
    returns (len: nat)
    requires mess.Length == MAX_MESS_LEN && oldTable.Length <= MAX_PSEUDO && |prefer| <= MAX_PSEUDO
    requires Sendable(StateMsg(gid, me, index, maturity, OwnClaims(oldTable[..], me), prefer)) && Small(num)
    modifies mess
    ensures len <= MAX_MESS_LEN
    ensures var m := StateMsg(gid, me, index, maturity, OwnClaims(oldTable[..], me), prefer);
      mess[..len] == Layout(o, StateWords(m, num))
  {
    ghost var claims := OwnClaims(oldTable[..], me);
    ghost var head := Head(StateMsg(gid, me, index, maturity, claims, prefer), num);
    ghost var ws;
    len := AppendWords(mess, o, [], 0, GidWords(gid) + [me, index, if maturity then 1 else 0, Unsigned(num)]);
    assert [] + head == head;
    len, ws := ComposeClaims(mess, o, head, claims, len, me, oldTable);
    len := Append(mess, o, ws, len, |prefer|);
    len := AppendWords(mess, o, ws + [|prefer|], len, prefer);
  }

  /** The loop over the old table. */
  method ComposeClaims(mess: array<Byte>, o: Order, ghost head: seq<Word>, ghost claims: seq<Claim>, at: nat,
                       me: Address, oldTable: array<Entry>)
    returns (len: nat, ghost ws: seq<Word>)
    requires mess.Length == MAX_MESS_LEN && oldTable.Length <= MAX_PSEUDO && claims == OwnClaims(oldTable[..], me)
    requires forall i | 0 <= i < |claims| :: Small(claims[i].prio)
    requires |head| == 7 && at == 28 && mess[..at] == Layout(o, head)
    modifies mess
    ensures ws == head + ClaimWords(claims) && len == 4 * |ws| <= 28 + 8 * MAX_PSEUDO && mess[..len] == Layout(o, ws)
  {
    len := at;
    var i := 0;
    ghost var n := 0;
    assert head + ClaimWords(claims[..0]) == head;
    while i < oldTable.Length
      invariant i <= oldTable.Length && n <= i && n <= |claims| && OwnClaims(oldTable[..i], me) == claims[..n]
      invariant len == 28 + 8 * n && mess[..len] == Layout(o, head + ClaimWords(claims[..n]))
    {
      NextClaim(oldTable[..], me, claims, n, i);
      assert oldTable[..][..i] == oldTable[..i] && oldTable[..][..i + 1] == oldTable[..i + 1];
      var e := oldTable[i];
      if e.owner == me {
        len := AppendClaim(mess, o, head, claims, n, len, e);
        n := n + 1;
      }
      i := i + 1;
    }
    assert oldTable[..i] == oldTable[..] && claims[..n] == claims;
    ws := head + ClaimWords(claims);
  }

  method AppendClaim(mess: array<Byte>, o: Order, ghost head: seq<Word>, ghost claims: seq<Claim>, ghost n: nat,
          at: nat, e: Entry)
    returns (next: nat)
    requires mess.Length == MAX_MESS_LEN && |head| == 7 && n < |claims| && at == 28 + 8 * n && at + 8 <= MAX_MESS_LEN
    requires (forall i | 0 <= i < |claims| :: Small(claims[i].prio)) && claims[n] == Claim(e.pseudo, e.prio)
    requires mess[..at] == Layout(o, head + ClaimWords(claims[..n]))
    modifies mess
    ensures next == at + 8 && mess[..next] == Layout(o, head + ClaimWords(claims[..n + 1]))
  {
    ghost var ws := head + ClaimWords(claims[..n]);
    assert Small(claims[n].prio);
    next := Append(mess, o, ws, at, e.pseudo);
    next := Append(mess, o, ws + [e.pseudo], next, Unsigned(e.prio));
    ClaimWordsOne(claims, n);
    assert ws + [e.pseudo] + [Unsigned(e.prio)] == head + ClaimWords(claims[..n + 1]);
  }

  method AppendWords(mess: array<Byte>, o: Order, ghost before: seq<Word>, at: nat, words: seq<Word>) returns (len: nat)
    requires at == 4 * |before| && at + 4 * |words| <= mess.Length && mess[..at] == Layout(o, before)
    modifies mess
    ensures len == at + 4 * |words| && mess[..len] == Layout(o, before + words)
  {
    len := at;
    var i := 0;
    ghost var ws := before;
    assert words[..0] == [];
    while i < |words|
      invariant i <= |words| && len == at + 4 * i == 4 * |ws| && ws == before + words[..i]
      invariant mess[..len] == Layout(o, ws)
    {
      OneMoreWord(before, words, i);
      len := Append(mess, o, ws, len, words[i]);
      ws := ws + [words[i]];
      i := i + 1;
    }
    assert words[..i] == words;
  }

  lemma OneMoreWord(before: seq<Word>, words: seq<Word>, i: nat)
    requires i < |words|
    ensures before + words[..i] + [words[i]] == before + words[..i + 1]
  {}

  lemma ClaimWordsOne(claims: seq<Claim>, n: nat)
    requires n < |claims| && forall i | 0 <= i < |claims| :: Small(claims[i].prio)
    ensures Small(claims[n].prio)
      && ClaimWords(claims[..n + 1]) == ClaimWords(claims[..n]) + [claims[n].pseudo, Unsigned(claims[n].prio)]
  {
    assert claims[..n + 1][..n] == claims[..n];
  }

  /** The claims of one more entry. */
  lemma NextClaim(prior: seq<Entry>, me: Address, claims: seq<Claim>, n: nat, i: nat)
    requires i < |prior| && n <= |claims| && claims == OwnClaims(prior, me) && OwnClaims(prior[..i], me) == claims[..n]
    ensures prior[i].owner == me ==> n < |claims| && claims[n] == Claim(prior[i].pseudo, prior[i].prio)
    ensures OwnClaims(prior[..i + 1], me) == if prior[i].owner == me then claims[..n + 1] else claims[..n]
  {
    assert prior[..i + 1][..i] == prior[..i];
    ClaimsGrow(prior, me, i + 1);
    var next := OwnClaims(prior[..i + 1], me);
    if prior[i].owner == me {
      assert next == claims[..n] + [Claim(prior[i].pseudo, prior[i].prio)];
      assert claims[n] == next[n];
    }
  }

  lemma {:induction false} ClaimsGrow(prior: seq<Entry>, me: Address, i: nat)
    requires i <= |prior|
    ensures OwnClaims(prior[..i], me) <= OwnClaims(prior, me)
    decreases |prior|
  {
    if i == |prior| {
      assert prior[..i] == prior;
    } else {
      var n := |prior| - 1;
      assert prior[..n][..i] == prior[..i];
      ClaimsGrow(prior[..n], me, i);
    }
  }

  method FetchWord(mess: array<Byte>, o: Order, len: nat, k: nat, ghost ws: seq<Word>) returns (w: Word)
    requires len <= mess.Length && k < len / 4 && ws == Words(o, mess[..len])
    ensures w == ws[k]
  {
    assert mess[4 * k..4 * k + 4] == mess[..len][4 * k..4 * k + 4];
    w := Get(o, mess[4 * k..4 * k + 4]);
  }

  lemma ParsesTo(ws: seq<Word>, n: nat, p: nat, claims: seq<Claim>, prefs: seq<Address>, r: Received)
    requires 7 < |ws| && n == Times(Signed(ws[6])) && 8 + 2 * n <= |ws| && claims == ReadClaims(ws, n)
    requires p == Times(Signed(ws[7 + 2 * n])) && 8 + 2 * n + p <= |ws| && prefs == ws[8 + 2 * n..8 + 2 * n + p]
    requires r.num == Signed(ws[6]) && r.msg.gid == JoinGid(ws[0], ws[1], ws[2]) && r.msg.sender == ws[3]
    requires r.msg.index == ws[4] && r.msg.mature == (ws[5] == 1) && r.msg.claims == claims && r.msg.prefs == prefs
    ensures ParseState(ws) == Some(r)
  {}

  lemma ParsesToNothing(ws: seq<Word>)
    requires
      || |ws| < 7
      || |ws| < 8 + 2 * Times(Signed(ws[6]))
      || |ws| < 8 + 2 * Times(Signed(ws[6])) + Times(Signed(ws[7 + 2 * Times(Signed(ws[6]))]))
    ensures ParseState(ws) == None
  {}

  /** The first loop of Handle_state, as far as it reads the message. */
  method FetchClaims(mess: array<Byte>, o: Order, len: nat, n: nat, ghost ws: seq<Word>) returns (claims: seq<Claim>)
    requires len <= mess.Length && 7 + 2 * n <= len / 4 && ws == Words(o, mess[..len])
    ensures claims == ReadClaims(ws, n)
  {
    claims := [];
    var i := 0;
    while i < n
      invariant i <= n && claims == ReadClaims(ws, n)[..i]
    {
      var pseudo := FetchWord(mess, o, len, 7 + 2 * i, ws);
      var prio := FetchWord(mess, o, len, 8 + 2 * i, ws);
      claims := claims + [Claim(pseudo, Signed(prio))];
      i := i + 1;
    }
  }

  /** The second loop of Handle_state, as far as it reads the message. */
  method FetchAddresses(mess: array<Byte>, o: Order, len: nat, start: nat, p: nat, ghost ws: seq<Word>)
    returns (prefs: seq<Address>)
    requires len <= mess.Length && start + p <= len / 4 && ws == Words(o, mess[..len])
    ensures prefs == ws[start..start + p]
  {
    prefs := [];
    var i := 0;
    while i < p
      invariant i <= p && prefs == ws[start..start + i]
    {
      var w := FetchWord(mess, o, len, start + i, ws);
      prefs := prefs + [w];
      i := i + 1;
    }
  }

  /** What any buffer that is long enough says: negative numbers of claims or preferences count
      as none. */
  lemma ReadsAny(o: Order, b: seq<Byte>, i: nat, k: nat)
    ensures var (w, r) := (Words(o, b), ReadState(o, b));
      r.Some? ==> var m := r.value.msg;
        && |w| >= 8 + 2 * |m.claims| + |m.prefs| && r.value.num == Signed(w[6])
        && |m.claims| == (if r.value.num > 0 then r.value.num else 0)
        && |m.prefs| == (if Signed(w[7 + 2 * |m.claims|]) > 0 then Signed(w[7 + 2 * |m.claims|]) else 0)
        && m.sender == w[3] && m.index == w[4] && (m.mature <==> w[5] == 1)
        && (i < |m.claims| ==> m.claims[i] == Claim(w[7 + 2 * i], Signed(w[8 + 2 * i])))
        && (k < |m.prefs| ==> m.prefs[k] == w[8 + 2 * |m.claims| + k])
  {}

  /** Handle_state's reading of a received buffer. */
  method FetchState(mess: array<Byte>, o: Order, len: nat) returns (r: Option<Received>)
    requires len <= mess.Length
    ensures r == ReadState(o, mess[..len])
  {
    ghost var ws := Words(o, mess[..len]);
    assert ReadState(o, mess[..len]) == ParseState(ws);
    if len < 28 { ParsesToNothing(ws); return None; }
    var a := FetchWord(mess, o, len, 0, ws);
    var b := FetchWord(mess, o, len, 1, ws);
    var c := FetchWord(mess, o, len, 2, ws);
    var sender := FetchWord(mess, o, len, 3, ws);
    var index := FetchWord(mess, o, len, 4, ws);
    var mature := FetchWord(mess, o, len, 5, ws);
    var count := FetchWord(mess, o, len, 6, ws);
    r := FetchLists(mess, o, len, JoinGid(a, b, c), sender, index, mature == 1, Signed(count), ws);
  }

  /** The rest of it: the two lists and their lengths. */
  method FetchLists(mess: array<Byte>, o: Order, len: nat, gid: int, sender: Address, index: nat, mature: bool,
                    num: int, ghost ws: seq<Word>)
    returns (r: Option<Received>)
    requires len <= mess.Length && ws == Words(o, mess[..len]) && |ws| >= 7
    requires gid == JoinGid(ws[0], ws[1], ws[2]) && sender == ws[3] && index == ws[4]
    requires mature == (ws[5] == 1) && num == Signed(ws[6])
    ensures r == ParseState(ws)
  {
    var (words, n) := (len / 4, Times(num));
    assert |ws| == words;
    if words < 8 + 2 * n { ParsesToNothing(ws); return None; }
    var claims := FetchClaims(mess, o, len, n, ws);
    var preferred := FetchWord(mess, o, len, 7 + 2 * n, ws);
    var p := Times(Signed(preferred));
    if words < 8 + 2 * n + p { ParsesToNothing(ws); return None; }
    var prefs := FetchAddresses(mess, o, len, 8 + 2 * n, p, ws);
    r := Some(Received(num, StateMsg(gid, sender, index, mature, claims, prefs)));
    ParsesTo(ws, n, p, claims, prefs, r.value);
  }

  // ----- BALANCE -----

  function MoveWords(moves: seq<Move>): (r: seq<Word>)
    ensures |r| == 2 * |moves|
  {
    if moves == [] then []
    else
      var mv := moves[|moves| - 1];
      MoveWords(moves[..|moves| - 1]) + [mv.target, mv.pseudo]
  }

  function BalanceBytes(o: Order, header: nat, moves: seq<Move>): seq<Byte>
    requires Small(header)
  {
    Layout(o, [header] + MoveWords(moves))
  }

  function ReadPairs(ws: seq<Word>, n: nat): (r: seq<Move>)
    requires 1 + 2 * n <= |ws|
    ensures |r| == n
  {
    seq(n, i requires 0 <= i < n => Move(ws[1 + 2 * i], ws[2 + 2 * i]))
  }

  function ParseMoves(ws: seq<Word>): Option<seq<Move>> {
    if ws == [] then None
    else
      var n := Times(Signed(ws[0]));
      if |ws| < 1 + 2 * n then None
      else Some(ReadPairs(ws, n))
  }

  /** Handle_balance's reading: as many pairs as the header says; None past the message. */
  function ReadMoves(o: Order, b: seq<Byte>): Option<seq<Move>> { ParseMoves(Words(o, b)) }

  /** Where everything lies in a BALANCE message: the header, then for each move the address of
      its target and that of its entry. */
  lemma BalanceLayout(o: Order, header: nat, moves: seq<Move>, i: nat)
    requires Small(header) && i <= |moves|
    ensures var w := Words(o, BalanceBytes(o, header, moves));
      && |BalanceBytes(o, header, moves)| == 4 * |w| == 4 * (1 + 2 * |moves|) && w[0] == header
      && (i < |moves| ==> w[1 + 2 * i] == moves[i].target && w[2 + 2 * i] == moves[i].pseudo)
  {
    var (ws, mw) := ([header] + MoveWords(moves), MoveWords(moves));
    WordsOfLayout(o, ws);
    if i < |moves| {
      assert ws[1 + 2 * i] == mw[2 * i] && ws[2 + 2 * i] == mw[2 * i + 1];
      MoveWordsAt(moves, i);
    }
  }

  /** What is read out of any buffer that is long enough. */
  lemma ReadsAnyMoves(o: Order, b: seq<Byte>, i: nat)
    ensures var (w, r) := (Words(o, b), ReadMoves(o, b));
      r.Some? ==>
        && w != [] && |r.value| == (if Signed(w[0]) > 0 then Signed(w[0]) else 0) && |w| >= 1 + 2 * |r.value|
        && (i < |r.value| ==> r.value[i] == Move(w[1 + 2 * i], w[2 + 2 * i]))
  {}

  /** The moves are read back exactly if the header is their number. */
  lemma BalanceRoundTripIff(o: Order, header: nat, moves: seq<Move>)
    requires Small(header)
    ensures ReadMoves(o, BalanceBytes(o, header, moves)) == Some(moves) <==> header == |moves|
    ensures |BalanceBytes(o, header, moves)| == 4 + 8 * |moves|
  {
    WordsOfLayout(o, [header] + MoveWords(moves));
    if header == |moves| { MovesReadBack(moves); }
  }

  lemma {:induction false} MoveWordsAt(moves: seq<Move>, i: nat)
    requires i < |moves|
    ensures MoveWords(moves)[2 * i] == moves[i].target && MoveWords(moves)[2 * i + 1] == moves[i].pseudo
  {
    if i < |moves| - 1 { MoveWordsAt(moves[..|moves| - 1], i); }
  }

  lemma PairReadBack(ws: seq<Word>, mw: seq<Word>, moves: seq<Move>, i: nat)
    requires i < |moves| && |ws| == 1 + 2 * |moves| && mw == ws[1..]
    requires mw[2 * i] == moves[i].target && mw[2 * i + 1] == moves[i].pseudo
    ensures ReadPairs(ws, |moves|)[i] == moves[i]
  {
    assert ws[1 + 2 * i] == mw[2 * i] && ws[2 + 2 * i] == mw[2 * i + 1];
  }

  lemma PairsReadBack(header: Word, mw: seq<Word>, moves: seq<Move>)
    requires mw == MoveWords(moves)
    ensures ReadPairs([header] + mw, |moves|) == moves
  {
    var ws := [header] + mw;
    assert ws[1..] == mw;
    forall i | 0 <= i < |moves| ensures ReadPairs(ws, |moves|)[i] == moves[i] {
      MoveWordsAt(moves, i);
      PairReadBack(ws, mw, moves, i);
    }
  }

  lemma MovesReadBack(moves: seq<Move>)
    requires Small(|moves|)
    ensures ParseMoves([|moves|] + MoveWords(moves)) == Some(moves)
  {
    PairsReadBack(|moves|, MoveWords(moves), moves);
  }

  /** The bytes of a BALANCE message planned on a table in service, with every entry below
      PREFER: their length is 4 + 8 per move, the receivers read back the planned moves, and
      no move names the entry's present owner. */
  lemma BalanceWellFormed(o: Order, names: seq<Address>, cfg: seq<Address>, sh: Shared, rate: nat)
    requires Serving(names, cfg, sh) && AllMovable(sh.table) && Small(rate) && BalanceMessage(sh, rate).Some?
    ensures var (header, moves) := BalanceMessage(sh, rate).value;
      && Small(header) && |BalanceBytes(o, header, moves)| == 4 + 8 * header
      && ReadMoves(o, BalanceBytes(o, header, moves)) == Some(moves) && GoodMoves(names, sh, moves)
  {
    MessageIsGood(names, cfg, sh, rate);
    var (header, moves) := BalanceMessage(sh, rate).value;
    BalanceRoundTripIff(o, header, moves);
  }
}
