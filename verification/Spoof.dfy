/** Notifying the neighbours of a virtual address that moved (spoofmanager.c): intersections
    of address blocks, and the throttled sweeps over a block and over an ARP cache. */
module Spoof {
  import opened Tables
  import opened Arithmetic

  // ----- bits and masks -----

  function Pow2(k: nat): (p: nat)
    ensures p >= 1
  {
    if k == 0 then 1 else 2 * Pow2(k - 1)
  }

  function And(a: nat, b: nat): nat {
    if a == 0 || b == 0 then 0 else 2 * And(a / 2, b / 2) + a % 2 * (b % 2)
  }

  function Or(a: nat, b: nat): nat {
    if a == 0 then b else if b == 0 then a else 2 * Or(a / 2, b / 2) + (if a % 2 + b % 2 > 0 then 1 else 0)
  }

  function Not(m: Address): Address { 0xffff_ffff - m }

  /** The network mask that leaves k low bits free. */
  function Mask(k: nat): Address
    requires k <= 32
  {
    Pow2Bound(k);
    0x1_0000_0000 - Pow2(k)
  }

  lemma {:induction false} Pow2Sum(j: nat, k: nat)
    ensures Pow2(j + k) == Pow2(j) * Pow2(k)
  {
    if j > 0 { Pow2Sum(j - 1, k); }
  }

  lemma Pow2Is()
    ensures Pow2(32) == 0x1_0000_0000
  {
    assert Pow2(2) == 4;
    Pow2Sum(2, 2);
    Pow2Sum(4, 4);
    Pow2Sum(8, 8);
    Pow2Sum(16, 16);
  }

  lemma Pow2Bound(k: nat)
    requires k <= 32
    ensures 1 <= Pow2(k) <= 0x1_0000_0000
  {
    Pow2Is();
    Pow2Sum(k, 32 - k);
    assert Pow2(k) * 1 <= Pow2(k) * Pow2(32 - k);
  }

  lemma Halve(a: nat, p: nat)
    requires p > 0
    ensures a % (2 * p) == 2 * (a / 2 % p) + a % 2
  {
    var (h, b) := (a / 2, a % 2);
    var (q, r) := (h / p, h % p);
    assert a == 2 * p * q + (2 * r + b);
    DivMod(a, 2 * p, q, 2 * r + b);
  }

  lemma AndEven(a: nat, b: nat)
    ensures And(a, 2 * b) == 2 * And(a / 2, b)
  {
    DivMod(2 * b, 2, b, 0);
  }

  lemma AndOdd(a: nat, b: nat)
    ensures And(a, 2 * b + 1) == 2 * And(a / 2, b) + a % 2
  {
    DivMod(2 * b + 1, 2, b, 1);
  }

  lemma ClearedHalf(a: nat, p: nat)
    requires p > 0
    ensures 2 * (a / 2 - a / 2 % p) == a - a % (2 * p)
  {
    Halve(a, p);
  }

  /** Masking clears the low bits. */
  lemma {:induction false} AndClears(a: nat, n: nat, k: nat)
    requires k <= n && a < Pow2(n)
    ensures Pow2(k) <= Pow2(n) && And(a, Pow2(n) - Pow2(k)) == a - a % Pow2(k)
  {
    if n > 0 && k > 0 {
      AndClears(a / 2, n - 1, k - 1);
      var (p, m) := (Pow2(k - 1), Pow2(n - 1));
      AndEven(a, m - p);
      assert 2 * (m - p) == Pow2(n) - Pow2(k);
      ClearedHalf(a, p);
    } else if n > 0 {
      AndClears(a / 2, n - 1, 0);
      AndOdd(a, Pow2(n - 1) - 1);
    }
  }

  /** Or-ing with the complement of the mask sets them. */
  lemma {:induction false} OrSets(a: nat, k: nat)
    ensures Or(a, Pow2(k) - 1) == a - a % Pow2(k) + (Pow2(k) - 1)
  {
    if k > 0 {
      OrSets(a / 2, k - 1);
      Halve(a, Pow2(k - 1));
      var b := Pow2(k) - 1;
      assert b / 2 == Pow2(k - 1) - 1 && b % 2 == 1;
      if a == 0 { DivMod(0, Pow2(k), 0, 0); }
    }
  }

  // ----- blocks -----

  /** The first and the last address of the block of size Pow2(k) around ip. */
  function First(ip: Address, k: nat): int { ip - ip % Pow2(k) }

  function Last(ip: Address, k: nat): int { First(ip, k) + Pow2(k) - 1 }

  lemma RoundedDown(a: int, p: int, r: int)
    requires p > 0 && 0 <= a < p * r
    ensures 0 <= a - a % p <= a <= a - a % p + p - 1 < p * r
  {
    var q := a / p;
    assert a == p * q + a % p;
    AtLeastNext(p, q, r);
  }

  lemma BlockBounds(ip: Address, k: nat)
    requires k <= 32
    ensures And(ip, Mask(k)) == First(ip, k) && Or(ip, Not(Mask(k))) == Last(ip, k)
    ensures 0 <= First(ip, k) <= ip <= Last(ip, k) < 0x1_0000_0000
  {
    Pow2Is();
    Pow2Bound(k);
    AndClears(ip, 32, k);
    OrSets(ip, k);
    Pow2Sum(k, 32 - k);
    RoundedDown(ip, Pow2(k), Pow2(32 - k));
  }

  lemma Multiple(a: int, p: int)
    requires p > 0
    ensures a - a % p == p * (a / p)
  {}

  /** Multiples of p: either s is below the range from u, or behind it, or inside. */
  lemma MultiplesNest(p: int, s: int, u: int, m: int, w: int)
    requires p > 0 && w == p * m
    ensures p * s + p <= p * u || p * u + w <= p * s || (p * u <= p * s && p * s + p <= p * u + w)
  {
    Distribute(p, u, m);
    if p * s < p * u { AtLeastNext(p, s, u); }
    if p * s < p * (u + m) { AtLeastNext(p, s, u + m); }
  }

  /** Two blocks are disjoint or the smaller lies in the larger. */
  lemma BlocksNest(a: Address, k: nat, b: Address, l: nat)
    requires k <= l <= 32
    ensures
      || Last(a, k) < First(b, l)
      || Last(b, l) < First(a, k)
      || (First(b, l) <= First(a, k) && Last(a, k) <= Last(b, l))
  {
    var (p, m, w) := (Pow2(k), Pow2(l - k), Pow2(l));
    Pow2Sum(k, l - k);
    Multiple(a, p);
    Multiple(b, w);
    var (s, t) := (a / p, b / w);
    Associate(p, m, t);
    MultiplesNest(p, s, m * t, m, w);
  }

  /** A block holds the addresses that share the network part. */
  lemma InBlockIff(ip: Address, k: nat, x: Address)
    ensures First(ip, k) <= x <= Last(ip, k) <==> x / Pow2(k) == ip / Pow2(k)
  {
    var p := Pow2(k);
    Multiple(ip, p);
    Multiple(x, p);
    if First(ip, k) <= x <= Last(ip, k) { DivMod(x, p, ip / p, x - First(ip, k)); }
  }

  /** The fields of struct interface that matter here; `network` holds a mask as well. */
  datatype Iface = Iface(name: string, ip: Address, netmask: Address, network: Address)

  function Max(a: int, b: int): int { if a > b then a else b }
  function Min(a: int, b: int): int { if a < b then a else b }

  /** How many addresses the virtual interface's network and a destination have in common;
      the network has k free bits, the destination l. */
  function Common(i1: Iface, k: nat, i2: Iface, l: nat): int {
    var n := Min(Last(i1.ip, k), Last(i2.ip, l)) - Max(First(i1.ip, k), First(i2.ip, l)) + 1;
    if n < 0 then 0 else n
  }

  /** An address shares the network part with both exactly if it is one of so many, from the
      later of the two first addresses on. */
  lemma CommonIs(i1: Iface, k: nat, i2: Iface, l: nat, x: Address)
    ensures x / Pow2(k) == i1.ip / Pow2(k) && x / Pow2(l) == i2.ip / Pow2(l)
      <==> 0 <= x - Max(First(i1.ip, k), First(i2.ip, l)) < Common(i1, k, i2, l)
  {
    InBlockIff(i1.ip, k, x);
    InBlockIff(i2.ip, l, x);
  }

  /** The intersection is empty or the smaller of the two blocks. */
  lemma CommonIsSmaller(i1: Iface, k: nat, i2: Iface, l: nat)
    requires k <= 32 && l <= 32
    ensures Common(i1, k, i2, l) == 0 || Common(i1, k, i2, l) == Pow2(if k < l then k else l)
    ensures Common(i1, k, i2, l) > 0 ==>
      Max(First(i1.ip, k), First(i2.ip, l)) == (if k < l then First(i1.ip, k) else First(i2.ip, l))
  {
    BlockBounds(i1.ip, k);
    BlockBounds(i2.ip, l);
    if k <= l {
      BlocksNest(i1.ip, k, i2.ip, l);
      if k == l { BlocksNest(i2.ip, l, i1.ip, k); }
    } else {
      BlocksNest(i2.ip, l, i1.ip, k);
    }
  }

  /** calc_new_cidr: the size of the intersection as an unsigned 32-bit integer, and, unless
      it is empty, its first address; the name is copied only then. */
  method CalcNewCidr(i1: Iface, i2: Iface, out: Iface, ghost k: nat, ghost l: nat) returns (size: Address, r: Iface)
    requires k <= 32 && l <= 32 && i1.network == Mask(k) && i2.netmask == Mask(l)
    ensures size == Common(i1, k, i2, l) % 0x1_0000_0000
    ensures Common(i1, k, i2, l) == 0 ==> r == out
    ensures Common(i1, k, i2, l) > 0 ==> r.name == i1.name && r.ip == Max(First(i1.ip, k), First(i2.ip, l))
  {
    BlockBounds(i1.ip, k);
    BlockBounds(i2.ip, l);
    var s1, e1 := And(i1.ip, i1.network), Or(i1.ip, Not(i1.network));
    var s2, e2 := And(i2.ip, i2.netmask), Or(i2.ip, Not(i2.netmask));
    s1 := Max(s1, s2);
    e1 := Min(e1, e2);
    if e1 < s1 { return 0, out; }
    r := out.(ip := s1, name := i1.name);
    size := (e1 - s1 + 1) % 0x1_0000_0000;
  }

  // ----- the sweep over a block -----

  /** A notification: its destination block and how many requests a round may send, 0 for
      no limit. */
  datatype Notification = Notification(destination: Iface, throttle: nat)

  function Range(first: int, n: nat): (r: seq<int>)
    ensures |r| == n && forall j | 0 <= j < n :: r[j] == first + j
  {
    seq(n, j => first + j)
  }

  /** What a round may send out of `left`. */
  function Quota(left: nat, throttle: nat): (q: nat)
    ensures q <= left && (q == 0 <==> left == 0)
  {
    if throttle == 0 || left < throttle then left else throttle
  }

  /** How many rounds it takes to send n requests. */
  function RoundsFor(n: nat, throttle: nat): nat
    decreases n
  {
    if n == 0 then 0 else 1 + RoundsFor(n - Quota(n, throttle), throttle)
  }

  /** Without a limit one round does it. */
  lemma UnlimitedRounds(n: nat)
    ensures RoundsFor(n, 0) == if n > 0 then 1 else 0
  {
    assert RoundsFor(0, 0) == 0;
  }

  /** With a limit it is the quotient rounded up. */
  lemma {:induction false} RoundsAreCeiling(n: nat, throttle: nat)
    requires throttle > 0
    ensures RoundsFor(n, throttle) == (n + throttle - 1) / throttle
    decreases n
  {
    if n == 0 {
      DivMod(throttle - 1, throttle, 0, throttle - 1);
    } else if n < throttle {
      assert RoundsFor(0, throttle) == 0;
      DivMod(n + throttle - 1, throttle, 1, n - 1);
    } else {
      RoundsAreCeiling(n - throttle, throttle);
      assert n - throttle + throttle - 1 == n - 1;
      NextQuotient(n - 1, throttle);
    }
  }

  lemma NextQuotient(a: nat, p: nat)
    requires p > 0
    ensures (a + p) / p == a / p + 1
  {
    var q := a / p;
    assert p * (q + 1) == p * q + p;
    DivMod(a + p, p, q + 1, a % p);
  }

  lemma OneRound(n: nat, throttle: nat, sent: nat)
    requires sent == if throttle > 0 then Min(n, throttle) else n
    ensures sent <= n && (sent == 0 <==> n == 0)
    ensures RoundsFor(n, throttle) == if sent > 0 then 1 + RoundsFor(n - sent, throttle) else 0
  {}

  lemma HowManyRounds(n: nat, throttle: nat, rounds: nat)
    requires rounds == RoundsFor(n, throttle)
    ensures throttle == 0 ==> rounds == if n > 0 then 1 else 0
    ensures throttle > 0 ==> rounds == (n + throttle - 1) / throttle
  {
    if throttle > 0 { RoundsAreCeiling(n, throttle); } else { UnlimitedRounds(n); }
  }

  /** The network of the virtual address, with k free bits, and the destination block, with l,
      meet in a block that an int can count. */
  predicate Sized(vip: Iface, n: Notification, k: nat, l: nat) {
    && k <= 32 && l <= 32 && vip.network == Mask(k) && n.destination.netmask == Mask(l)
    && Common(vip, k, n.destination, l) < 0x8000_0000
  }

  /** One virtual address and one notification: `leftTodo` survives from round to round, and
      `log` records the requests sent. The intersection starts at `first` and has `size`
      addresses. */
  class BlockSweep {
    const vip: Iface
    const n: Notification
    var leftTodo: int
    ghost var log: seq<int>
    ghost const k: nat
    ghost const l: nat
    ghost const first: int
    ghost const size: nat

    constructor (vip: Iface, n: Notification, ghost k: nat, ghost l: nat)
      requires Sized(vip, n, k, l)
      ensures this.vip == vip && this.n == n && leftTodo == -1 && log == [] && Valid() && Underway()
      ensures size == Common(vip, k, n.destination, l) && first == Max(First(vip.ip, k), First(n.destination.ip, l))
    {
      this.vip, this.n, leftTodo, log := vip, n, -1, [];
      this.k, this.l, size := k, l, Common(vip, k, n.destination, l);
      first := Max(First(vip.ip, k), First(n.destination.ip, l));
      new;
      BlockBounds(vip.ip, k);
      BlockBounds(n.destination.ip, l);
    }

    ghost predicate Valid() {
      && Sized(vip, n, k, l) && size == Common(vip, k, n.destination, l)
      && first == Max(First(vip.ip, k), First(n.destination.ip, l))
    }

    /** What remains to be sent. */
    ghost function Left(): int
      reads this
    {
      if leftTodo == -1 then size else leftTodo
    }

    /** The requests sent so far are the first addresses of the intersection. */
    ghost predicate Underway()
      reads this
    {
      && 0 <= Left() <= size && log == Range(first, size - Left())
      && (size > 0 ==> 0 <= first && first + size <= 0x1_0000_0000)
    }

    /** The virtual address lives on the interface that the notification names. */
    predicate Concerned() { vip.name == n.destination.name != "" }

    method Meet(newcidr: Iface) returns (csize: Address, r: Iface)
      requires Valid()
      ensures csize == size && (size > 0 ==> r.ip == first && r.name == vip.name)
    {
      csize, r := CalcNewCidr(vip, n.destination, newcidr, k, l);
    }

    /** send_arp_spoof_netblock; `newcidr` is the uninitialised local variable. Without a limit
        one round leaves nothing to send. */
    method Round(newcidr: Iface) returns (s: int)
      requires Valid() && Underway()
      modifies this
      ensures Underway() && Left() == old(Left()) - s
      ensures vip.name != n.destination.name || vip.name == "" ==> s == 0
      ensures vip.name == n.destination.name != "" && n.throttle == 0 ==> Left() == 0
      ensures vip.name == n.destination.name != "" && n.throttle > 0 ==> s == Min(old(Left()), n.throttle)
    {
      if leftTodo == 0 { return 0; }
      var csize, r := Meet(newcidr);
      s := SendTo(csize, r);
    }

    /** The tests before the loop of send_arp_spoof_netblock. */
    method SendTo(csize: Address, r: Iface) returns (s: int)
      requires Underway() && leftTodo != 0 && csize == size && (size > 0 ==> r.ip == first && r.name == vip.name)
      modifies this
      ensures Underway() && Left() == old(Left()) - s
      ensures vip.name != n.destination.name || vip.name == "" ==> s == 0
      ensures vip.name == n.destination.name != "" ==> s == Quota(old(Left()), n.throttle)
    {
      if vip.name != n.destination.name { return 0; }
      if r.name == "" { return 0; }
      if leftTodo == -1 { leftTodo := csize; }
      s := Send(csize, (r.ip + (csize - leftTodo)) % 0x1_0000_0000);
    }

    /** The loop of send_arp_spoof_netblock. */
    method Send(csize: int, start: int) returns (s: int)
      requires 0 <= leftTodo <= csize && log == Range(first, csize - leftTodo)
      requires leftTodo > 0 ==> 0 <= first && first + csize <= 0x1_0000_0000 && start == first + (csize - leftTodo)
      modifies this
      ensures s == Quota(old(leftTodo), n.throttle) && leftTodo == old(leftTodo) - s
      ensures log == Range(first, csize - leftTodo)
    {
      var ip, c := start, csize - leftTodo;
      s := 0;
      while c < csize && (n.throttle == 0 || s < n.throttle)
        invariant 0 <= leftTodo == old(leftTodo) - s && s >= 0 && c == csize - leftTodo && log == Range(first, c)
        invariant n.throttle > 0 ==> s <= n.throttle
        invariant leftTodo > 0 ==> ip == first + c
        decreases csize - c
      {
        log := log + [ip];
        ip := (ip + 1) % 0x1_0000_0000;
        s := s + 1;
        leftTodo := leftTodo - 1;
        c := c + 1;
      }
    }

    /** The round loop of arp_spoof_notifier: every address of the intersection is notified
        exactly once, in ascending order, and the rounds that send something are as few as
        the limit allows. */
    method Notify(newcidr: Iface) returns (productive: nat)
      requires Valid() && Underway() && leftTodo == -1
      modifies this
      ensures vip.name != n.destination.name || vip.name == "" ==> log == [] && productive == 0
      ensures vip.name == n.destination.name != "" ==> |log| == size && forall i | 0 <= i < size :: log[i] == first + i
      ensures vip.name == n.destination.name != "" && n.throttle == 0 ==> productive == if size > 0 then 1 else 0
      ensures vip.name == n.destination.name != "" && n.throttle > 0 ==>
        productive == (size + n.throttle - 1) / n.throttle
    {
      HowManyRounds(size, n.throttle, RoundsFor(size, n.throttle));
      productive := 0;
      var sent := Round(newcidr);
      while sent != 0
        invariant Underway() && sent >= 0 && (Concerned() && sent == 0 ==> Left() == 0)
        invariant !Concerned() ==> sent == 0 && productive == 0 && log == []
        invariant Concerned() ==>
          productive + (if sent > 0 then 1 else 0) + RoundsFor(Left(), n.throttle) == RoundsFor(size, n.throttle)
        decreases Left() + sent
      {
        productive := productive + 1;
        sent := Round(newcidr);
      }
    }
  }

  // ----- the sweep over an ARP cache -----

  /** The first and the last address of a network. */
  datatype Block = Block(first: int, last: int)

  function BlockOf(ip: Address, k: nat): Block { Block(First(ip, k), Last(ip, k)) }

  /** The entry is in use and lies in the network of the virtual address. */
  predicate Reached(net: Block, a: Arp) { a.ip != 0 && net.first <= a.ip <= net.last }

  /** The entries to notify, in their order. */
  function Matching(net: Block, s: seq<Arp>): seq<Arp> {
    if s == [] then [] else (if Reached(net, s[0]) then [s[0]] else []) + Matching(net, s[1..])
  }

  lemma ReachedIff(vip: Iface, k: nat, a: Arp)
    ensures Reached(BlockOf(vip.ip, k), a) <==> a.ip != 0 && a.ip / Pow2(k) == vip.ip / Pow2(k)
  {
    InBlockIff(vip.ip, k, a.ip);
  }

  /** How many of the first i are good. */
  function Count(good: seq<bool>, i: nat): (c: nat)
    requires i <= |good|
  {
    if i == 0 then 0 else Count(good, i - 1) + if good[i - 1] then 1 else 0
  }

  /** Every good one of the first i entries of s is in r, behind those before it, and no other. */
  predicate Sifted(s: seq<Arp>, good: seq<bool>, i: nat, r: seq<Arp>)
    requires i <= |good| == |s|
  {
    && |r| == Count(good, i)
    && forall j | 0 <= j < i && good[j] :: Count(good, j) < |r| && r[Count(good, j)] == s[j]
  }

  /** The entries to notify are those with an address in the network of the virtual one, in
      their order. */
  lemma {:induction false} MatchingIs(vip: Iface, k: nat, s: seq<Arp>, good: seq<bool>, i: nat)
    requires |good| == |s| && i <= |s|
    requires forall j | 0 <= j < |s| :: good[j] <==> s[j].ip != 0 && s[j].ip / Pow2(k) == vip.ip / Pow2(k)
    ensures Sifted(s, good, i, Matching(BlockOf(vip.ip, k), s[..i]))
  {
    if i > 0 {
      var net := BlockOf(vip.ip, k);
      MatchingIs(vip, k, s, good, i - 1);
      ReachedIff(vip, k, s[i - 1]);
      assert s[..i] == s[..i - 1] + [s[i - 1]];
      MatchingParts(net, s[..i - 1], [s[i - 1]]);
      SiftedOn(s, good, i, Matching(net, s[..i - 1]), Matching(net, [s[i - 1]]));
    }
  }

  lemma SiftedOn(s: seq<Arp>, good: seq<bool>, i: nat, r: seq<Arp>, more: seq<Arp>)
    requires 0 < i <= |good| == |s| && Sifted(s, good, i - 1, r) && more == if good[i - 1] then [s[i - 1]] else []
    ensures Sifted(s, good, i, r + more)
  {}

  /** The entries before the zero terminator. */
  function Used(s: seq<Arp>): (m: nat)
    ensures m <= |s| && (m < |s| ==> s[m].ip == 0) && forall i | 0 <= i < m :: s[i].ip != 0
  {
    if s == [] || s[0].ip == 0 then 0 else 1 + Used(s[1..])
  }

  /** An entry after a sweep over it: sent and zeroed, or as it was. */
  predicate Passed(net: Block, was: Arp, now: Arp) {
    now == was || (Reached(net, was) && now == was.(ip := 0))
  }

  lemma SweptNone(net: Block, was: seq<Arp>)
    ensures Swept(net, was, was, 0, 0) && Matching(net, was)[..0] == []
  {
    assert was[0..] == was && Matching(net, was)[0..] == Matching(net, was) && was[..0] == [];
  }

  /** The first s entries have been passed and c of the entries to notify sent and zeroed. */
  ghost predicate Swept(net: Block, was: seq<Arp>, now: seq<Arp>, s: nat, c: nat) {
    && s <= |was| == |now| && c <= |Matching(net, was)|
    && Matching(net, now[..s]) == [] && Matching(net, was[s..]) == Matching(net, was)[c..]
    && (forall j | 0 <= j < s :: Passed(net, was[j], now[j]))
    && forall j | s <= j < |was| :: now[j] == was[j]
  }

  lemma SweptOne(net: Block, was: seq<Arp>, now: seq<Arp>, next: seq<Arp>, s: nat, c: nat)
    requires Swept(net, was, now, s, c) && s < |was| == |next|
    requires forall j | 0 <= j < |was| && j != s :: next[j] == now[j]
    requires next[s] == if Reached(net, was[s]) then was[s].(ip := 0) else was[s]
    ensures Swept(net, was, next, s + 1, if Reached(net, was[s]) then c + 1 else c)
    ensures Reached(net, was[s]) ==> c < |Matching(net, was)| && Matching(net, was)[c] == was[s]
  {
    var todo := Matching(net, was);
    assert was[s..][0] == was[s] && was[s..][1..] == was[s + 1..];
    if Reached(net, was[s]) {
      assert todo[c..][0] == was[s] && todo[c..][1..] == todo[c + 1..];
    }
    assert next[..s + 1] == now[..s] + [next[s]];
    NothingMore(net, now[..s], next[s]);
  }

  /** What is left to notify. */
  lemma SweptUpTo(net: Block, was: seq<Arp>, now: seq<Arp>, s: nat, c: nat)
    requires Swept(net, was, now, s, c)
    ensures Matching(net, now) == Matching(net, was)[c..]
    ensures s == |was| ==> c == |Matching(net, was)|
  {
    assert now == now[..s] + now[s..] && now[s..] == was[s..];
    MatchingParts(net, now[..s], now[s..]);
    if s == |was| { assert was[s..] == []; }
  }

  predicate AllPassed(net: Block, was: seq<Arp>, now: seq<Arp>) {
    |was| == |now| && forall j | 0 <= j < |was| :: Passed(net, was[j], now[j])
  }

  lemma SweptAll(net: Block, was: seq<Arp>, now: seq<Arp>, n: nat, s: nat, c: nat)
    requires n <= |was| == |now| && Swept(net, was[..n], now[..n], s, c) && was[n..] == now[n..]
    ensures AllPassed(net, was, now)
  {
    forall j | 0 <= j < |was| ensures Passed(net, was[j], now[j]) {
      if j < n {
        assert was[j] == was[..n][j] && now[j] == now[..n][j];
      } else {
        assert was[j] == was[n..][j - n] && now[j] == now[n..][j - n];
      }
    }
  }

  class CacheSweep {
    const vip: Iface
    const throttle: nat
    const ac: array<Arp>
    var count: int
    ghost var log: seq<Arp>

    constructor (vip: Iface, throttle: nat, ac: array<Arp>)
      ensures this.vip == vip && this.throttle == throttle && this.ac == ac && count == -1 && log == []
    {
      this.vip, this.throttle, this.ac, count, log := vip, throttle, ac, -1, [];
    }

    /** The first call counts the entries up to the terminator, which must be there. */
    method CountEntries()
      requires count == -1 && Used(ac[..]) < ac.Length
      modifies this`count
      ensures count == Used(ac[..])
    {
      count := 0;
      assert ac[..][0..] == ac[..];
      while ac[count].ip != 0
        invariant 0 <= count < ac.Length && count + Used(ac[..][count..]) == Used(ac[..])
        decreases ac.Length - count
      {
        assert ac[..][count..][1..] == ac[..][count + 1..];
        count := count + 1;
      }
    }

    /** The entry is delivered for this virtual address exactly if it lies in its network. */
    method Delivers(ip: Address, ghost k: nat) returns (b: bool, dest: Address)
      requires k <= 32 && vip.network == Mask(k)
      ensures b <==> First(vip.ip, k) <= ip <= Last(vip.ip, k)
      ensures b ==> dest == ip
    {
      BlockBounds(vip.ip, k);
      assert Pow2(0) == 1 && Mask(0) == 0xffff_ffff && First(ip, 0) == ip == Last(ip, 0);
      var arpi := Iface("", ip, 0xffff_ffff, 0);
      var size, r := CalcNewCidr(vip, arpi, arpi, k, 0);
      b, dest := size != 0, r.ip;
    }

    /** One entry: it is sent if it lies in the network, and then zeroed. */
    method Consider(s: nat, ghost k: nat) returns (sent: bool)
      requires k <= 32 && vip.network == Mask(k) && s < ac.Length
      modifies ac, this`log
      ensures sent <==> Reached(BlockOf(vip.ip, k), old(ac[s]))
      ensures log == old(log) + (if sent then [old(ac[s])] else [])
      ensures ac[s] == if sent then old(ac[s]).(ip := 0) else old(ac[s])
      ensures forall j | 0 <= j < ac.Length && j != s :: ac[j] == old(ac[j])
    {
      var a := ac[s];
      if a.ip == 0 { return false; }
      var b, dest := Delivers(a.ip, k);
      if b {
        log := log + [Arp(dest, a.mac)];
        ac[s] := a.(ip := 0);
      }
      sent := b;
    }

    /** The loop of send_arp_spoof_arp_cache over the first `count` entries. Every entry that
        is sent is zeroed; the entries already passed have nothing left to send. */
    method Round(ghost k: nat) returns (c: nat)
      requires k <= 32 && vip.network == Mask(k) && 0 <= count <= ac.Length
      modifies ac, this`log
      ensures var todo := old(Matching(BlockOf(vip.ip, k), ac[..count]));
        && c <= |todo| && log == old(log) + todo[..c] && Matching(BlockOf(vip.ip, k), ac[..count]) == todo[c..]
        && c == (if throttle > 0 then Min(|todo|, throttle) else |todo|)
      ensures AllPassed(BlockOf(vip.ip, k), old(ac[..]), ac[..])
    {
      ghost var net := BlockOf(vip.ip, k);
      c := 0;
      var s := 0;
      ghost var was := ac[..count];
      ghost var todo := Matching(net, was);
      SweptNone(net, was);
      while s < count && (throttle == 0 || c < throttle)
        invariant 0 <= s <= count && (throttle > 0 ==> c <= throttle)
        invariant Swept(net, was, ac[..count], s, c) && log == old(log) + todo[..c]
        invariant ac[count..] == old(ac[count..])
      {
        var sent := PassEntry(s, c, was, old(log), k, net);
        if sent { c := c + 1; }
        s := s + 1;
      }
      SweptUpTo(net, was, ac[..count], s, c);
      SweptAll(net, old(ac[..]), ac[..], count, s, c);
    }

    /** One pass of that loop. */
    method PassEntry(s: nat, ghost c: nat, ghost was: seq<Arp>, ghost before: seq<Arp>, ghost k: nat,
                     ghost net: Block)
      returns (sent: bool)
      requires k <= 32 && vip.network == Mask(k) && net == BlockOf(vip.ip, k) && s < count <= ac.Length
      requires Swept(net, was, ac[..count], s, c) && log == before + Matching(net, was)[..c]
      modifies ac, this`log
      ensures var c' := if sent then c + 1 else c;
        Swept(net, was, ac[..count], s + 1, c') && log == before + Matching(net, was)[..c']
      ensures ac[count..] == old(ac[count..])
    {
      ghost var now := ac[..count];
      assert ac[s] == now[s] == was[s];
      sent := Consider(s, k);
      SweptOne(net, was, now, ac[..count], s, c);
      if sent { OneMoreSent(before, Matching(net, was), c); }
    }

    /** The rounds until one sends nothing: every entry before the terminator that lies in
        the network is sent exactly once, in order, and nothing else. */
    method Notify(ghost k: nat) returns (productive: nat)
      requires k <= 32 && vip.network == Mask(k) && count == -1 && log == [] && Used(ac[..]) < ac.Length
      modifies this`count, this`log, ac
      ensures count == Used(old(ac[..])) && log == Matching(BlockOf(vip.ip, k), old(ac[..])[..count])
      ensures throttle == 0 ==> productive == if log != [] then 1 else 0
      ensures throttle > 0 ==> productive == (|log| + throttle - 1) / throttle
    {
      CountEntries();
      assert old(ac[..])[..count] == ac[..count];
      ghost var todo := Matching(BlockOf(vip.ip, k), ac[..count]);
      productive := SendRounds(k, BlockOf(vip.ip, k), todo);
      HowManyRounds(|todo|, throttle, productive);
    }

    /** The loop itself. */
    method SendRounds(ghost k: nat, ghost net: Block, ghost todo: seq<Arp>) returns (productive: nat)
      requires k <= 32 && vip.network == Mask(k) && net == BlockOf(vip.ip, k) && 0 <= count <= ac.Length
      requires log == [] && todo == Matching(net, ac[..count])
      modifies this`log, ac
      ensures log == todo && productive == RoundsFor(|todo|, throttle)
    {
      productive := 0;
      var sent: nat := Round(k);
      OneRound(|todo|, throttle, sent);
      ghost var left: nat := |todo| - sent;
      while sent != 0
        invariant log + Matching(net, ac[..count]) == todo
        invariant left == |Matching(net, ac[..count])| && (sent == 0 ==> left == 0)
        invariant productive + (if sent > 0 then 1 else 0) + RoundsFor(left, throttle) == RoundsFor(|todo|, throttle)
        decreases left + sent
      {
        productive := productive + 1;
        ghost var (sentBefore, rest) := (log, Matching(net, ac[..count]));
        sent := Round(k);
        OneRound(left, throttle, sent);
        Continued(sentBefore, rest, sent);
        left := left - sent;
      }
    }
  }

  lemma Continued(log: seq<Arp>, rest: seq<Arp>, c: nat)
    requires c <= |rest|
    ensures log + rest[..c] + rest[c..] == log + rest
  {
    assert rest[..c] + rest[c..] == rest;
  }

  lemma OneMoreSent(log: seq<Arp>, todo: seq<Arp>, c: nat)
    requires c < |todo|
    ensures log + todo[..c] + [todo[c]] == log + todo[..c + 1]
  {}

  lemma {:induction false} MatchingParts(net: Block, a: seq<Arp>, b: seq<Arp>)
    ensures Matching(net, a + b) == Matching(net, a) + Matching(net, b)
  {
    if a == [] {
      assert a + b == b;
    } else {
      assert (a + b)[1..] == a[1..] + b;
      MatchingParts(net, a[1..], b);
    }
  }

  lemma NothingMore(net: Block, a: seq<Arp>, e: Arp)
    requires Matching(net, a) == [] && !Reached(net, e)
    ensures Matching(net, a + [e]) == []
  {
    MatchingParts(net, a, [e]);
  }
}
