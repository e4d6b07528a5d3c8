/** The allocation tables of wackamole.c and defines.h: entries, members, claim
    priorities, and who owns which entry. */
module Tables {
  /** An IPv4 address: an unsigned 32-bit integer. */
  type Address = x: int | 0 <= x < 0x1_0000_0000

  datatype Option<+T> = None | Some(value: T)

  const UNCLAIMED := 0
  const CLAIMED := 2
  const PREFER := 4
  const PREFER_CLAIMED := 5

  /** One virtual interface: its (fixed) virtual address, the real address of its
      owner (0 when it has none) and the priority of the owner's claim. */
  datatype Entry = Entry(pseudo: Address, owner: Address, prio: int)

  datatype Member = Member(addr: Address, num: int, got: bool)

  /** One entry of an ARP cache; the address 0 ends a cache. */
  datatype Arp = Arp(ip: Address, mac: int)

  /** How many virtual interfaces there may be at most. */
  const MAX_PSEUDO := 254

  predicate Distinct(s: seq<Address>) {
    && (forall i | 0 <= i < |s| :: s[i] != 0)
    && (forall i, j | 0 <= i < j < |s| :: s[i] != s[j])
  }

  /** The table lists exactly the configured virtual addresses, in their order. */
  predicate Wears(table: seq<Entry>, cfg: seq<Address>) {
    |table| == |cfg| && forall j | 0 <= j < |cfg| :: table[j].pseudo == cfg[j]
  }

  /** The first entry with a virtual address, or the length of the table. */
  function Find(table: seq<Entry>, p: Address): (j: nat)
    ensures j <= |table|
    ensures j < |table| ==> table[j].pseudo == p
    ensures forall i | 0 <= i < j :: table[i].pseudo != p
  {
    if table == [] then 0
    else if table[0].pseudo == p then 0
    else 1 + Find(table[1..], p)
  }

  /** In a table over distinct addresses, looking up entry j's address finds j. */
  lemma FindsItself(table: seq<Entry>, cfg: seq<Address>, j: nat)
    requires Wears(table, cfg) && Distinct(cfg) && j < |cfg|
    ensures Find(table, cfg[j]) == j
  {
    var i := Find(table, cfg[j]);
    assert table[j].pseudo == cfg[j];
    if i < j { assert false; }
  }

  /** The entries that a real address owns. */
  function OwnedSet(table: seq<Entry>, a: Address): set<nat> {
    set j: nat | j < |table| && table[j].owner == a
  }

  lemma OwnedSetStep(table: seq<Entry>, a: Address)
    requires table != []
    ensures |OwnedSet(table, a)|
      == |OwnedSet(table[..|table| - 1], a)| + (if table[|table| - 1].owner == a then 1 else 0)
  {
    var n := |table| - 1;
    var s := OwnedSet(table[..n], a);
    assert n !in s;
    assert OwnedSet(table, a) == if table[n].owner == a then s + {n} else s;
  }

  /** The numbers of the first n entries. */
  function Upto(n: nat): (s: set<nat>)
    ensures |s| == n
    ensures forall j: nat :: j in s <==> j < n
  {
    if n == 0 then {} else Upto(n - 1) + {n - 1}
  }

  lemma SubsetSize<T>(a: set<T>, b: set<T>)
    requires a <= b
    ensures |a| <= |b|
    ensures |a| == |b| ==> a == b
  {
    assert b == a + (b - a);
    if |a| == |b| { assert |b - a| == 0; }
  }
}
