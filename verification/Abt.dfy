/** The sorted array of ARP entries of abt.c, and the map it stands for. */
module ArpTable {
  import opened Tables

  // ----- what the array stands for -----

  predicate Sorted(s: seq<Arp>) { forall i, j | 0 <= i < j < |s| :: s[i].ip < s[j].ip }

  /** The map that a sequence of updates builds, the later ones winning. */
  function AsMap(s: seq<Arp>): map<Address, Arp> {
    if s == [] then map[] else AsMap(s[..|s| - 1])[s[|s| - 1].ip := s[|s| - 1]]
  }

  /** The position of the first entry whose key is not below ip. */
  function Rank(s: seq<Arp>, ip: Address): (k: nat)
    ensures k <= |s|
    ensures forall i | 0 <= i < k :: s[i].ip < ip
    ensures k < |s| ==> s[k].ip >= ip
  {
    if s == [] || s[0].ip >= ip then 0 else 1 + Rank(s[1..], ip)
  }

  /** Put an entry in its place, or in place of the one with its key. */
  function Insert(s: seq<Arp>, e: Arp): seq<Arp> {
    var k := Rank(s, e.ip);
    if k < |s| && s[k].ip == e.ip then s[k := e] else s[..k] + [e] + s[k..]
  }

  lemma RankIs(s: seq<Arp>, ip: Address, k: nat)
    requires k <= |s| && (forall i | 0 <= i < k :: s[i].ip < ip) && (k < |s| ==> s[k].ip >= ip)
    ensures Rank(s, ip) == k
  {
    var r := Rank(s, ip);
    if r < k { assert false; }
    if k < r { assert false; }
  }

  lemma {:induction false} MapFacts(s: seq<Arp>)
    requires Sorted(s)
    ensures forall i | 0 <= i < |s| :: s[i].ip in AsMap(s) && AsMap(s)[s[i].ip] == s[i]
    ensures forall ip | ip in AsMap(s) :: exists i :: 0 <= i < |s| && s[i].ip == ip
  {
    if s != [] {
      var n := |s| - 1;
      MapFacts(s[..n]);
      forall i | 0 <= i < |s| ensures s[i].ip in AsMap(s) && AsMap(s)[s[i].ip] == s[i] {
        if i < n { assert s[..n][i] == s[i] && s[i].ip < s[n].ip; }
      }
      forall ip | ip in AsMap(s) ensures exists i :: 0 <= i < |s| && s[i].ip == ip {
        if ip != s[n].ip {
          var i :| 0 <= i < n && s[..n][i].ip == ip;
          assert s[i].ip == ip;
        }
      }
    }
  }

  /** Insertion keeps the keys strictly ascending. */
  lemma InsertSorted(s: seq<Arp>, e: Arp)
    requires Sorted(s)
    ensures Sorted(Insert(s, e))
  {
    var k := Rank(s, e.ip);
    forall i | k <= i < |s| ensures s[i].ip >= e.ip && (i > k ==> s[i].ip > e.ip) {
      assert i > k ==> s[k].ip < s[i].ip;
    }
  }

  lemma InsertNew(s: seq<Arp>, e: Arp, k: nat)
    requires Sorted(s) && k <= |s| && (forall i | 0 <= i < k :: s[i].ip < e.ip) && (k < |s| ==> s[k].ip > e.ip)
    ensures Insert(s, e) == s[..k] + [e] + s[k..]
  {
    RankIs(s, e.ip, k);
  }

  lemma InsertBefore(s: seq<Arp>, e: Arp)
    requires s != [] && Sorted(s) && s[|s| - 1].ip > e.ip
    ensures Insert(s, e) == Insert(s[..|s| - 1], e) + [s[|s| - 1]]
  {
    var n := |s| - 1;
    var k := Rank(s[..n], e.ip);
    RankIs(s, e.ip, k);
    assert k < n ==> s[..n][k] == s[k];
  }

  lemma AsMapSnoc(s: seq<Arp>, e: Arp)
    ensures AsMap(s + [e]) == AsMap(s)[e.ip := e]
  {
    assert (s + [e])[..|s|] == s;
  }

  lemma InsertLast(s: seq<Arp>, e: Arp)
    requires Sorted(s) && (s != [] ==> s[|s| - 1].ip < e.ip)
    ensures Insert(s, e) == s + [e]
  {
    InsertNew(s, e, |s|);
    assert s[..|s|] + [e] + s[|s|..] == s + [e];
  }

  lemma InsertSame(s: seq<Arp>, e: Arp)
    requires Sorted(s) && s != [] && s[|s| - 1].ip == e.ip
    ensures Insert(s, e) == s[..|s| - 1] + [e]
  {
    RankIs(s, e.ip, |s| - 1);
  }

  lemma TwoUpdates(m: map<Address, Arp>, e: Arp, last: Arp)
    ensures var r := m[last.ip := last][e.ip := e];
      if last.ip == e.ip then r == m[e.ip := e] else r == m[e.ip := e][last.ip := last]
  {}

  /** Insertion is map update. */
  lemma {:induction false} InsertUpdates(s: seq<Arp>, e: Arp)
    requires Sorted(s)
    ensures AsMap(Insert(s, e)) == AsMap(s)[e.ip := e]
  {
    var n := |s| - 1;
    if s == [] || s[n].ip < e.ip {
      InsertLast(s, e);
      AsMapSnoc(s, e);
    } else {
      var (front, last) := (s[..n], s[n]);
      assert s == front + [last];
      AsMapSnoc(front, last);
      TwoUpdates(AsMap(front), e, last);
      if last.ip == e.ip {
        InsertSame(s, e);
        AsMapSnoc(front, e);
      } else {
        InsertBefore(s, e);
        InsertUpdates(front, e);
        AsMapSnoc(Insert(front, e), last);
      }
    }
  }

  // ----- runs of insertions -----

  function Build(es: seq<Arp>): seq<Arp> {
    if es == [] then [] else Insert(Build(es[..|es| - 1]), es[|es| - 1])
  }

  /** After any insertions the array is strictly sorted and stands for the same map as the
      updates it was built from. */
  lemma {:induction false} BuildIsMap(es: seq<Arp>)
    ensures Sorted(Build(es)) && AsMap(Build(es)) == AsMap(es)
  {
    if es != [] {
      var n := |es| - 1;
      BuildIsMap(es[..n]);
      InsertSorted(Build(es[..n]), es[n]);
      InsertUpdates(Build(es[..n]), es[n]);
    }
  }

  /** The code's own condition: the array is empty or the key is not below its least key.
      Otherwise the code reads the element before the array. */
  predicate Safe(s: seq<Arp>, ip: Address) { s == [] || s[0].ip <= ip }

  lemma {:induction false} LeastIsFirst(es: seq<Arp>)
    requires es != [] && forall i | 0 <= i < |es| :: es[0].ip <= es[i].ip
    ensures Build(es) != [] && Build(es)[0].ip == es[0].ip
  {
    var n := |es| - 1;
    if n == 0 {
      assert es[..0] == [] && Build(es) == Insert([], es[0]);
    } else {
      LeastIsFirst(es[..n]);
    }
  }

  /** Every insertion of the run into a new table meets that condition. */
  predicate SafeRun(es: seq<Arp>) { forall i | 0 <= i < |es| :: Safe(Build(es[..i]), es[i].ip) }

  predicate FirstIsLeast(es: seq<Arp>) { forall i | 0 <= i < |es| :: es[0].ip <= es[i].ip }

  /** The safe runs are those whose first key is their least. */
  lemma SafeRunIff(es: seq<Arp>)
    ensures SafeRun(es) <==> FirstIsLeast(es)
  {
    if FirstIsLeast(es) {
      forall i | 0 <= i < |es| ensures Safe(Build(es[..i]), es[i].ip) {
        if i > 0 { LeastIsFirst(es[..i]); }
      }
    }
    if SafeRun(es) { SafeRunStartsLeast(es); }
  }

  lemma ShorterRun(es: seq<Arp>)
    requires SafeRun(es) && es != []
    ensures SafeRun(es[..|es| - 1])
  {
    var n := |es| - 1;
    forall i | 0 <= i < n ensures Safe(Build(es[..n][..i]), es[..n][i].ip) {
      assert es[..n][..i] == es[..i] && Safe(Build(es[..i]), es[i].ip);
    }
  }

  lemma {:induction false} SafeRunStartsLeast(es: seq<Arp>)
    requires SafeRun(es)
    ensures FirstIsLeast(es)
  {
    if |es| > 1 {
      var n := |es| - 1;
      ShorterRun(es);
      SafeRunStartsLeast(es[..n]);
      LastIsNotLess(es);
      OneMoreNotLess(es);
    }
  }

  lemma OneMoreNotLess(es: seq<Arp>)
    requires |es| > 1 && FirstIsLeast(es[..|es| - 1]) && es[0].ip <= es[|es| - 1].ip
    ensures FirstIsLeast(es)
  {
    forall i | 0 <= i < |es| - 1 ensures es[0].ip <= es[i].ip {
      assert es[..|es| - 1][0].ip <= es[..|es| - 1][i].ip;
    }
  }

  lemma LastIsNotLess(es: seq<Arp>)
    requires |es| > 1 && SafeRun(es) && FirstIsLeast(es[..|es| - 1])
    ensures es[0].ip <= es[|es| - 1].ip
  {
    var n := |es| - 1;
    LeastIsFirst(es[..n]);
    assert Safe(Build(es[..n]), es[n].ip);
  }

  // ----- the table -----

  class Abt {
    var size: nat
    var space: nat
    var data: array<Arp>

    ghost predicate Valid()
      reads this, data
    {
      data.Length == space && size < space && Sorted(data[..size])
    }

    ghost function Contents(): seq<Arp>
      reads this, data
      requires Valid()
    {
      data[..size]
    }

    constructor ()
      ensures Valid() && fresh(data) && Contents() == [] && space == 128
    {
      size, space := 0, 128;
      data := new Arp[128];
    }

    /** The search of add_abt: where the key is, or the last value of its variable l. That
        value is -1 exactly when the key is below every key of a table that has some. */
    method Locate(ip: Address) returns (found: bool, l: int)
      requires Valid()
      ensures found ==> 0 <= l < size && data[l].ip == ip
      ensures !found ==> -1 <= l <= size && (l == -1 <==> size > 0 && ip < data[0].ip)
      ensures !found ==> forall i | 0 <= i < size :: if i <= l then data[i].ip < ip else data[i].ip > ip
    {
      var f := 0;
      l := size;
      while f <= l
        invariant 0 <= f <= l + 1 && f <= size && (l == size || l + 1 < size)
        invariant forall i | 0 <= i < f :: data[i].ip < ip
        invariant forall i | l < i < size :: data[i].ip > ip
        decreases l - f
      {
        var c := f + (l - f) / 2;
        if c == size { break; }
        if data[c].ip == ip { return true, c; }
        if data[c].ip > ip {
          assert forall i | c < i < size :: data[c].ip < data[..size][i].ip;
          l := c - 1;
        } else {
          assert forall i | 0 <= i < c :: data[..size][i].ip < data[c].ip;
          f := c + 1;
        }
      }
      found := false;
      assert f > 0 ==> data[0].ip < ip;
    }

    /** add_abt. */
    method Add(e: Arp)
      requires Valid() && Safe(Contents(), e.ip)
      modifies this, data
      ensures Valid() && Contents() == Insert(old(Contents()), e)
      ensures data == old(data) || fresh(data)
      ensures space == (if size > old(size) && old(size) + 1 == old(space) then 2 * old(space) else old(space))
    {
      ghost var s := Contents();
      InsertSorted(s, e);
      var found, l := Locate(e.ip);
      if found {
        RankIs(s, e.ip, l);
        data[l] := e;
        assert data[..size] == s[l := e];
        return;
      }
      AddNew(l, e);
      InsertNew(s, e, if l == old(size) then l else l + 1);
    }

    /** The part of add_abt behind its search; l is what the search left. */
    method AddNew(l: int, e: Arp)
      requires data.Length == space && 0 <= l <= size < space && (l < size ==> e.ip > data[l].ip)
      modifies this, data
      ensures data.Length == space && size == old(size) + 1 < space && (data == old(data) || fresh(data))
      ensures space == if size == old(space) then 2 * old(space) else old(space)
      ensures var (s, k) := (old(data[..size]), if l == old(size) then l else l + 1);
        data[..size] == s[..k] + [e] + s[k..]
    {
      ghost var s := data[..size];
      size := size + 1;
      if size == space { Grow(); }
      assert data[..size - 1] == s;
      var k := l;
      if l != size - 1 && e.ip > data[l].ip { k := k + 1; }
      assert s[k..] == data[k..size - 1] && s[..k] == data[..k];
      PutAt(k, e);
    }

    /** The last lines of add_abt: the new size already counts the new entry. */
    method PutAt(l: nat, e: Arp)
      requires data.Length == space && l < size < space
      modifies data
      ensures data[..size] == old(data[..l]) + [e] + old(data[l..size - 1])
    {
      if l < size - 1 { ShiftUp(l); }
      data[l] := e;
    }

    /** realloc to twice the space. */
    method Grow()
      requires data.Length == space && size == space && size > 0
      modifies this
      ensures size == old(size) && space == 2 * old(space) == data.Length && fresh(data)
      ensures data[..size] == old(data[..size])
    {
      space := space * 2;
      var more := new Arp[space];
      forall i | 0 <= i < size { more[i] := data[i]; }
      data := more;
    }

    /** memmove of the entries from l on by one place; the last one it moves is the unused
        entry behind the old contents. */
    method ShiftUp(l: nat)
      requires data.Length == space && size < space && l < size
      modifies data
      ensures forall i | 0 <= i <= l :: data[i] == old(data[i])
      ensures forall i | l < i <= size :: data[i] == old(data[i - 1])
    {
      forall i | l < i <= size { data[i] := data[i - 1]; }
    }

    /** chk_abt answers 1 exactly for the keys stored. */
    method Check(ip: Address) returns (r: int)
      requires Valid()
      ensures r == if ip in AsMap(Contents()) then 1 else 0
    {
      ghost var s := Contents();
      var f, l := 0, size as int;
      while f <= l
        invariant 0 <= f <= l + 1 && l <= size && f <= size
        invariant Bracketed(s, ip, f, l)
        decreases l - f
      {
        var c := f + (l - f) / 2;
        if f == size { break; }
        if data[c].ip == ip {
          Present(s, c);
          return 1;
        }
        Narrowed(s, ip, f, l, c);
        if data[c].ip > ip { l := c - 1; } else { f := c + 1; }
      }
      Absent(s, ip);
      return 0;
    }
  }

  /** The keys below position f are smaller, those above position l are larger. */
  predicate Bracketed(s: seq<Arp>, ip: Address, f: int, l: int) {
    && (forall i | 0 <= i < f && i < |s| :: s[i].ip < ip)
    && (forall i | l < i < |s| && 0 <= i :: s[i].ip > ip)
  }

  lemma Narrowed(s: seq<Arp>, ip: Address, f: int, l: int, c: nat)
    requires Sorted(s) && Bracketed(s, ip, f, l) && c < |s| && s[c].ip != ip
    ensures if s[c].ip > ip then Bracketed(s, ip, f, c - 1) else Bracketed(s, ip, c + 1, l)
  {}

  lemma Present(s: seq<Arp>, c: nat)
    requires Sorted(s) && c < |s|
    ensures s[c].ip in AsMap(s)
  {
    MapFacts(s);
  }

  lemma Absent(s: seq<Arp>, ip: Address)
    requires Sorted(s) && forall i | 0 <= i < |s| :: s[i].ip != ip
    ensures ip !in AsMap(s)
  {
    MapFacts(s);
  }
}
