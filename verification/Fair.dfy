/** Claim_unclaimed is fair, and no other way of handing out the same entries would leave
    the busiest member with fewer. */
module Fair {
  import opened Tables
  import opened Protocol
  import opened Leveling

  /** How many of the first i entries nobody has claimed. */
  function Unclaimed(table: seq<Entry>, i: nat): (u: nat)
    requires i <= |table|
  {
    if i == 0 then 0 else Unclaimed(table, i - 1) + if table[i - 1].prio == UNCLAIMED then 1 else 0
  }

  /** Whoever has more in d than in c has at most one more than anyone else. */
  predicate GainsAreFair(c: seq<int>, d: seq<int>) {
    |c| == |d| && forall a, b | 0 <= a < |c| && 0 <= b < |c| && d[a] > c[a] :: d[a] <= d[b] + 1
  }

  /** Loads d arise from loads c by giving u more entries to members, in any way. */
  predicate HandsOut(c: seq<int>, d: seq<int>, u: int) {
    && |c| == |d| && (forall k | 0 <= k < |c| :: c[k] <= d[k])
    && Total(d, Self()) == Total(c, Self()) + u
  }

  lemma GiveToPoorest(c: seq<int>, d: seq<int>, u: int, m: nat)
    requires GainsAreFair(c, d) && HandsOut(c, d, u) && m < |d| && forall k | 0 <= k < |d| :: d[m] <= d[k]
    ensures GainsAreFair(c, d[m := d[m] + 1]) && HandsOut(c, d[m := d[m] + 1], u + 1)
  {
    TotalUpdate(d, Self(), m, d[m] + 1);
  }

  /** After i entries: the claimed ones are untouched, the others have gone to a member. */
  predicate Claimed(before: Shared, after: Shared, i: nat) {
    && |after.table| == |before.table| && i <= |before.table|
    && (forall j | 0 <= j < |before.table| && (i <= j || before.table[j].prio != UNCLAIMED) ::
          after.table[j] == before.table[j])
    && (forall j | 0 <= j < i && before.table[j].prio == UNCLAIMED :: Assigned(before, after, j))
  }

  predicate Assigned(before: Shared, after: Shared, j: nat)
    requires j < |before.table| == |after.table|
  {
    && after.table[j].prio == CLAIMED && after.table[j].pseudo == before.table[j].pseudo
    && exists k :: 0 <= k < |before.members| && after.table[j].owner == before.members[k].addr
  }

  predicate SameAddresses(before: Shared, after: Shared) {
    && |after.members| == |before.members|
    && forall k | 0 <= k < |before.members| :: after.members[k].addr == before.members[k].addr
  }

  lemma GiveClaims(before: Shared, sh: Shared, i: nat)
    requires |sh.members| >= 1 && SameAddresses(before, sh) && i < |before.table| && Claimed(before, sh, i)
    ensures Claimed(before, GiveUnclaimed(sh, i), i + 1) && SameAddresses(before, GiveUnclaimed(sh, i))
  {
    var r := GiveUnclaimed(sh, i);
    if before.table[i].prio == UNCLAIMED {
      var m := Poorest(sh.members, |sh.members|);
      assert r.table[i].owner == before.members[m].addr;
      assert Assigned(before, r, i);
    }
    forall j | 0 <= j < i && before.table[j].prio == UNCLAIMED ensures Assigned(before, r, j) {
      assert Assigned(before, sh, j) && r.table[j] == sh.table[j];
    }
  }

  predicate FairSoFar(before: Shared, after: Shared, i: nat)
    requires i <= |before.table|
  {
    && Claimed(before, after, i) && SameAddresses(before, after)
    && GainsAreFair(Loads(before.members), Loads(after.members))
    && HandsOut(Loads(before.members), Loads(after.members), Unclaimed(before.table, i))
  }

  lemma GiveIsFair(before: Shared, sh: Shared, i: nat)
    requires |sh.members| >= 1 && i < |before.table| && FairSoFar(before, sh, i)
    ensures FairSoFar(before, GiveUnclaimed(sh, i), i + 1)
  {
    GiveClaims(before, sh, i);
    if before.table[i].prio == UNCLAIMED {
      var (c, d, m) := (Loads(before.members), Loads(sh.members), Poorest(sh.members, |sh.members|));
      GiveToPoorest(c, d, Unclaimed(before.table, i), m);
      assert Loads(GiveUnclaimed(sh, i).members) == d[m := d[m] + 1];
    }
  }

  /** Every unclaimed entry is claimed for some member and no other entry changes; whoever
      gains an entry ends within one of the least loaded member; and the loads grow by as
      many entries as were unclaimed. */
  lemma {:induction false} ClaimingIsFair(sh: Shared, i: nat)
    requires |sh.members| >= 1 && i <= |sh.table|
    ensures FairSoFar(sh, ShareUnclaimed(sh, i), i)
  {
    if i > 0 {
      ClaimingIsFair(sh, i - 1);
      GiveIsFair(sh, ShareUnclaimed(sh, i - 1), i - 1);
    }
  }

  lemma {:induction false} SmallerTotal(d: seq<int>, e: seq<int>, m: nat)
    requires |d| == |e| && m < |d| && d[m] < e[m] && forall k | 0 <= k < |d| :: d[k] <= e[k]
    ensures Total(d, Self()) < Total(e, Self())
  {
    SmallerOrEqualTotal(d, e);
    SmallerOrEqualTotal(d[m := e[m]], e);
    TotalUpdate(d, Self(), m, e[m]);
  }

  lemma {:induction false} SmallerOrEqualTotal(d: seq<int>, e: seq<int>)
    requires |d| == |e| && forall k | 0 <= k < |d| :: d[k] <= e[k]
    ensures Total(d, Self()) <= Total(e, Self())
  {
    if d != [] {
      var n := |d| - 1;
      forall k | 0 <= k < n ensures d[..n][k] <= e[..n][k] {}
      SmallerOrEqualTotal(d[..n], e[..n]);
    }
  }

  predicate Reaches(d: seq<int>, load: int) { exists k :: 0 <= k < |d| && d[k] >= load }

  /** A fair way of handing out entries makes the largest load as small as it can be: in any
      other way some member carries as much as any member does here. */
  lemma FairIsBest(c: seq<int>, fair: seq<int>, other: seq<int>, u: int, m: nat)
    requires GainsAreFair(c, fair) && HandsOut(c, fair, u) && HandsOut(c, other, u) && m < |c|
    ensures Reaches(other, fair[m])
  {
    if fair[m] == c[m] {
      assert other[m] >= fair[m];
    } else if !Reaches(other, fair[m]) {
      forall k | 0 <= k < |c| ensures other[k] <= fair[k] {
        assert other[k] < fair[m] <= fair[k] + 1;
      }
      SmallerTotal(other, fair, m);
    }
  }

  /** The largest load after Claim_unclaimed is the smallest that any assignment of the same
      entries achieves. */
  lemma ClaimingIsBest(sh: Shared, other: seq<int>, m: nat)
    requires |sh.members| >= 1 && m < |sh.members|
    requires HandsOut(Loads(sh.members), other, Unclaimed(sh.table, |sh.table|))
    ensures Reaches(other, ShareUnclaimed(sh, |sh.table|).members[m].num)
  {
    ClaimingIsFair(sh, |sh.table|);
    var n := |sh.table|;
    FairIsBest(Loads(sh.members), Loads(ShareUnclaimed(sh, n).members), other, Unclaimed(sh.table, n), m);
  }
}
