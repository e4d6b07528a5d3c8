/** Replaying a BALANCE message on a table in service. */
module Moves {
  import opened Tables
  import opened Protocol
  import opened Handout

  /** A move of a known entry to a member that does not own it already. */
  predicate GoodMove(names: seq<Address>, sh: Shared, mv: Move) {
    var j := Find(sh.table, mv.pseudo);
    j < |sh.table| && mv.target in names && mv.target != sh.table[j].owner
  }

  /** Each move is good when its turn comes. */
  predicate GoodMoves(names: seq<Address>, sh: Shared, moves: seq<Move>) {
    moves != [] ==>
      && GoodMoves(names, sh, moves[..|moves| - 1])
      && GoodMove(names, ShareMoves(sh, moves[..|moves| - 1]), moves[|moves| - 1])
  }

  /** Moving an entry takes it from one set of entries and adds it to another. */
  lemma MoveSets(table: seq<Entry>, j: nat, target: Address, a: Address)
    requires j < |table|
    ensures OwnedSet(table[j := table[j].(owner := target)], a)
      == OwnedSet(table, a) - {j} + (if target == a then {j} else {})
    ensures j in OwnedSet(table, a) <==> table[j].owner == a
  {}

  /** A good move leaves every entry managed and every count right; the entry goes to the target
      with the priority it has, and no other entry changes. */
  lemma MoveServes(names: seq<Address>, cfg: seq<Address>, sh: Shared, mv: Move)
    requires Serving(names, cfg, sh) && GoodMove(names, sh, mv)
    ensures Serving(names, cfg, ShareMove(sh, mv))
    ensures forall j | 0 <= j < |cfg| :: var (x, y) := (sh.table[j], ShareMove(sh, mv).table[j]);
      y.prio == x.prio && y.pseudo == x.pseudo && y.owner == if cfg[j] == mv.pseudo then mv.target else x.owner
  {
    var j := Find(sh.table, mv.pseudo);
    var r := ShareMove(sh, mv);
    assert Placed(names, sh.table[j]);
    forall k | 0 <= k < |names| ensures r.members[k] == Member(names[k], |OwnedSet(r.table, names[k])|, true) {
      MoveSets(sh.table, j, mv.target, names[k]);
    }
    assert Placed(names, r.table[j]);
  }

  /** A node that holds what the table gives it still does after a move, unless the move
      gives it an entry that it already owns: that entry it would take down. */
  lemma MoveKeepsHoldsIff(lo: Local, me: Address, table: seq<Entry>, mv: Move)
    requires Holds(lo, table, me) && Find(table, mv.pseudo) < |table|
    ensures var j := Find(table, mv.pseudo);
      Holds(LocalMove(lo, me, table, mv), table[j := table[j].(owner := mv.target)], me)
      <==> !(mv.target == me && table[j].owner == me)
  {
    var j := Find(table, mv.pseudo);
    MoveSets(table, j, mv.target, me);
    var r := LocalMove(lo, me, table, mv);
    if mv.target == me && table[j].owner == me {
      assert j !in r.held && j in OwnedSet(table[j := table[j].(owner := me)], me);
    }
  }

  lemma {:induction false} MovesServe(names: seq<Address>, cfg: seq<Address>, sh: Shared, moves: seq<Move>)
    requires Serving(names, cfg, sh) && GoodMoves(names, sh, moves)
    ensures Serving(names, cfg, ShareMoves(sh, moves))
  {
    if moves != [] {
      var n := |moves| - 1;
      MovesServe(names, cfg, sh, moves[..n]);
      MoveServes(names, cfg, ShareMoves(sh, moves[..n]), moves[n]);
    }
  }

  /** A node that replays good moves goes on holding exactly what the table gives it. */
  lemma {:induction false} MovesKeepHolds(names: seq<Address>, lo: Local, me: Address, sh: Shared, moves: seq<Move>)
    requires GoodMoves(names, sh, moves) && Holds(lo, sh.table, me)
    ensures Holds(LocalMoves(lo, me, sh, moves), ShareMoves(sh, moves).table, me)
  {
    if moves != [] {
      var n := |moves| - 1;
      MovesKeepHolds(names, lo, me, sh, moves[..n]);
      MoveKeepsHoldsIff(LocalMoves(lo, me, sh, moves[..n]), me, ShareMoves(sh, moves[..n]).table, moves[n]);
    }
  }
}
