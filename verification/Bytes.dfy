/** Bytes, 32-bit words and their two orders in memory. */
module Bytes {
  import opened Tables

  type Byte = x: int | 0 <= x < 256
  type Word = Address

  datatype Order = Big | Little

  /** The four bytes of a word in memory. */
  function Put(o: Order, w: Word): (b: seq<Byte>)
    ensures |b| == 4
  {
    var (a0, a1, a2, a3) := (w % 256, w / 256 % 256, w / 65536 % 256, w / 16777216);
    if o.Little? then [a0, a1, a2, a3] else [a3, a2, a1, a0]
  }

  function Get(o: Order, b: seq<Byte>): Word
    requires |b| == 4
  {
    var (b0: int, b1: int, b2: int, b3: int) := (b[0], b[1], b[2], b[3]);
    if o.Little? then b0 + 256 * b1 + 65536 * b2 + 16777216 * b3
    else b3 + 256 * b2 + 65536 * b1 + 16777216 * b0
  }

  /** The most significant byte lies first in one order and last in the other. */
  lemma BytesOfWord(a: Byte, b: Byte, c: Byte, d: Byte)
    ensures Get(Big, [a, b, c, d]) == Get(Little, [d, c, b, a])
    ensures Get(Big, [a, b, c, d]) as int == ((a as int * 256 + b) * 256 + c) * 256 + d
  {}

  /** What was stored is read back. */
  lemma GetPut(o: Order, w: Word)
    ensures Get(o, Put(o, w)) == w
  {
    var (a0, a1, a2, a3) := (w % 256, w / 256 % 256, w / 65536 % 256, w / 16777216);
    assert w / 256 == a1 + 256 * (w / 65536);
    assert w / 65536 == a2 + 256 * a3;
  }

  /** What a signed 32-bit integer can hold. */
  predicate Small(x: int) { -0x8000_0000 <= x < 0x8000_0000 }

  /** A signed 32-bit integer as a word, and back. */
  function Unsigned(x: int): (w: Word)
    requires Small(x)
    ensures Signed(w) == x
  {
    if x < 0 then x + 0x1_0000_0000 else x
  }

  function Signed(w: Word): (x: int)
    ensures Small(x)
  {
    if w < 0x8000_0000 then w else w - 0x1_0000_0000
  }

  /** Words laid out one after the other. */
  function Layout(o: Order, ws: seq<Word>): (b: seq<Byte>)
    ensures |b| == 4 * |ws|
  {
    if ws == [] then [] else Layout(o, ws[..|ws| - 1]) + Put(o, ws[|ws| - 1])
  }

  function WordAt(o: Order, b: seq<Byte>, k: nat): Word
    requires 4 * k + 4 <= |b|
  {
    Get(o, b[4 * k..4 * k + 4])
  }

  lemma {:induction false} WordOfLayout(o: Order, ws: seq<Word>, k: nat)
    requires k < |ws|
    ensures WordAt(o, Layout(o, ws), k) == ws[k]
  {
    var (n, b) := (|ws| - 1, Layout(o, ws));
    if k == n {
      assert b[4 * k..4 * k + 4] == Put(o, ws[k]);
      GetPut(o, ws[k]);
    } else {
      assert b[4 * k..4 * k + 4] == Layout(o, ws[..n])[4 * k..4 * k + 4];
      WordOfLayout(o, ws[..n], k);
    }
  }

  /** The words of a buffer, read from its start. */
  function Words(o: Order, b: seq<Byte>): (ws: seq<Word>)
    ensures |ws| == |b| / 4
  {
    seq<Word>(|b| / 4, k requires 0 <= k < |b| / 4 => WordAt(o, b, k))
  }

  /** Reading a layout word by word gives back the words. */
  lemma WordsOfLayout(o: Order, ws: seq<Word>)
    ensures Words(o, Layout(o, ws)) == ws
  {
    forall k | 0 <= k < |ws| ensures Words(o, Layout(o, ws))[k] == ws[k] { WordOfLayout(o, ws, k); }
  }

  /** memcpy of one word to the cursor. */
  method PutWord(mess: array<Byte>, at: nat, o: Order, w: Word)
    requires at + 4 <= mess.Length
    modifies mess
    ensures mess[..at + 4] == old(mess[..at]) + Put(o, w)
    ensures forall k | 0 <= k < mess.Length && (k < at || at + 4 <= k) :: mess[k] == old(mess[k])
  {
    var b := Put(o, w);
    mess[at], mess[at + 1], mess[at + 2], mess[at + 3] := b[0], b[1], b[2], b[3];
  }

  /** Appending one word to a layout. */
  lemma LayoutOne(o: Order, ws: seq<Word>, w: Word)
    ensures Layout(o, ws + [w]) == Layout(o, ws) + Put(o, w)
  {
    assert (ws + [w])[..|ws|] == ws;
  }

  /** Writes one more word behind those already in the buffer. */
  method Append(mess: array<Byte>, o: Order, ghost ws: seq<Word>, at: nat, w: Word) returns (next: nat)
    requires at == 4 * |ws| && at + 4 <= mess.Length && mess[..at] == Layout(o, ws)
    modifies mess
    ensures next == at + 4 && mess[..next] == Layout(o, ws + [w])
  {
    LayoutOne(o, ws, w);
    PutWord(mess, at, o, w);
    next := at + 4;
  }
}
