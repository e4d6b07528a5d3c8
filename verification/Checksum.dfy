/** The Internet checksum of ife-icmp-support.c and the ping that carries two of them. */
module Checksum {
  import opened Bytes

  type Half = x: int | 0 <= x < 0x1_0000

  // ----- the sum of 16-bit halves, with and without end-around carry -----

  /** Two adjacent bytes read as an unsigned short. */
  function Pair(o: Order, x: Byte, y: Byte): Half {
    var (a: int, b: int) := (x, y);
    if o.Little? then a + 256 * b else 256 * a + b
  }

  /** The bytes of an unsigned short in memory. */
  function PutHalf(o: Order, h: Half): (b: seq<Byte>)
    ensures |b| == 2 && Pair(o, b[0], b[1]) == h
  {
    if o.Little? then [h % 256, h / 256] else [h / 256, h % 256]
  }

  /** The shorts of a buffer; a last odd byte is padded with a zero byte behind it. */
  function Halves(o: Order, b: seq<Byte>): (hs: seq<Half>) {
    if b == [] then []
    else if |b| == 1 then [Pair(o, b[0], 0)]
    else [Pair(o, b[0], b[1])] + Halves(o, b[2..])
  }

  /** That is, as if a zero byte stood behind it (section 4.1 of RFC 1071), in either order. */
  lemma {:induction false} PaddedBehind(o: Order, b: seq<Byte>)
    requires |b| % 2 == 1
    ensures Halves(o, b) == Halves(o, b + [0])
  {
    if |b| > 1 {
      PaddedBehind(o, b[2..]);
      assert (b + [0])[2..] == b[2..] + [0];
    }
  }

  function Sum(hs: seq<Half>): nat { if hs == [] then 0 else hs[0] + Sum(hs[1..]) }

  /** Addition with end-around carry, section 1 of RFC 1071. */
  function OnesAdd(x: Half, y: Half): Half {
    var (a: int, b: int) := (x, y);
    if a + b > 0xffff then a + b - 0xffff else a + b
  }

  function OnesSum(hs: seq<Half>): Half { if hs == [] then 0 else OnesAdd(OnesSum(hs[1..]), hs[0]) }

  function Complement(h: Half): Half { 0xffff - h }

  /** The checksum by definition: the complement of the one's-complement sum. */
  function Checksum(o: Order, b: seq<Byte>): Half { Complement(OnesSum(Halves(o, b))) }

  /** The one's-complement representative of a total. */
  function Canon(t: nat): Half { if t == 0 then 0 else 1 + (t - 1) % 0xffff }

  lemma CanonIs(t: nat, r: Half, q: int)
    requires t == 0xffff * q + r && (r == 0 <==> t == 0)
    ensures Canon(t) == r
  {
    if t > 0 {
      assert t - 1 == 0xffff * q + (r - 1);
    }
  }

  /** A total is its representative plus a multiple of 0xffff. */
  function Wraps(t: nat): (q: nat)
    ensures t == 0xffff * q + Canon(t) && (Canon(t) == 0 <==> t == 0)
  {
    if t == 0 then 0 else (t - 1) / 0xffff
  }

  lemma CanonAdd(t: nat, h: Half)
    ensures OnesAdd(Canon(t), h) == Canon(t + h)
  {
    var q := Wraps(t);
    CanonIs(t + h, OnesAdd(Canon(t), h), if Canon(t) + h > 0xffff then q + 1 else q);
  }

  /** The order of carries does not matter: only the plain total does. */
  lemma {:induction false} OnesSumIsCanon(hs: seq<Half>)
    ensures OnesSum(hs) == Canon(Sum(hs))
  {
    if hs != [] {
      OnesSumIsCanon(hs[1..]);
      CanonAdd(Sum(hs[1..]), hs[0]);
    }
  }

  /** The two folding steps of the code, kept to 16 bits. */
  function Fold(t: nat): Half {
    var once := t / 0x1_0000 + t % 0x1_0000;
    (once + once / 0x1_0000) % 0x1_0000
  }

  /** Two folds reduce any 32-bit total to its one's-complement sum. */
  lemma TwoFoldsSuffice(t: nat)
    requires t < 0x1_0000_0000
    ensures Fold(t) == Canon(t)
  {
    var (hi, lo) := (t / 0x1_0000, t % 0x1_0000);
    assert t == 0xffff * hi + (hi + lo);
    CanonIs(t, Fold(t), if hi + lo > 0xffff then hi + 1 else hi);
  }

  lemma {:induction false} SumBound(o: Order, b: seq<Byte>)
    ensures Sum(Halves(o, b)) <= 0xffff * ((|b| + 1) / 2)
  {
    if |b| > 1 { SumBound(o, b[2..]); }
  }

  lemma LastHalf(o: Order, b: seq<Byte>)
    requires |b| <= 1
    ensures Sum(Halves(o, b)) == if b == [] then 0 else Pair(o, b[0], 0)
  {
    if b != [] { assert Halves(o, b) == [Pair(o, b[0], 0)]; }
  }

  lemma NextHalf(o: Order, b: seq<Byte>)
    requires |b| > 1
    ensures Sum(Halves(o, b)) == Pair(o, b[0], b[1]) + Sum(Halves(o, b[2..]))
  {
    assert Halves(o, b)[1..] == Halves(o, b[2..]);
  }

  /** The adding up of in_checksum; for up to 65535 bytes the long stays below 2 to the 31. */
  method AddHalves(o: Order, buf: array<Byte>, start: nat, len: nat) returns (sum: nat)
    requires start + len <= buf.Length && len <= 65535
    ensures sum == Sum(Halves(o, buf[start..start + len])) < 0x8000_0000
  {
    ghost var b := buf[start..start + len];
    var p, n := start, len;
    sum := 0;
    while n > 1
      invariant 0 <= n <= len && p + n == start + len
      invariant sum + Sum(Halves(o, buf[p..p + n])) == Sum(Halves(o, b))
      decreases n
    {
      NextHalf(o, buf[p..p + n]);
      assert buf[p..p + n][2..] == buf[p + 2..p + n];
      sum := sum + Pair(o, buf[p], buf[p + 1]);
      p, n := p + 2, n - 2;
    }
    LastHalf(o, buf[p..p + n]);
    if n == 1 { sum := sum + Pair(o, buf[p], 0); }
    SumBound(o, b);
  }

  /** in_checksum: the result is the complement of the one's-complement sum. */
  method InChecksum(o: Order, buf: array<Byte>, start: nat, len: nat) returns (answer: Half)
    requires start + len <= buf.Length && len <= 65535
    ensures answer == Checksum(o, buf[start..start + len])
  {
    var sum := AddHalves(o, buf, start, len);
    OnesSumIsCanon(Halves(o, buf[start..start + len]));
    TwoFoldsSuffice(sum);
    sum := sum / 0x1_0000 + sum % 0x1_0000;
    sum := sum + sum / 0x1_0000;
    answer := 0xffff - sum % 0x1_0000;
  }

  // ----- storing the checksum -----

  /** Writing a short over a zero field at an even offset adds its value to the sum. */
  lemma {:induction false} SumWithField(o: Order, b: seq<Byte>, c: seq<Byte>, k: nat, h: Half)
    requires k % 2 == 0 && k + 1 < |b| == |c| && b[k] == 0 && b[k + 1] == 0
    requires c == b[..k] + PutHalf(o, h) + b[k + 2..]
    ensures Sum(Halves(o, c)) == Sum(Halves(o, b)) + h
  {
    if k == 0 {
      assert c[2..] == b[2..];
      assert c[0] == PutHalf(o, h)[0] && c[1] == PutHalf(o, h)[1];
    } else {
      assert c[2..] == b[2..][..k - 2] + PutHalf(o, h) + b[2..][k..];
      SumWithField(o, b[2..], c[2..], k - 2, h);
    }
  }

  lemma ComplementCloses(t: nat)
    ensures Canon(t + Complement(Canon(t))) == 0xffff
  {
    CanonIs(t + Complement(Canon(t)), 0xffff, Wraps(t));
  }

  /** Stored in its zeroed field, the checksum makes the one's-complement sum 0xffff. */
  lemma StoredChecksumVerifies(o: Order, b: seq<Byte>, c: seq<Byte>, k: nat)
    requires k % 2 == 0 && k + 1 < |b| == |c| && b[k] == 0 && b[k + 1] == 0
    requires c[k..k + 2] == PutHalf(o, Checksum(o, b))
    requires forall i | 0 <= i < |b| && i != k && i != k + 1 :: c[i] == b[i]
    ensures OnesSum(Halves(o, c)) == 0xffff && Checksum(o, c) == 0
  {
    assert c == b[..k] + c[k..k + 2] + b[k + 2..];
    SumWithField(o, b, c, k, Checksum(o, b));
    OnesSumIsCanon(Halves(o, b));
    OnesSumIsCanon(Halves(o, c));
    ComplementCloses(Sum(Halves(o, b)));
  }

  // ----- byte order independence, section 2(B) of RFC 1071 -----

  function Swap(h: Half): Half { h % 256 * 256 + h / 256 }

  /** The totals in the two byte orders: one is 256 times the other, up to multiples of
      0xffff. */
  function Excess(b: seq<Byte>): nat {
    if b == [] then 0 else b[0] + (if |b| == 1 then 0 else Excess(b[2..]))
  }

  lemma {:induction false} SwappedTotals(b: seq<Byte>)
    ensures 256 * Sum(Halves(Big, b)) == Sum(Halves(Little, b)) + 0xffff * Excess(b)
    ensures Sum(Halves(Big, b)) == 0 <==> Sum(Halves(Little, b)) == 0
  {
    if |b| > 1 { SwappedTotals(b[2..]); }
  }

  lemma SwapIs(h: Half)
    ensures 256 * h == Swap(h) + 0xffff * (h / 256) && (h == 0 <==> Swap(h) == 0)
  {}

  lemma CanonSwaps(big: nat, little: nat, x: nat)
    requires 256 * big == little + 0xffff * x && (big == 0 <==> little == 0)
    ensures Canon(little) == Swap(Canon(big))
  {
    var (q, h) := (Wraps(big), Canon(big));
    SwapIs(h);
    CanonIs(little, Swap(h), 256 * q + h / 256 - x);
  }

  /** Machines of either byte order compute checksums that are the same bytes in memory. */
  lemma SameBytesInEitherOrder(b: seq<Byte>)
    ensures PutHalf(Little, Checksum(Little, b)) == PutHalf(Big, Checksum(Big, b))
  {
    OnesSumIsCanon(Halves(Big, b));
    OnesSumIsCanon(Halves(Little, b));
    SwappedTotals(b);
    CanonSwaps(Sum(Halves(Big, b)), Sum(Halves(Little, b)), Excess(b));
    ComplementSwaps(OnesSum(Halves(Big, b)));
  }

  lemma ComplementSwaps(h: Half)
    ensures PutHalf(Little, Complement(Swap(h))) == PutHalf(Big, Complement(h))
  {
    var (a, b) := (h / 256, h % 256);
    assert Complement(h) == 256 * (255 - a) + (255 - b) && Complement(Swap(h)) == 256 * (255 - b) + (255 - a);
    assert Complement(h) / 256 == 255 - a && Complement(h) % 256 == 255 - b;
    assert Complement(Swap(h)) / 256 == 255 - b && Complement(Swap(h)) % 256 == 255 - a;
  }

  /** The check a receiver of either byte order makes. */
  predicate Verifies(b: seq<Byte>) { Checksum(Little, b) == 0 && Checksum(Big, b) == 0 }

  lemma VerifiesInAnyOrder(o: Order, b: seq<Byte>)
    requires Checksum(o, b) == 0
    ensures Verifies(b)
  {
    SameBytesInEitherOrder(b);
  }

  /** A part of a buffer, with the checksum of that part stored in its zeroed field. */
  lemma SealedPart(o: Order, p: seq<Byte>, r: seq<Byte>, start: nat, len: nat, field: nat)
    requires start + len <= |p| == |r| && field % 2 == 0 && field + 2 <= len
    requires p[start + field] == 0 && p[start + field + 1] == 0
    requires var h := PutHalf(o, Checksum(o, p[start..start + len]));
      r[start + field] == h[0] && r[start + field + 1] == h[1]
    requires forall k | 0 <= k < |p| && k != start + field && k != start + field + 1 :: r[k] == p[k]
    ensures Verifies(r[start..start + len])
  {
    var (b, c) := (p[start..start + len], r[start..start + len]);
    assert forall i | 0 <= i < len :: b[i] == p[start + i] && c[i] == r[start + i];
    StoredChecksumVerifies(o, b, c, field);
    VerifiesInAnyOrder(o, c);
  }

  // ----- compose_ping -----

  const PING := 43

  /** Ethernet type 0x800; IPv4, length 28, id 0xfefe, ttl 64, ICMP. */
  const TYPE_AND_HEADER: seq<Byte> := [0x08, 0x00, 0x45, 0x00, 0x00, 0x1c, 0xfe, 0xfe, 0x00, 0x00, 0x40, 0x01]
  const ECHO_REQUEST: seq<Byte> := [0x08, 0x00]
  /** Identifier and sequence number, and the zero that ends the string. */
  const ECHO_IDS: seq<Byte> := [0xfe, 0xfe, 0xfe, 0xfe, 0x00]

  /** The parts of the packet that no call changes: types, lengths, identifiers and flags. */
  predicate Fixed(p: seq<Byte>) {
    && |p| == PING
    && p[12..24] == TYPE_AND_HEADER && p[34..36] == ECHO_REQUEST && p[38..43] == ECHO_IDS
  }

  predicate Addressed(p: seq<Byte>, mac: seq<Byte>, remoteMac: seq<Byte>, newIp: Word, remoteIp: Word, o: Order)
    requires |p| == PING
  {
    && p[0..6] == remoteMac && p[6..12] == mac && p[26..30] == Put(o, newIp) && p[30..34] == Put(o, remoteIp)
  }

  /** The checksum fields are no part of the fixed bytes or of the addresses. */
  lemma Unsealed(p: seq<Byte>, r: seq<Byte>)
    requires Fixed(p) && |r| == PING && forall k | 0 <= k < PING && !(24 <= k < 26 || 36 <= k < 38) :: r[k] == p[k]
    ensures Fixed(r) && r[0..6] == p[0..6] && r[6..12] == p[6..12] && r[26..30] == p[26..30] && r[30..34] == p[30..34]
  {
    assert r[12..24] == p[12..24] && r[34..36] == p[34..36] && r[38..43] == p[38..43];
  }

  /** An Ethernet frame with an IPv4 packet (section 3.1 of RFC 791) that carries an ICMP
      echo request: both checksums verify, on a machine of either byte order. */
  predicate IsPing(o: Order, p: seq<Byte>, mac: seq<Byte>, remoteMac: seq<Byte>, newIp: Word, remoteIp: Word) {
    && Fixed(p) && Addressed(p, mac, remoteMac, newIp, remoteIp, o)
    && Verifies(p[14..34]) && Verifies(p[34..42])
  }

  /** What the fields say: an IPv4 header of five words (section 3.1 of RFC 791) in a frame of
      type 0x800, whose total length is that of the header and the ICMP message together, with
      an echo request (RFC 792) from the new address to the other machine. */
  lemma PingFields(o: Order, p: seq<Byte>, mac: seq<Byte>, remoteMac: seq<Byte>, newIp: Word, remoteIp: Word)
    requires IsPing(o, p, mac, remoteMac, newIp, remoteIp) && |mac| == |remoteMac| == 6
    ensures p[0..6] == remoteMac && p[6..12] == mac && Pair(Big, p[12], p[13]) == 0x800
    ensures p[14] / 16 == 4 && p[14] % 16 * 4 == |p[14..34]| && Pair(Big, p[16], p[17]) == |p[14..34]| + |p[34..42]|
    ensures Pair(Big, p[18], p[19]) == 0xfefe && p[20] == p[21] == 0 && p[22] == 64 && p[23] == 1
    ensures Get(o, p[26..30]) == newIp && Get(o, p[30..34]) == remoteIp
    ensures p[34] == 8 && p[35] == 0 && Pair(Big, p[38], p[39]) == Pair(Big, p[40], p[41]) == 0xfefe
  {
    var (h, e, ids) := (p[12..24], p[34..36], p[38..43]);
    assert forall k | 0 <= k < 12 :: p[12 + k] == h[k];
    assert h[0] == p[12] && h[1] == p[13] && h[2] == p[14] && h[4] == p[16] && h[5] == p[17];
    assert h[6] == p[18] && h[7] == p[19] && h[8] == p[20] && h[9] == p[21] && h[10] == p[22] && h[11] == p[23];
    assert e[0] == p[34] && e[1] == p[35];
    assert ids[0] == p[38] && ids[1] == p[39] && ids[2] == p[40] && ids[3] == p[41];
    GetPut(o, newIp);
    GetPut(o, remoteIp);
  }

  /** The initial contents of the static packet. */
  function Template(): (p: seq<Byte>)
    ensures Fixed(p)
  {
    var zero: Byte := 0;
    var ones: Byte := 0xff;
    var front := seq(12, _ => ones) + TYPE_AND_HEADER + seq(10, _ => zero);
    front + ECHO_REQUEST + [zero, zero] + ECHO_IDS
  }

  /** The static packet buffer of compose_ping, shared by all its calls. */
  class Pinger {
    const o: Order
    const pkt: array<Byte>

    ghost predicate Valid()
      reads this, pkt
    {
      pkt.Length == PING && Fixed(pkt[..])
    }

    constructor (o: Order)
      ensures Valid() && fresh(pkt) && this.o == o
    {
      this.o := o;
      pkt := new Byte[PING](k requires 0 <= k < PING => Template()[k]);
      new;
      assert pkt[..] == Template();
    }

    /** memcpy into the packet. */
    method Copy(at: nat, b: seq<Byte>)
      requires at + |b| <= pkt.Length
      modifies pkt
      ensures pkt[at..at + |b|] == b
      ensures forall k | at <= k < at + |b| :: pkt[k] == b[k - at]
      ensures forall k | 0 <= k < pkt.Length && !(at <= k < at + |b|) :: pkt[k] == old(pkt[k])
    {
      forall k | 0 <= k < |b| { pkt[at + k] := b[k]; }
    }

    /** Zero the checksum field at the given offset of a part of the packet, then store the
        checksum of that part there. */
    method Seal(start: nat, len: nat, field: nat)
      requires start + len <= pkt.Length && len <= 65535 && field % 2 == 0 && field + 2 <= len
      modifies pkt
      ensures forall k | 0 <= k < pkt.Length && !(start + field <= k < start + field + 2) :: pkt[k] == old(pkt[k])
      ensures Verifies(pkt[start..start + len])
    {
      Copy(start + field, [0, 0]);
      ghost var was := pkt[..];
      var answer := InChecksum(o, pkt, start, len);
      assert was[start..start + len] == pkt[start..start + len];
      Copy(start + field, PutHalf(o, answer));
      SealedPart(o, was, pkt[..], start, len, field);
      assert pkt[..][start..start + len] == pkt[start..start + len];
    }

    /** The four memcpys at the start of compose_ping. */
    method WriteAddresses(mac: seq<Byte>, remoteMac: seq<Byte>, newIp: Word, remoteIp: Word)
      requires Valid() && |mac| == 6 && |remoteMac| == 6
      modifies pkt
      ensures Fixed(pkt[..]) && Addressed(pkt[..], mac, remoteMac, newIp, remoteIp, o)
    {
      ghost var was := pkt[..];
      Copy(0, remoteMac);
      Copy(6, mac);
      Copy(14 + 12, Put(o, newIp));
      Copy(14 + 16, Put(o, remoteIp));
      assert pkt[0..6] == remoteMac && pkt[6..12] == mac;
      assert pkt[12..24] == was[12..24] && pkt[34..36] == was[34..36] && pkt[38..43] == was[38..43];
    }

    /** Whatever earlier calls left in the static packet, the result is a correct ping. */
    method ComposePing(dpkt: array<Byte>, mac: seq<Byte>, remoteMac: seq<Byte>, newIp: Word, remoteIp: Word)
      requires Valid() && dpkt != pkt && dpkt.Length >= PING && |mac| == 6 && |remoteMac| == 6
      modifies pkt, dpkt
      ensures Valid() && IsPing(o, dpkt[..PING], mac, remoteMac, newIp, remoteIp)
      ensures dpkt[PING..] == old(dpkt[PING..])
    {
      WriteAddresses(mac, remoteMac, newIp, remoteIp);
      ghost var was := pkt[..];
      Seal(14, 20, 10);
      ghost var ip := pkt[14..34];
      Seal(34, 8, 2);
      ghost var icmp := pkt[34..42];
      assert pkt[14..34] == ip && Verifies(icmp);
      Unsealed(was, pkt[..]);
      forall k | 0 <= k < PING { dpkt[k] := pkt[k]; }
      assert dpkt[..PING] == pkt[..];
      assert dpkt[..PING][14..34] == ip && dpkt[..PING][34..42] == icmp;
    }
  }
}
