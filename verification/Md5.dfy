/** The streaming part of websocketpp's MD5 (RFC 1321): length counting, block buffering and padding. The compression
    of one block is an arbitrary function. */
module Md5 {
  import opened Bytes
  import opened Numbers
  import opened Sequences

  type word = x: int | 0 <= x < 0x1_0000_0000

  datatype Abcd = Abcd(a: word, b: word, c: word, d: word)

  /** md5_process: the state and one block of 64 bytes give the new state. */
  type Compression = (Abcd, Text) -> Abcd

  const BLOCK: nat := 64
  const INITIAL := Abcd(0x6745_2301, 0xefcd_ab89, 0x98ba_dcfe, 0x1032_5476)

  // ---------------------------------------------------- RFC 1321, section 3

  /** The compression function over a whole number of blocks. */
  function Fold(f: Compression, st: Abcd, s: Text): Abcd
    requires |s| % BLOCK == 0
    decreases |s|
  {
    if s == [] then st else Fold(f, f(st, s[..BLOCK]), s[BLOCK..])
  }

  /** The low n bytes of x, least significant first. */
  function LittleEndian(n: nat, x: nat): (s: Text)
    ensures |s| == n
  {
    if n == 0 then [] else [x % 256] + LittleEndian(n - 1, x / 256)
  }

  /** Steps 1 and 2: a one bit, zeros up to 56 bytes modulo 64, and the length in bits modulo 2^64, low word first. */
  function Padded(m: Text): (s: Text)
    ensures |s| % BLOCK == 0
  {
    PadTotal(|m|);
    var bits := 8 * |m| % TWO64;
    m + [0x80] + Zeros((55 - |m|) % BLOCK) + (LittleEndian(4, bits % TWO32) + LittleEndian(4, bits / TWO32))
  }

  lemma PadTotal(n: nat)
    ensures (n + 1 + (55 - n) % BLOCK + 8) % BLOCK == 0
  {
  }

  function Output(st: Abcd): Text {
    LittleEndian(4, st.a) + LittleEndian(4, st.b) + LittleEndian(4, st.c) + LittleEndian(4, st.d)
  }

  /** The digest of a whole message. */
  function Digest(f: Compression, m: Text): Text { Output(Fold(f, INITIAL, Padded(m))) }

  lemma {:induction false} FoldAppend(f: Compression, st: Abcd, x: Text, y: Text)
    requires |x| % BLOCK == 0 && |y| % BLOCK == 0
    ensures Fold(f, st, x + y) == Fold(f, Fold(f, st, x), y)
    decreases |x|
  {
    if x == [] {
      assert x + y == y;
    } else {
      assert (x + y)[..BLOCK] == x[..BLOCK] && (x + y)[BLOCK..] == x[BLOCK..] + y;
      FoldAppend(f, f(st, x[..BLOCK]), x[BLOCK..], y);
    }
  }

  /** One block more. */
  lemma FoldBlock(f: Compression, x: Text, b: Text)
    requires |x| % BLOCK == 0 && |b| == BLOCK
    ensures Fold(f, INITIAL, x + b) == f(Fold(f, INITIAL, x), b)
  {
    FoldAppend(f, INITIAL, x, b);
    var st := Fold(f, INITIAL, x);
    assert b[..BLOCK] == b && b[BLOCK..] == [];
    assert Fold(f, f(st, b), []) == f(st, b);
  }

  function Whole(m: Text): (s: Text)
    ensures |s| % BLOCK == 0
  {
    m[..|m| - |m| % BLOCK]
  }

  function Remainder(m: Text): (s: Text)
    ensures |s| == |m| % BLOCK
  {
    m[|m| - |m| % BLOCK..]
  }

  // ------------------------------------------------------------- the length

  /** Two 32-bit words count bits modulo 2^64; a byte count is added in parts, with a carry. */
  lemma CountStep(c0: word, c1: word, total: nat, n: nat)
    requires c1 * TWO32 + c0 == 8 * total % TWO64
    ensures var nbits := 8 * n % TWO32;
      var d0 := (c0 + nbits) % TWO32;
      var d1 := (c1 + n / 0x2000_0000 + (if d0 < nbits then 1 else 0)) % TWO32;
      d1 * TWO32 + d0 == 8 * (total + n) % TWO64
  {
    var nbits, high := 8 * n % TWO32, n / 0x2000_0000;
    assert 8 * n == high * TWO32 + nbits;
    var d0 := (c0 + nbits) % TWO32;
    var carry := if d0 < nbits then 1 else 0;
    assert c0 + nbits == carry * TWO32 + d0;
    var e := c1 + high + carry;
    var q := 8 * total / TWO64;
    assert 8 * total == q * TWO64 + c1 * TWO32 + c0;
    TwoWords(8 * (total + n), q, e, d0);
  }

  lemma TwoWords(x: nat, q: nat, e: nat, d: word)
    requires x == q * TWO64 + e * TWO32 + d
    ensures x % TWO64 == e % TWO32 * TWO32 + d
  {
    var r := e / TWO32;
    assert e == r * TWO32 + e % TWO32;
    assert x == (q + r) * TWO64 + (e % TWO32 * TWO32 + d);
  }

  /** The buffered tail is as long as the count says. */
  lemma CountOffset(c0: word, c1: word, total: nat)
    requires c1 * TWO32 + c0 == 8 * total % TWO64
    ensures c0 / 8 % BLOCK == total % BLOCK
  {
    var q := 8 * total / TWO64;
    assert 8 * total == q * TWO64 + c1 * TWO32 + c0;
    var k := q * 0x80_0000_0000_0000 + c1 * 0x80_0000;
    assert c0 == 8 * (total - BLOCK * k);
    assert c0 / 8 == total - BLOCK * k;
    SameRemainder(total, k);
  }

  lemma SameRemainder(n: int, k: int)
    ensures (n - BLOCK * k) % BLOCK == n % BLOCK
  {
  }

  // ---------------------------------------------------------- the stream

  /** md5_state_t. */
  class State {
    const compress: Compression
    var count0: word
    var count1: word
    var abcd: Abcd
    const buf: array<byte>
    ghost var message: Text   // everything appended since md5_init

    ghost predicate Valid()
      reads this, buf
    {
      && buf.Length == BLOCK
      && count1 * TWO32 + count0 == 8 * |message| % TWO64
      && abcd == Fold(compress, INITIAL, Whole(message))
      && buf[..|message| % BLOCK] == Remainder(message)
    }

    /** md5_init. */
    constructor (compress: Compression)
      ensures Valid() && fresh(this) && fresh(buf) && this.compress == compress && message == []
    {
      this.compress := compress;
      count0, count1 := 0, 0;
      abcd := INITIAL;
      message := [];
      buf := new byte[BLOCK];
    }

    method CopyToBuf(offset: nat, data: Text)
      requires buf.Length == BLOCK && offset + |data| <= BLOCK
      modifies buf
      ensures buf[..offset] == old(buf[..offset]) && buf[offset..offset + |data|] == data
    {
      for i := 0 to |data|
        invariant buf[..offset] == old(buf[..offset])
        invariant buf[offset..offset + i] == data[..i]
      {
        buf[offset + i] := data[i];
        assert buf[offset..offset + (i + 1)] == buf[offset..offset + i] + [data[i]];
      }
    }

    /** The count after nbytes more bytes. */
    method AddLength(nbytes: nat, ghost total: nat)
      requires count1 * TWO32 + count0 == 8 * total % TWO64
      modifies `count0, `count1
      ensures count1 * TWO32 + count0 == 8 * (total + nbytes) % TWO64
    {
      CountStep(count0, count1, total, nbytes);
      var nbits: word := 8 * nbytes % TWO32;
      ghost var d0: word := (count0 + nbits) % TWO32;
      CarryLast(count1, nbytes / 0x2000_0000, d0 < nbits);
      count1 := (count1 + nbytes / 0x2000_0000) % TWO32;
      count0 := (count0 + nbits) % TWO32;
      if count0 < nbits { count1 := (count1 + 1) % TWO32; }
    }

    /** The block loop of md5_append from data[p..] on; m is everything appended, these bytes included. */
    method ProcessBlocks(data: Text, start: nat, ghost m: Text) returns (p: nat)
      requires start <= |data| <= |m| && m[|m| - |data|..] == data && (|m| - |data| + start) % BLOCK == 0
      requires abcd == Fold(compress, INITIAL, m[..|m| - |data| + start])
      modifies `abcd
      ensures start <= p <= |data| && |data| - p < BLOCK && (|m| - |data| + p) % BLOCK == 0
      ensures abcd == Fold(compress, INITIAL, m[..|m| - |data| + p])
    {
      hide Fold;
      p := start;
      ghost var at := |m| - |data|;
      while |data| - p >= BLOCK
        invariant start <= p <= |data| && (at + p) % BLOCK == 0
        invariant abcd == Fold(compress, INITIAL, m[..at + p])
        decreases |data| - p
      {
        BlockSlice(m, at, data, p);
        FoldBlock(compress, m[..at + p], data[p..p + BLOCK]);
        abcd := compress(abcd, data[p..p + BLOCK]);
        p := p + BLOCK;
      }
    }

    /** The initial partial block: it stays short, or it is filled and processed and p bytes of data are used. */
    method FillPartial(data: Text, offset: nat) returns (p: nat, short: bool)
      requires buf.Length == BLOCK && 0 < offset == |message| % BLOCK && data != []
      requires abcd == Fold(compress, INITIAL, Whole(message)) && buf[..offset] == Remainder(message)
      modifies `abcd, buf
      ensures short ==> offset + |data| < BLOCK && abcd == old(abcd) && buf[..offset + |data|] == Remainder(message) + data
      ensures !short ==> (p <= |data| && (|message| + p) % BLOCK == 0
                          && abcd == Fold(compress, INITIAL, (message + data)[..|message| + p]))
    {
      hide Fold;
      var copy := if offset + |data| > BLOCK then BLOCK - offset else |data|;
      CopyToBuf(offset, data[..copy]);
      assert buf[..offset + copy] == buf[..offset] + buf[offset..offset + copy];
      if offset + copy < BLOCK {
        assert data[..copy] == data;
        return 0, true;
      }
      FillBlock(message, data, copy);
      assert buf[..] == buf[..offset + copy];
      FoldBlock(compress, Whole(message), buf[..]);
      abcd := compress(abcd, buf[..]);
      return copy, false;
    }

    /** md5_append. */
    method Append(data: Text)
      requires Valid()
      modifies this, buf
      ensures Valid() && message == old(message) + data
    {
      hide Fold;
      CountOffset(count0, count1, |message|);
      var offset: nat := count0 / 8 % BLOCK;
      if |data| == 0 { assert message + data == message; return; }
      AddLength(|data|, |message|);
      ghost var m := message + data;
      var p := 0;
      if offset > 0 {
        var short;
        p, short := FillPartial(data, offset);
        if short {
          ShortAppend(message, data);
          message := m;
          return;
        }
      } else {
        assert Whole(message) == message == m[..|message| + 0];
      }
      assert m[|m| - |data|..] == data;
      AppendBlocks(data, p, m);
      message := m;
    }

    /** The full blocks of md5_append and the final partial block. */
    method AppendBlocks(data: Text, start: nat, ghost m: Text)
      requires start <= |data| <= |m| && m[|m| - |data|..] == data && (|m| - |data| + start) % BLOCK == 0
      requires buf.Length == BLOCK && abcd == Fold(compress, INITIAL, m[..|m| - |data| + start])
      modifies `abcd, buf
      ensures abcd == Fold(compress, INITIAL, Whole(m)) && buf[..|m| % BLOCK] == Remainder(m)
    {
      hide Fold;
      var p := ProcessBlocks(data, start, m);
      CopyToBuf(0, data[p..]);
      ghost var at := |m| - |data|;
      FinalPart(m, at + p);
      assert m[at + p..] == data[p..];
      assert buf[..|data| - p] == buf[0..|data| - p];
    }

    method LengthBytes() returns (r: Text)
      ensures r == LittleEndian(4, count0) + LittleEndian(4, count1)
    {
      var lo := WordBytes(count0);
      var hi := WordBytes(count1);
      r := lo + hi;
    }

    /** The padding and the length. */
    method Pad()
      requires Valid()
      modifies this, buf
      ensures Valid() && message == Padded(old(message))
    {
      hide *;
      var padding, length := Padding();
      Append(padding);
      Append(length);
    }

    /** The count and the padding are read before either is appended. */
    method Padding() returns (padding: Text, length: Text)
      requires Valid()
      ensures message + padding + length == Padded(message)
    {
      assert count1 * TWO32 + count0 == 8 * |message| % TWO64;
      hide *;
      ghost var m := message;
      length := LengthBytes();
      var n: nat := (55 - count0 / 8) % BLOCK;
      CountOffset(count0, count1, |m|);
      PadLength(|m|, count0 / 8);
      LengthSplit(count0, count1, 8 * |m| % TWO64);
      padding := [0x80] + Zeros(n);
      PaddedJoin(m, n, length);
    }

    /** md5_finish: the digest of everything appended. */
    method Finish() returns (digest: Text)
      requires Valid()
      modifies this, buf
      ensures digest == Digest(compress, old(message)) && |digest| == 16
    {
      Pad();
      hide Fold, LittleEndian, Padded;
      assert Whole(message) == message;
      var s := abcd;
      var a := WordBytes(s.a);
      var b := WordBytes(s.b);
      var c := WordBytes(s.c);
      var d := WordBytes(s.d);
      digest := a + b + c + d;
    }
  }

  /** The bytes of a word by shifts. */
  method WordBytes(w: word) returns (r: Text)
    ensures r == LittleEndian(4, w)
  {
    r := [w % 256, w / 0x100 % 256, w / 0x1_0000 % 256, w / 0x100_0000 % 256];
    var x, y := w / 256, w / 0x1_0000;
    assert x / 256 == y && y / 256 == w / 0x100_0000;
    assert LittleEndian(1, y / 256) == [y / 256 % 256] + LittleEndian(0, y / 256 / 256);
    assert LittleEndian(2, y) == [y % 256] + LittleEndian(1, y / 256);
    assert LittleEndian(3, x) == [x % 256] + LittleEndian(2, y);
  }

  lemma CarryLast(c1: word, high: nat, carry: bool)
    ensures (c1 + high + (if carry then 1 else 0)) % TWO32
      == if carry then ((c1 + high) % TWO32 + 1) % TWO32 else (c1 + high) % TWO32
  {
  }

  lemma BlockSlice(m: Text, at: nat, data: Text, p: nat)
    requires at + |data| == |m| && m[at..] == data && p + BLOCK <= |data|
    ensures m[..at + (p + BLOCK)] == m[..at + p] + data[p..p + BLOCK]
  {
    assert data[p..p + BLOCK] == m[at + p..at + p + BLOCK];
  }

  lemma ShortAppend(m: Text, data: Text)
    requires |m| % BLOCK + |data| < BLOCK
    ensures Whole(m + data) == Whole(m) && Remainder(m + data) == Remainder(m) + data
    ensures |m + data| % BLOCK == |m| % BLOCK + |data|
  {
  }

  lemma FillBlock(m: Text, data: Text, copy: nat)
    requires copy <= |data| && |m| % BLOCK + copy == BLOCK
    ensures Whole(m) + (Remainder(m) + data[..copy]) == (m + data)[..|m| + copy]
    ensures (|m| + copy) % BLOCK == 0 && |Remainder(m) + data[..copy]| == BLOCK
  {
    assert Whole(m) + Remainder(m) == m;
  }

  lemma FinalPart(m: Text, k: nat)
    requires k <= |m| && k % BLOCK == 0 && |m| - k < BLOCK
    ensures Whole(m) == m[..k] && Remainder(m) == m[k..] && |m| % BLOCK == |m| - k
  {
  }

  lemma LengthSplit(c0: word, c1: word, bits: nat)
    requires c1 * TWO32 + c0 == bits
    ensures bits % TWO32 == c0 && bits / TWO32 == c1
  {
  }

  /** The padding count is taken from the low word alone, in 32-bit arithmetic. */
  lemma PadLength(n: nat, c: nat)
    requires c % BLOCK == n % BLOCK
    ensures (55 - c) % BLOCK == (55 - n) % BLOCK
  {
  }

  lemma PaddedJoin(m: Text, n: nat, length: Text)
    requires n == (55 - |m|) % BLOCK
    requires var bits := 8 * |m| % TWO64; length == LittleEndian(4, bits % TWO32) + LittleEndian(4, bits / TWO32)
    ensures m + ([0x80] + Zeros(n)) + length == Padded(m)
  {
    hide LittleEndian, Zeros;
    assert m + ([0x80] + Zeros(n)) == m + [0x80] + Zeros(n);
  }

  // ------------------------------------------------------------ one digest

  /** However a message is cut into append calls, its digest is that of the whole. */
  method HashPieces(compress: Compression, pieces: seq<Text>) returns (digest: Text)
    ensures digest == Digest(compress, Concat(pieces)) && |digest| == 16
  {
    hide Digest, Fold;
    var st := new State(compress);
    for i := 0 to |pieces|
      invariant st.Valid() && fresh(st) && fresh(st.buf) && st.compress == compress
      invariant st.message + Concat(pieces[i..]) == Concat(pieces)
    {
      assert pieces[i..][1..] == pieces[i + 1..];
      Regroup(st.message, pieces[i], Concat(pieces[i + 1..]));
      st.Append(pieces[i]);
    }
    assert st.message + [] == st.message;
    digest := st.Finish();
  }

  /** md5_hash_string. */
  method HashString(compress: Compression, s: Text) returns (digest: Text)
    ensures digest == Digest(compress, s) && |digest| == 16
  {
    hide Digest;
    var st := new State(compress);
    st.Append(s);
    assert [] + s == s;
    digest := st.Finish();
  }

  function LowBits(n: nat): word { 8 * n % TWO32 }

  function HighBits(n: nat): word
    requires 8 * n < TWO64
  {
    8 * n / TWO32
  }

  lemma BitsInjective(m: nat, n: nat)
    requires 8 * m < TWO64 && 8 * n < TWO64 && LowBits(m) == LowBits(n) && HighBits(m) == HighBits(n)
    ensures m == n
  {
  }

  lemma PaddedEnd(m: Text)
    requires 8 * |m| < TWO64
    ensures var p := Padded(m);
      |p| >= 8 && p[|p| - 8..|p| - 4] == LittleEndian(4, LowBits(|m|)) && p[|p| - 4..] == LittleEndian(4, HighBits(|m|))
      && |m| <= |p| && p[..|m|] == m
  {
    var bits := 8 * |m|;
    assert bits % TWO64 == bits;
    var lo, hi := LittleEndian(4, bits % TWO32), LittleEndian(4, bits / TWO32);
    var x := m + [0x80] + Zeros((55 - |m|) % BLOCK);
    assert Padded(m) == x + (lo + hi);
    hide Padded, LittleEndian, Zeros;
  }

  /** Two messages of the same padded form are the same message: the padding is injective below 2^61 bytes. */
  lemma {:induction false} PaddingInjective(m: Text, n: Text)
    requires 8 * |m| < TWO64 && 8 * |n| < TWO64 && Padded(m) == Padded(n)
    ensures m == n
  {
    hide Padded, LittleEndian, LowBits, HighBits;
    PaddedEnd(m);
    PaddedEnd(n);
    WordInjective(LowBits(|m|), LowBits(|n|));
    WordInjective(HighBits(|m|), HighBits(|n|));
    BitsInjective(|m|, |n|);
  }

  lemma WordInjective(x: word, y: word)
    requires LittleEndian(4, x) == LittleEndian(4, y)
    ensures x == y
  {
    WordValue(4, x);
    WordValue(4, y);
    assert Pow256(4) == 256 * (256 * (256 * (256 * Pow256(0))));
  }

  lemma {:induction false} WordValue(n: nat, x: nat)
    requires x < Pow256(n)
    ensures LittleEndianValue(LittleEndian(n, x)) == x
  {
    if n > 0 {
      WordValue(n - 1, x / 256);
      assert LittleEndian(n, x)[1..] == LittleEndian(n - 1, x / 256);
    }
  }

  /** The bytes 4 * i to 4 * i + 3 of the digest are word i of the state, least significant byte first. */
  lemma OutputWords(st: Abcd)
    ensures |Output(st)| == 16
    ensures LittleEndianValue(Output(st)[0..4]) == st.a && LittleEndianValue(Output(st)[4..8]) == st.b
    ensures LittleEndianValue(Output(st)[8..12]) == st.c && LittleEndianValue(Output(st)[12..16]) == st.d
  {
    var a, b, c, d := LittleEndian(4, st.a), LittleEndian(4, st.b), LittleEndian(4, st.c), LittleEndian(4, st.d);
    var o := Output(st);
    hide LittleEndian;
    assert o[0..4] == a && o[4..8] == b && o[8..12] == c && o[12..16] == d;
    assert Pow256(4) == 256 * (256 * (256 * (256 * Pow256(0))));
    WordValue(4, st.a);
    WordValue(4, st.b);
    WordValue(4, st.c);
    WordValue(4, st.d);
  }

  /** The initial words are the bytes 01 23 .. ef fe dc .. 10 of section 3.3 of RFC 1321. */
  lemma InitialBytes()
    ensures LittleEndianValue([0x01, 0x23, 0x45, 0x67]) == INITIAL.a && LittleEndianValue([0x89, 0xab, 0xcd, 0xef]) == INITIAL.b
    ensures LittleEndianValue([0xfe, 0xdc, 0xba, 0x98]) == INITIAL.c && LittleEndianValue([0x76, 0x54, 0x32, 0x10]) == INITIAL.d
  {
    FourByteValue(0x01, 0x23, 0x45, 0x67);
    FourByteValue(0x89, 0xab, 0xcd, 0xef);
    FourByteValue(0xfe, 0xdc, 0xba, 0x98);
    FourByteValue(0x76, 0x54, 0x32, 0x10);
  }

  lemma FourByteValue(a: byte, b: byte, c: byte, d: byte)
    ensures LittleEndianValue([a, b, c, d]) == a + 0x100 * b + 0x1_0000 * c + 0x100_0000 * d
  {
    assert [a, b, c, d][1..] == [b, c, d] && [b, c, d][1..] == [c, d] && [c, d][1..] == [d] && [d][1..] == [];
    assert LittleEndianValue([d]) == d;
    assert LittleEndianValue([c, d]) == c + 256 * d;
    assert LittleEndianValue([b, c, d]) == b + 256 * (c + 256 * d);
  }

  /** The padded message: the message, the byte 0x80, zeros, and eight bytes that hold the length in bits; as many zeros as
      fill the block, and no block more than needed. */
  lemma PaddedShape(m: Text)
    requires 8 * |m| < TWO64
    ensures var p := Padded(m);
      && |p| % 64 == 0 && |m| + 9 <= |p| < |m| + 9 + 64
      && p[..|m|] == m && p[|m|] == 0x80 && (forall k | |m| < k < |p| - 8 :: p[k] == 0)
      && LittleEndianValue(p[|p| - 8..]) == 8 * |m|
  {
    var bits := 8 * |m|;
    assert bits % TWO64 == bits;
    var lo, hi, z := LittleEndian(4, bits % TWO32), LittleEndian(4, bits / TWO32), Zeros((55 - |m|) % BLOCK);
    var p := Padded(m);
    assert p == m + [0x80] + z + (lo + hi);
    hide Padded, LittleEndian, Zeros;
    assert p[|p| - 8..] == lo + hi;
    LengthBytes(bits);
  }

  lemma LengthBytes(bits: nat)
    requires bits < TWO64
    ensures LittleEndianValue(LittleEndian(4, bits % TWO32) + LittleEndian(4, bits / TWO32)) == bits
  {
    var lo, hi := LittleEndian(4, bits % TWO32), LittleEndian(4, bits / TWO32);
    assert Pow256(4) == 256 * (256 * (256 * (256 * Pow256(0))));
    WordValue(4, bits % TWO32);
    WordValue(4, bits / TWO32);
    hide LittleEndian, Pow256;
    ValueJoin(lo, hi);
  }
}
