/** WebSocket payload masking (RFC 6455, section 5.3): byte by byte, by machine words, and in chunks with a carried key. */
module Masking {
  import opened Bytes
  import opened Numbers

  /** The machine: word size in bytes and byte order. */
  datatype Machine = Machine(size: nat, little: bool)

  predicate Supported(mc: Machine) { mc.size == 4 || mc.size == 8 }

  /** size_t has 32 or 64 bits; both byte orders. */
  lemma BothSizes(little: bool)
    ensures Supported(Machine(4, little)) && Supported(Machine(8, little)) && !Supported(Machine(2, little))
  {
  }

  /** A number of that many bytes, least significant first. */
  type Number = seq<byte>

  // ------------------------------------------------------- bit operations

  function XorBits(n: nat, a: nat, b: nat): nat {
    if n == 0 then 0 else (a % 2 + b % 2) % 2 + 2 * XorBits(n - 1, a / 2, b / 2)
  }

  function OrBits(n: nat, a: nat, b: nat): nat {
    if n == 0 then 0 else (if a % 2 == 1 || b % 2 == 1 then 1 else 0) + 2 * OrBits(n - 1, a / 2, b / 2)
  }

  lemma {:induction false} XorBitsLaws(n: nat, a: nat, b: nat)
    requires a < Pow2(n) && b < Pow2(n)
    ensures XorBits(n, a, b) < Pow2(n) && XorBits(n, XorBits(n, a, b), b) == a
  {
    if n > 0 {
      XorBitsLaws(n - 1, a / 2, b / 2);
      LowBit(a % 2, b % 2, XorBits(n - 1, a / 2, b / 2));
    }
  }

  lemma LowBit(p: nat, q: nat, h: nat)
    requires p < 2 && q < 2
    ensures var x := (p + q) % 2 + 2 * h; x / 2 == h && (x % 2 + q) % 2 == p
  {
  }

  lemma {:induction false} OrBitsLaws(n: nat, a: nat, b: nat)
    requires a < Pow2(n) && b < Pow2(n)
    ensures OrBits(n, a, b) < Pow2(n) && OrBits(n, a, 0) == a && OrBits(n, 0, a) == a && OrBits(n, a, a) == a
  {
    if n > 0 { OrBitsLaws(n - 1, a / 2, b / 2); }
  }

  lemma EightBits()
    ensures Pow2(8) == 256
  {
    assert Pow2(4) == 2 * (2 * (2 * (2 * Pow2(0))));
    assert Pow2(8) == 2 * (2 * (2 * (2 * Pow2(4))));
  }

  function Xor(a: byte, b: byte): byte {
    EightBits();
    XorBitsLaws(8, a, b);
    XorBits(8, a, b)
  }

  function Or(a: byte, b: byte): byte {
    EightBits();
    OrBitsLaws(8, a, b);
    OrBits(8, a, b)
  }

  lemma XorTwice(a: byte, b: byte)
    ensures Xor(Xor(a, b), b) == a
  {
    EightBits();
    XorBitsLaws(8, a, b);
  }

  /** Bit k of a number. */
  function Bit(a: nat, k: nat): nat { a / Pow2(k) % 2 }

  lemma BitShift(a: nat, k: nat)
    requires k > 0
    ensures Bit(a, k) == Bit(a / 2, k - 1)
  {
    var p := Pow2(k - 1);
    var q, r := a / 2 / p, a / 2 % p;
    assert a / 2 == p * q + r;
    assert a == (2 * p) * q + (2 * r + a % 2);
    ModUnique(a, 2 * p, q, 2 * r + a % 2);
  }

  lemma XorBitsStep(n: nat, a: nat, b: nat)
    requires n > 0
    ensures XorBits(n, a, b) / 2 == XorBits(n - 1, a / 2, b / 2)
    ensures XorBits(n, a, b) % 2 == if a % 2 != b % 2 then 1 else 0
  {
  }

  lemma {:induction false} XorBitsAt(n: nat, a: nat, b: nat, k: nat)
    requires k < n
    ensures Bit(XorBits(n, a, b), k) == if Bit(a, k) != Bit(b, k) then 1 else 0
  {
    XorBitsStep(n, a, b);
    hide XorBits;
    if k == 0 {
      assert Pow2(0) == 1;
    } else {
      BitShift(a, k);
      BitShift(b, k);
      BitShift(XorBits(n, a, b), k);
      hide Bit;
      XorBitsAt(n - 1, a / 2, b / 2, k - 1);
    }
  }

  /** Bit k of the result is set exactly when bit k of one operand is set and of the other is not. */
  lemma {:induction false} XorBit(a: byte, b: byte, k: nat)
    requires k < 8
    ensures Bit(Xor(a, b), k) == 1 <==> Bit(a, k) != Bit(b, k)
  {
    XorBitsAt(8, a, b, k);
  }

  lemma {:induction false} XorBitsUnits(n: nat, a: nat)
    requires a < Pow2(n)
    ensures XorBits(n, a, 0) == a && XorBits(n, a, a) == 0
  {
    if n > 0 { XorBitsUnits(n - 1, a / 2); }
  }

  lemma XorUnits(a: byte)
    ensures Xor(a, 0) == a && Xor(a, a) == 0
  {
    EightBits();
    XorBitsUnits(8, a);
  }

  lemma OrZero(a: byte)
    ensures Or(a, 0) == a && Or(0, a) == a && Or(a, a) == a
  {
    EightBits();
    OrBitsLaws(8, a, 0);
  }

  // ---------------------------------------------------- words and memory

  function Reversed(s: seq<byte>): (r: seq<byte>)
    ensures |r| == |s| && forall i | 0 <= i < |s| :: r[i] == s[|s| - 1 - i]
  {
    seq(|s|, i requires 0 <= i < |s| => s[|s| - 1 - i])
  }

  /** The bytes of a number in memory, and back. */
  function Memory(mc: Machine, w: Number): (m: seq<byte>)
    ensures |m| == |w|
  {
    if mc.little then w else Reversed(w)
  }

  function OrWords(a: Number, b: Number): (r: Number)
    requires |a| == |b|
    ensures |r| == |a|
  {
    seq(|a|, i requires 0 <= i < |a| => Or(a[i], b[i]))
  }

  /** w << 8 * k. Shifting by the full width is undefined in C++; hardware either clears or does nothing. */
  function ShiftLeft(w: Number, k: nat, clears: bool): (r: Number)
    requires k <= |w|
    ensures |r| == |w|
  {
    if k == |w| then (if clears then Zeros(|w|) else w) else Zeros(k) + w[..|w| - k]
  }

  /** w >> 8 * k. */
  function ShiftRight(w: Number, k: nat, clears: bool): (r: Number)
    requires k <= |w|
    ensures |r| == |w|
  {
    if k == |w| then (if clears then Zeros(|w|) else w) else w[k..] + Zeros(k)
  }

  lemma {:induction false} ValueZeros(n: nat)
    ensures LittleEndianValue(Zeros(n)) == 0
  {
    if n > 0 {
      ValueZeros(n - 1);
      assert Zeros(n)[1..] == Zeros(n - 1);
    }
  }

  lemma {:induction false} ValueBound(w: Number)
    ensures LittleEndianValue(w) < Pow256(|w|)
  {
    if w != [] { ValueBound(w[1..]); }
  }

  /** Shifting the bytes is what the arithmetic shifts do to the number. */
  lemma {:induction false} ShiftValues(w: Number, k: nat)
    requires k < |w|
    ensures LittleEndianValue(w) == LittleEndianValue(w[..k]) + Pow256(k) * LittleEndianValue(ShiftRight(w, k, true)) && LittleEndianValue(w[..k]) < Pow256(k)
    ensures LittleEndianValue(ShiftLeft(w, k, true)) == Pow256(k) * LittleEndianValue(w[..|w| - k])
  {
    assert w[..k] + w[k..] == w;
    ValueJoin(w[..k], w[k..]);
    ValueBound(w[..k]);
    ValueJoin(w[k..], Zeros(k));
    ValueZeros(k);
    ValueJoin(Zeros(k), w[..|w| - k]);
  }

  // ------------------------------------------------------------- masking

  /** The key octet for position i of the payload. */
  function KeyAt(key: seq<byte>, i: nat): byte
    requires |key| == 4
  {
    key[i % 4]
  }

  /** transformed-octet-i = original-octet-i XOR masking-key-octet-(i MOD 4), starting at an offset. */
  function Masked(s: seq<byte>, key: seq<byte>, offset: nat): (r: seq<byte>)
    requires |key| == 4
    ensures |r| == |s|
  {
    seq(|s|, i requires 0 <= i < |s| => Xor(s[i], KeyAt(key, offset + i)))
  }

  lemma {:induction false} MaskTwice(s: seq<byte>, key: seq<byte>, offset: nat)
    requires |key| == 4
    ensures Masked(Masked(s, key, offset), key, offset) == s
  {
    hide Xor;
    forall i | 0 <= i < |s| ensures Masked(Masked(s, key, offset), key, offset)[i] == s[i] {
      XorTwice(s[i], KeyAt(key, offset + i));
    }
  }

  /** The zero key changes nothing. */
  lemma {:induction false} MaskedByZero(s: seq<byte>, offset: nat)
    ensures Masked(s, [0, 0, 0, 0], offset) == s
  {
    hide Xor;
    forall i | 0 <= i < |s| ensures Masked(s, [0, 0, 0, 0], offset)[i] == s[i] { XorUnits(s[i]); }
  }

  /** A payload of zeros shows the key octets in turn, beginning with octet offset modulo 4. */
  lemma {:induction false} MaskedZeros(n: nat, key: seq<byte>, offset: nat)
    requires |key| == 4
    ensures forall i | 0 <= i < n :: Masked(Zeros(n), key, offset)[i] == key[(offset + i) % 4]
  {
    hide Xor;
    forall i | 0 <= i < n ensures Masked(Zeros(n), key, offset)[i] == key[(offset + i) % 4] {
      var k := key[(offset + i) % 4];
      XorTwice(0, k);
      XorUnits(k);
      XorCommutes(0, k);
    }
  }

  lemma {:induction false} XorBitsCommute(n: nat, a: nat, b: nat)
    ensures XorBits(n, a, b) == XorBits(n, b, a)
  {
    if n > 0 { XorBitsCommute(n - 1, a / 2, b / 2); }
  }

  lemma XorCommutes(a: byte, b: byte)
    ensures Xor(a, b) == Xor(b, a)
  {
    XorBitsCommute(8, a, b);
  }

  function Rotated(s: seq<byte>, k: nat): (r: seq<byte>)
    requires k <= |s|
    ensures |r| == |s|
  {
    s[k..] + s[..k]
  }

  lemma MaskedJoin(x: seq<byte>, y: seq<byte>, key: seq<byte>, offset: nat)
    requires |key| == 4
    ensures Masked(x + y, key, offset) == Masked(x, key, offset) + Masked(y, key, offset + |x|)
  {
    hide Xor, KeyAt;
    var r := Masked(x, key, offset) + Masked(y, key, offset + |x|);
    forall i | 0 <= i < |x + y| ensures Masked(x + y, key, offset)[i] == r[i] {
      if i >= |x| { assert offset + |x| + (i - |x|) == offset + i; }
    }
  }

  /** Going on at an offset is starting over with the key rotated. */
  lemma MaskedRotated(s: seq<byte>, key: seq<byte>, offset: nat)
    requires |key| == 4
    ensures Masked(s, key, offset) == Masked(s, Rotated(key, offset % 4), 0)
  {
    hide Xor;
    forall i | 0 <= i < |s| ensures KeyAt(key, offset + i) == KeyAt(Rotated(key, offset % 4), i) {
      RotatedAt(key, offset, i);
    }
    hide KeyAt, Rotated;
  }

  lemma RotatedAt(key: seq<byte>, offset: nat, i: nat)
    requires |key| == 4
    ensures KeyAt(key, offset + i) == KeyAt(Rotated(key, offset % 4), i)
  {
    var o, r := offset % 4, i % 4;
    assert (offset + i) % 4 == (o + r) % 4;
  }

  // ---------------------------------------------------- prepared keys

  /** prepare_masking_key; key is the four key bytes in memory order. */
  function Prepare(mc: Machine, key: seq<byte>): (w: Number)
    requires Supported(mc) && |key| == 4
    ensures |w| == mc.size
  {
    var i := Memory(mc, key);
    if mc.size == 8 then OrWords(ShiftLeft(i + Zeros(4), 4, true), i + Zeros(4)) else i
  }

  /** circshift_prepared_key. */
  function Circshift(mc: Machine, w: Number, offset: nat, clears: bool): (r: Number)
    requires |w| == mc.size && offset < mc.size
    ensures |r| == |w|
  {
    if mc.little then OrWords(ShiftRight(w, offset, clears), ShiftLeft(w, mc.size - offset, clears))
    else OrWords(ShiftLeft(w, offset, clears), ShiftRight(w, mc.size - offset, clears))
  }

  /** A prepared key repeats its four bytes through the word. */
  predicate Periodic(mc: Machine, w: Number, key: seq<byte>) {
    Supported(mc) && |w| == mc.size && |key| == 4 && forall i | 0 <= i < mc.size :: Memory(mc, w)[i] == KeyAt(key, i)
  }

  lemma PrepareBytes(mc: Machine, key: seq<byte>, k: nat)
    requires Supported(mc) && |key| == 4 && k < mc.size
    ensures Prepare(mc, key)[k] == Memory(mc, key)[k % 4]
  {
    OrZero(Memory(mc, key)[k % 4]);
    hide Or, Memory;
  }

  lemma ReversedAt(mc: Machine, w: Number, key: seq<byte>, i: nat)
    requires Supported(mc) && |w| == mc.size && |key| == 4 && i < mc.size
    requires forall k | 0 <= k < mc.size :: w[k] == Memory(mc, key)[k % 4]
    ensures Memory(mc, w)[i] == KeyAt(key, i)
  {
    if !mc.little {
      assert (mc.size - 1 - i) % 4 == 3 - i % 4;
    }
  }

  lemma PrepareMemory(mc: Machine, key: seq<byte>)
    requires Supported(mc) && |key| == 4
    ensures Periodic(mc, Prepare(mc, key), key)
  {
    hide Prepare, Memory;
    var w := Prepare(mc, key);
    forall k | 0 <= k < mc.size ensures w[k] == Memory(mc, key)[k % 4] { PrepareBytes(mc, key, k); }
    forall i | 0 <= i < mc.size ensures Memory(mc, w)[i] == KeyAt(key, i) { ReversedAt(mc, w, key, i); }
  }

  /** Byte k of the shifted word. */
  lemma CircshiftAt(mc: Machine, w: Number, offset: nat, clears: bool, k: nat)
    requires |w| == mc.size && offset < mc.size && k < mc.size
    ensures var r := Circshift(mc, w, offset, clears)[k];
      if mc.little then r == w[if k + offset < mc.size then k + offset else k + offset - mc.size]
      else r == w[if k < offset then k - offset + mc.size else k - offset]
  {
    hide Or;
    var at := if mc.little then (if k + offset < mc.size then k + offset else k + offset - mc.size)
      else if k < offset then k - offset + mc.size else k - offset;
    OrZero(w[at]);
  }

  /** The shifts rotate the word's bytes in memory, whatever an over-wide shift does. */
  lemma CircshiftMemory(mc: Machine, w: Number, offset: nat, clears: bool)
    requires |w| == mc.size && offset < mc.size
    ensures Memory(mc, Circshift(mc, w, offset, clears)) == Rotated(Memory(mc, w), offset)
  {
    hide Circshift;
    forall k | 0 <= k < mc.size
      ensures Memory(mc, Circshift(mc, w, offset, clears))[k] == Rotated(Memory(mc, w), offset)[k]
    {
      CircshiftAt(mc, w, offset, clears, if mc.little then k else mc.size - 1 - k);
    }
  }

  /** The four-byte period survives the shift. */
  lemma CircshiftPeriodic(mc: Machine, w: Number, key: seq<byte>, offset: nat, clears: bool)
    requires Periodic(mc, w, key) && offset < mc.size
    ensures Periodic(mc, Circshift(mc, w, offset, clears), Rotated(key, offset % 4))
  {
    CircshiftMemory(mc, w, offset, clears);
    var m := Memory(mc, w);
    hide Circshift, Memory, Rotated, KeyAt;
    forall i | 0 <= i < mc.size ensures Rotated(m, offset)[i] == KeyAt(Rotated(key, offset % 4), i) {
      RotatedKey(mc, m, key, offset, i);
    }
  }

  lemma RotatedKey(mc: Machine, m: seq<byte>, key: seq<byte>, offset: nat, i: nat)
    requires Supported(mc) && |m| == mc.size && |key| == 4 && offset < mc.size && i < mc.size
    requires forall k | 0 <= k < mc.size :: m[k] == KeyAt(key, k)
    ensures Rotated(m, offset)[i] == KeyAt(Rotated(key, offset % 4), i)
  {
    hide KeyAt;
    RotatedAt(key, offset, i);
    WrapAround(mc, key, offset + i);
    var at := if offset + i < mc.size then offset + i else offset + i - mc.size;
    assert Rotated(m, offset)[i] == m[at];
    hide Rotated;
  }

  lemma WrapAround(mc: Machine, key: seq<byte>, k: nat)
    requires Supported(mc) && |key| == 4
    ensures k >= mc.size ==> KeyAt(key, k - mc.size) == KeyAt(key, k)
  {
    assert (k - mc.size) % 4 == k % 4;
  }

  // ------------------------------------------------------------- methods

  lemma KeyIndex(key: seq<byte>, k: nat)
    requires |key| == 4
    ensures KeyAt(key, k) == key[k % 4] && (k + 1) % 4 == (k % 4 + 1) % 4
  {
  }

  lemma KeySame(key: seq<byte>, j: nat, k: nat)
    requires |key| == 4 && j % 4 == k % 4
    ensures KeyAt(key, j) == KeyAt(key, k)
  {
  }

  /** byte_mask; input and output may be the same buffer. */
  method ByteMask(input: array<byte>, output: array<byte>, length: nat, key: seq<byte>, offset: nat)
    requires |key| == 4 && length <= input.Length && length <= output.Length
    modifies output
    ensures output[..length] == Masked(old(input[..length]), key, offset)
    ensures output[length..] == old(output[length..])
  {
    ghost var want := Masked(input[..length], key, offset);
    hide Xor, KeyAt;
    assert forall k | 0 <= k < length :: want[k] == Xor(input[k], KeyAt(key, offset + k));
    hide Masked;
    var index := offset % 4;
    for i := 0 to length
      invariant index == (offset + i) % 4
      invariant forall k | 0 <= k < i :: output[k] == want[k]
      invariant forall k | i <= k < output.Length :: output[k] == old(output[k])
      invariant forall k | i <= k < length :: input[k] == old(input[k])
    {
      KeyIndex(key, offset + i);
      output[i] := Xor(input[i], key[index]);
      index := (index + 1) % 4;
    }
    assert output[..length] == want;
  }

  /** One word of input XORed with the prepared key, whose bytes lie in memory as m. */
  method MaskWord(input: array<byte>, output: array<byte>, at: nat, m: seq<byte>)
    requires at + |m| <= input.Length && at + |m| <= output.Length
    modifies output
    ensures forall k | 0 <= k < output.Length ::
      output[k] == if at <= k < at + |m| then Xor(old(input[k]), m[k - at]) else old(output[k])
  {
    hide Xor;
    for i := 0 to |m|
      invariant forall k | 0 <= k < output.Length ::
        output[k] == if at <= k < at + i then Xor(old(input[k]), m[k - at]) else old(output[k])
      invariant forall k | at + i <= k < at + |m| :: input[k] == old(input[k])
    {
      output[at + i] := Xor(input[at + i], m[i]);
    }
  }

  /** The word loop: n words from the front. */
  method MaskWords(mc: Machine, input: array<byte>, output: array<byte>, n: nat, prepared: Number, ghost key: seq<byte>)
    requires Periodic(mc, prepared, key) && WordsEnd(mc, n) <= input.Length && WordsEnd(mc, n) <= output.Length
    modifies output
    ensures forall k | 0 <= k < output.Length ::
      output[k] == if k < WordsEnd(mc, n) then Xor(old(input[k]), KeyAt(key, k)) else old(output[k])
  {
    WordsStart(mc);
    hide Xor, Memory, KeyAt, WordsEnd, Aligned;
    var m := Memory(mc, prepared);
    var at := 0;
    for i := 0 to n
      invariant at == WordsEnd(mc, i) <= WordsEnd(mc, n) && Aligned(at)
      invariant forall k | 0 <= k < output.Length ::
        output[k] == if k < at then Xor(old(input[k]), KeyAt(key, k)) else old(output[k])
      invariant forall k | at <= k < input.Length :: input[k] == old(input[k])
    {
      WordWithin(mc, i, n);
      WordKey(m, key, at);
      MaskWord(input, output, at, m);
      at := at + mc.size;
    }
  }

  /** At a multiple of four the repeated key starts over. */
  lemma WordKey(m: seq<byte>, key: seq<byte>, at: nat)
    requires |key| == 4 && Aligned(at) && forall i | 0 <= i < |m| :: m[i] == KeyAt(key, i)
    ensures forall k | at <= k < at + |m| :: m[k - at] == KeyAt(key, k)
  {
    forall k | at <= k < at + |m| ensures m[k - at] == KeyAt(key, k) {
      assert (k - at) % 4 == k % 4;
      KeySame(key, k - at, k);
    }
  }

  /** Where the first n words end. */
  function WordsEnd(mc: Machine, n: nat): nat { n * mc.size }

  predicate Aligned(at: nat) { at % 4 == 0 }

  lemma WordsStart(mc: Machine)
    ensures WordsEnd(mc, 0) == 0 && Aligned(0)
  {
  }

  lemma WordWithin(mc: Machine, i: nat, n: nat)
    requires Supported(mc) && i < n
    ensures WordsEnd(mc, i + 1) == WordsEnd(mc, i) + mc.size <= WordsEnd(mc, n)
    ensures Aligned(WordsEnd(mc, i)) ==> Aligned(WordsEnd(mc, i + 1))
  {
    if mc.size == 8 { assert (i + 1) * 8 <= n * 8; } else { assert (i + 1) * 4 <= n * 4; }
  }

  lemma WholeWords(mc: Machine, length: nat)
    requires Supported(mc)
    ensures var w := WordsEnd(mc, length / mc.size);
      w <= length < w + mc.size && Aligned(w) && (length - w) % 4 == length % 4
  {
    if mc.size == 8 { assert length / 8 * 8 <= length; } else { assert length / 4 * 4 <= length; }
  }

  lemma MaskedFrom(out: seq<byte>, s: seq<byte>, key: seq<byte>, length: nat)
    requires |key| == 4 && length <= |s| && length <= |out|
    requires forall k | 0 <= k < length :: out[k] == Xor(s[k], KeyAt(key, k))
    ensures out[..length] == Masked(s[..length], key, 0)
  {
    hide Xor;
  }

  lemma KeyFrom(key: seq<byte>, at: nat, i: nat)
    requires |key| == 4 && Aligned(at)
    ensures KeyAt(key, at + i) == KeyAt(key, i)
  {
    assert (at + i) % 4 == i % 4;
  }

  /** word_mask_exact. */
  method WordMaskExact(mc: Machine, input: array<byte>, output: array<byte>, length: nat, key: seq<byte>)
    requires Supported(mc) && |key| == 4 && length <= input.Length && length <= output.Length
    modifies output
    ensures output[..length] == Masked(old(input[..length]), key, 0)
    ensures output[length..] == old(output[length..])
  {
    hide Xor, Prepare, KeyAt;
    PrepareMemory(mc, key);
    WholeWords(mc, length);
    hide WordsEnd;
    var n := length / mc.size;
    MaskWords(mc, input, output, n, Prepare(mc, key), key);
    for i := WordsEnd(mc, n) to length
      invariant forall k | 0 <= k < output.Length ::
        output[k] == if k < i then Xor(old(input[k]), KeyAt(key, k)) else old(output[k])
      invariant forall k | i <= k < length :: input[k] == old(input[k])
    {
      KeyIndex(key, i);
      output[i] := Xor(input[i], key[i % 4]);
    }
    MaskedFrom(output[..], old(input[..]), key, length);
    assert old(input[..])[..length] == old(input[..length]);
  }

  /** word_mask_circ: whole words, then the bytes left over; returns the key for the next chunk. */
  method WordMaskCirc(mc: Machine, input: array<byte>, output: array<byte>, length: nat, prepared: Number, clears: bool,
                      ghost key: seq<byte>)
    returns (next: Number)
    requires Periodic(mc, prepared, key) && length <= input.Length && length <= output.Length
    modifies output
    ensures output[..length] == Masked(old(input[..length]), key, 0)
    ensures output[length..] == old(output[length..])
    ensures Periodic(mc, next, Rotated(key, length % 4))
  {
    hide Xor, Circshift, Masked, Rotated, Memory, KeyAt;
    WholeWords(mc, length);
    hide WordsEnd, Aligned;
    var n := length / mc.size;
    var l := length - WordsEnd(mc, n);
    MaskWords(mc, input, output, n, prepared, key);
    var start := length - l;
    var byteKey := Memory(mc, prepared);
    for i := 0 to l
      invariant forall k | 0 <= k < output.Length ::
        output[k] == if k < start + i then Xor(old(input[k]), KeyAt(key, k)) else old(output[k])
      invariant forall k | start + i <= k < length :: input[k] == old(input[k])
    {
      KeyFrom(key, start, i);
      output[start + i] := Xor(input[start + i], byteKey[i]);
    }
    MaskedFrom(output[..], old(input[..]), key, length);
    assert old(input[..])[..length] == old(input[..length]);
    CircshiftPeriodic(mc, prepared, key, l, clears);
    next := Circshift(mc, prepared, l, clears);
  }

  /** The union's bytes after assigning the word to its 32-bit member: the low four bytes, in memory order. */
  function LowKey(mc: Machine, w: Number): (r: seq<byte>)
    requires |w| >= 4
    ensures |r| == 4
  {
    Memory(mc, w[..4])
  }

  lemma LowKeyPeriodic(mc: Machine, w: Number, key: seq<byte>)
    requires Periodic(mc, w, key)
    ensures LowKey(mc, w) == key
  {
    var m := Memory(mc, w);
    if !mc.little {
      forall i | 0 <= i < 4 ensures LowKey(mc, w)[i] == key[i] {
        assert LowKey(mc, w)[i] == w[3 - i] == m[mc.size - 4 + i];
      }
    } else {
      forall i | 0 <= i < 4 ensures LowKey(mc, w)[i] == key[i] { assert m[i] == KeyAt(key, i); }
    }
  }

  /** byte_mask_circ. */
  method ByteMaskCirc(mc: Machine, input: array<byte>, output: array<byte>, length: nat, prepared: Number, clears: bool,
                      ghost key: seq<byte>)
    returns (next: Number)
    requires Periodic(mc, prepared, key) && length <= input.Length && length <= output.Length
    modifies output
    ensures output[..length] == Masked(old(input[..length]), key, 0)
    ensures output[length..] == old(output[length..])
    ensures Periodic(mc, next, Rotated(key, length % 4))
  {
    hide Xor, Circshift, Masked, Rotated, LowKey, KeyAt;
    LowKeyPeriodic(mc, prepared, key);
    var c := LowKey(mc, prepared);
    for i := 0 to length
      invariant forall k | 0 <= k < output.Length ::
        output[k] == if k < i then Xor(old(input[k]), KeyAt(key, k)) else old(output[k])
      invariant forall k | i <= k < length :: input[k] == old(input[k])
    {
      KeyIndex(key, i);
      output[i] := Xor(input[i], c[i % 4]);
    }
    MaskedFrom(output[..], old(input[..]), key, length);
    assert old(input[..])[..length] == old(input[..length]);
    assert length % 4 % 4 == length % 4;
    CircshiftPeriodic(mc, prepared, key, length % 4, clears);
    next := Circshift(mc, prepared, length % 4, clears);
  }

  // ------------------------------------------------------------- chunks

  /** A message masked in place chunk by chunk, by words or by bytes as words says, feeding back the returned key, is
      the message masked byte by byte at once. */
  method MaskChunks(mc: Machine, chunks: seq<seq<byte>>, words: seq<bool>, clears: bool, key: seq<byte>)
    returns (r: seq<byte>)
    requires Supported(mc) && |key| == 4 && |words| == |chunks|
    ensures r == Masked(Concat(chunks), key, 0)
  {
    hide Xor, Masked, Prepare, Periodic, KeyAt;
    PrepareMemory(mc, key);
    var w := Prepare(mc, key);
    r := [];
    ghost var done: nat := 0;
    assert Rotated(key, 0) == key;
    EmptyMask(key, Concat(chunks));
    for i := 0 to |chunks|
      invariant |r| == done && Periodic(mc, w, Rotated(key, done % 4))
      invariant Masked(Concat(chunks), key, 0) == r + Masked(Concat(chunks[i..]), key, done)
    {
      var c := chunks[i];
      ghost var rest, k := Concat(chunks[i + 1..]), Rotated(key, done % 4);
      assert chunks[i..][1..] == chunks[i + 1..];
      var buffer := new byte[|c|](j requires 0 <= j < |c| => c[j]);
      assert buffer[..|c|] == c;
      if words[i] { w := WordMaskCirc(mc, buffer, buffer, |c|, w, clears, k); }
      else { w := ByteMaskCirc(mc, buffer, buffer, |c|, w, clears, k); }
      NextChunk(r, c, rest, key, done);
      RotateTwice(key, done, |c|);
      r := r + buffer[..|c|];
      done := done + |c|;
    }
    NothingLeft(key, done, r);
  }

  lemma NextChunk(r: seq<byte>, c: seq<byte>, rest: seq<byte>, key: seq<byte>, done: nat)
    requires |key| == 4
    ensures r + Masked(c + rest, key, done) == r + Masked(c, Rotated(key, done % 4), 0) + Masked(rest, key, done + |c|)
  {
    hide Masked, Rotated;
    MaskedJoin(c, rest, key, done);
    MaskedRotated(c, key, done);
  }

  lemma EmptyMask(key: seq<byte>, s: seq<byte>)
    requires |key| == 4
    ensures Masked(s, key, 0) == [] + Masked(s, key, 0)
  {
  }

  lemma NothingLeft(key: seq<byte>, done: nat, r: seq<byte>)
    requires |key| == 4
    ensures r + Masked([], key, done) == r
  {
  }

  lemma RotateTwice(key: seq<byte>, a: nat, b: nat)
    requires |key| == 4
    ensures Rotated(Rotated(key, a % 4), b % 4) == Rotated(key, (a + b) % 4)
  {
    hide KeyAt, Rotated;
    forall i | 0 <= i < 4 ensures Rotated(Rotated(key, a % 4), b % 4)[i] == Rotated(key, (a + b) % 4)[i] {
      RotateTwiceAt(key, a, b, i);
    }
  }

  lemma RotateTwiceAt(key: seq<byte>, a: nat, b: nat, i: nat)
    requires |key| == 4 && i < 4
    ensures Rotated(Rotated(key, a % 4), b % 4)[i] == Rotated(key, (a + b) % 4)[i]
  {
    hide KeyAt, Rotated;
    RotatedAt(Rotated(key, a % 4), b, i);
    RotatedAt(key, a + b, i);
    RotatedAt(key, a, b + i);
    assert a + (b + i) == a + b + i;
    KeyIndex(Rotated(Rotated(key, a % 4), b % 4), i);
    KeyIndex(Rotated(key, (a + b) % 4), i);
  }
}
