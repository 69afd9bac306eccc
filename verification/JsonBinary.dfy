/** The CBOR (RFC 7049) and MessagePack codecs of basic_json. */
module JsonBinary {
  import opened Bytes
  import opened JsonValue
  import opened Numbers
  import opened Sequences

  datatype Codec = Cbor | MessagePack

  /** The first bytes of an item: a complete scalar, or the length of what follows. */
  datatype Head =
    | HNull
    | HBoolean(b: bool)
    | HNat(u: uint64)
    | HInt(i: int64)
    | HFloat(bits: uint64)
    | HText(len: nat)
    | HArray(len: nat)
    | HMap(len: nat)

  // ------------------------------------------------------------ byte strings

  /** The low n bytes of x in two's complement, most significant first. */
  function BigEndian(n: nat, x: int): (s: Text)
    ensures |s| == n
  {
    if n == 0 then [] else BigEndian(n - 1, x / 256) + [x % 256]
  }

  function FromBigEndian(s: Text): nat {
    if s == [] then 0 else FromBigEndian(s[..|s| - 1]) * 256 + s[|s| - 1]
  }

  lemma ModProduct(x: int, p: int)
    requires p > 0
    ensures x % (256 * p) == (x / 256) % p * 256 + x % 256
  {
    var q, r := x / 256, x % 256;
    var a, b := q / p, q % p;
    assert x == (256 * p) * a + (b * 256 + r) by { assert q == p * a + b; }
    assert 0 <= b * 256 + r < 256 * p;
    ModUnique(x, 256 * p, a, b * 256 + r);
  }

  lemma {:induction false} BigEndianValue(n: nat, x: int)
    ensures FromBigEndian(BigEndian(n, x)) == x % Pow256(n)
  {
    if n > 0 {
      var s := BigEndian(n, x);
      assert s[..|s| - 1] == BigEndian(n - 1, x / 256);
      BigEndianValue(n - 1, x / 256);
      ModProduct(x, Pow256(n - 1));
    }
  }

  lemma {:induction false} FromBigEndianBound(s: Text)
    ensures FromBigEndian(s) < Pow256(|s|)
  {
    if s != [] { FromBigEndianBound(s[..|s| - 1]); }
  }

  lemma Widths()
    ensures Pow256(1) == 0x100 && Pow256(2) == 0x1_0000 && Pow256(4) == 0x1_0000_0000 && Pow256(8) == TWO64
  {
    assert Pow256(4) == 256 * (256 * (256 * (256 * Pow256(0))));
    assert Pow256(6) == 256 * (256 * Pow256(4));
  }

  // -------------------------------------------------------------------- heads

  /** Initial byte plus the shortest argument form, as RFC 7049 section 3.9 asks. */
  function CborHead(major: byte, n: nat): Text
    requires major <= 0xa0
  {
    if n <= 0x17 then [major + n]
    else if n <= 0xff then [major + 0x18] + BigEndian(1, n)
    else if n <= 0xffff then [major + 0x19] + BigEndian(2, n)
    else if n <= 0xffff_ffff then [major + 0x1a] + BigEndian(4, n)
    else [major + 0x1b] + BigEndian(8, n)
  }

  function EncodeCborHead(h: Head): Text {
    match h
    case HNull => [0xf6]
    case HBoolean(b) => [if b then 0xf5 else 0xf4]
    case HNat(u) => CborHead(0x00, u)
    case HInt(i) => if i >= 0 then CborHead(0x00, i) else CborHead(0x20, -1 - i)
    case HFloat(bits) => [0xfb] + BigEndian(8, bits)
    case HText(n) => CborHead(0x60, n)
    case HArray(n) => CborHead(0x80, n)
    case HMap(n) => CborHead(0xa0, n)
  }

  function MessagePackNat(u: nat): Text {
    if u < 128 then [u]
    else if u <= 0xff then [0xcc] + BigEndian(1, u)
    else if u <= 0xffff then [0xcd] + BigEndian(2, u)
    else if u <= 0xffff_ffff then [0xce] + BigEndian(4, u)
    else [0xcf] + BigEndian(8, u)
  }

  /** A length of 2^32 or more gets no head at all. */
  function EncodeMessagePackHead(h: Head): Text {
    match h
    case HNull => [0xc0]
    case HBoolean(b) => [if b then 0xc3 else 0xc2]
    case HNat(u) => MessagePackNat(u)
    case HInt(i) =>
      if i >= 0 then MessagePackNat(i)
      else if i >= -32 then BigEndian(1, i)
      else if i >= -0x80 then [0xd0] + BigEndian(1, i)
      else if i >= -0x8000 then [0xd1] + BigEndian(2, i)
      else if i >= -0x8000_0000 then [0xd2] + BigEndian(4, i)
      else [0xd3] + BigEndian(8, i)
    case HFloat(bits) => [0xcb] + BigEndian(8, bits)
    case HText(n) =>
      if n <= 31 then [0xa0 + n]
      else if n <= 0xff then [0xd9] + BigEndian(1, n)
      else if n <= 0xffff then [0xda] + BigEndian(2, n)
      else if n <= 0xffff_ffff then [0xdb] + BigEndian(4, n)
      else []
    case HArray(n) =>
      if n <= 15 then [0x90 + n]
      else if n <= 0xffff then [0xdc] + BigEndian(2, n)
      else if n <= 0xffff_ffff then [0xdd] + BigEndian(4, n)
      else []
    case HMap(n) =>
      if n <= 15 then [0x80 + n]
      else if n <= 0xffff then [0xde] + BigEndian(2, n)
      else if n <= 0xffff_ffff then [0xdf] + BigEndian(4, n)
      else []
  }

  function EncodeHead(c: Codec, h: Head): Text {
    match c case Cbor => EncodeCborHead(h) case MessagePack => EncodeMessagePackHead(h)
  }

  /** get_from_vector: the n bytes behind the current index. */
  function Read(v: Text, idx: nat, n: nat): (r: Result<nat>)
    ensures r.Ok? ==> idx + n + 1 <= |v| && r.value < Pow256(n)
  {
    if idx + n + 1 > |v| then Err(OutOfRange)
    else
      FromBigEndianBound(v[idx + 1..idx + 1 + n]);
      Ok(FromBigEndian(v[idx + 1..idx + 1 + n]))
  }

  /** The argument of a CBOR initial byte and the index behind it. */
  function CborArgument(v: Text, idx: nat, info: nat): (r: Result<(uint64, nat)>)
    requires idx < |v|
    ensures r.Ok? ==> idx < r.value.1 <= |v|
  {
    Widths();
    if info <= 0x17 then Ok((info, idx + 1))
    else if info == 0x18 then var n :- Read(v, idx, 1); Ok((n, idx + 2))
    else if info == 0x19 then var n :- Read(v, idx, 2); Ok((n, idx + 3))
    else if info == 0x1a then var n :- Read(v, idx, 4); Ok((n, idx + 5))
    else if info == 0x1b then var n :- Read(v, idx, 8); Ok((n, idx + 9))
    else Err(InvalidArgument)
  }

  function DecodeCborHead(v: Text, idx: nat): (r: Result<(Head, nat)>)
    ensures r.Ok? ==> idx < r.value.1 <= |v|
  {
    if idx >= |v| then Err(OutOfRange)
    else
      var b := v[idx];
      if b <= 0x1b then var (n, k) :- CborArgument(v, idx, b); Ok((HNat(n), k))
      else if 0x20 <= b <= 0x3b then var (n, k) :- CborArgument(v, idx, b - 0x20); Ok((HInt(-1 - WrapToInt64(n)), k))
      else if 0x60 <= b <= 0x7b then var (n, k) :- CborArgument(v, idx, b - 0x60); Ok((HText(n), k))
      else if 0x80 <= b <= 0x9b then var (n, k) :- CborArgument(v, idx, b - 0x80); Ok((HArray(n), k))
      else if 0xa0 <= b <= 0xbb then var (n, k) :- CborArgument(v, idx, b - 0xa0); Ok((HMap(n), k))
      else if b == 0xf4 then Ok((HBoolean(false), idx + 1))
      else if b == 0xf5 then Ok((HBoolean(true), idx + 1))
      else if b == 0xf6 then Ok((HNull, idx + 1))
      else if b == 0xfb then Widths(); var n :- Read(v, idx, 8); Ok((HFloat(n), idx + 9))
      else Err(InvalidArgument)
  }

  /** Reading n unsigned bytes as a signed number of that width. */
  function Signed(n: nat, x: nat): int {
    if 2 * x < Pow256(n) then x else x - Pow256(n)
  }

  function DecodeMessagePackHead(v: Text, idx: nat): (r: Result<(Head, nat)>)
    ensures r.Ok? ==> idx < r.value.1 <= |v|
  {
    if idx >= |v| then Err(OutOfRange)
    else
      Widths();
      var b := v[idx];
      if b <= 0x7f then Ok((HNat(b), idx + 1))
      else if b <= 0x8f then Ok((HMap(b - 0x80), idx + 1))
      else if b <= 0x9f then Ok((HArray(b - 0x90), idx + 1))
      else if b <= 0xbf then Ok((HText(b - 0xa0), idx + 1))
      else if b >= 0xe0 then Ok((HInt((b as int) - 0x100), idx + 1))
      else if b == 0xc0 then Ok((HNull, idx + 1))
      else if b == 0xc2 then Ok((HBoolean(false), idx + 1))
      else if b == 0xc3 then Ok((HBoolean(true), idx + 1))
      else if b == 0xcb then var n :- Read(v, idx, 8); Ok((HFloat(n), idx + 9))
      else if b == 0xcc then var n :- Read(v, idx, 1); Ok((HNat(n), idx + 2))
      else if b == 0xcd then var n :- Read(v, idx, 2); Ok((HNat(n), idx + 3))
      else if b == 0xce then var n :- Read(v, idx, 4); Ok((HNat(n), idx + 5))
      else if b == 0xcf then var n :- Read(v, idx, 8); Ok((HNat(n), idx + 9))
      else if b == 0xd0 then var n :- Read(v, idx, 1); Ok((HInt(Signed(1, n)), idx + 2))
      else if b == 0xd1 then var n :- Read(v, idx, 2); Ok((HInt(Signed(2, n)), idx + 3))
      else if b == 0xd2 then var n :- Read(v, idx, 4); Ok((HInt(Signed(4, n)), idx + 5))
      else if b == 0xd3 then var n :- Read(v, idx, 8); Ok((HInt(Signed(8, n)), idx + 9))
      else if b == 0xd9 then var n :- Read(v, idx, 1); Ok((HText(n), idx + 2))
      else if b == 0xda then var n :- Read(v, idx, 2); Ok((HText(n), idx + 3))
      else if b == 0xdb then var n :- Read(v, idx, 4); Ok((HText(n), idx + 5))
      else if b == 0xdc then var n :- Read(v, idx, 2); Ok((HArray(n), idx + 3))
      else if b == 0xdd then var n :- Read(v, idx, 4); Ok((HArray(n), idx + 5))
      else if b == 0xde then var n :- Read(v, idx, 2); Ok((HMap(n), idx + 3))
      else if b == 0xdf then var n :- Read(v, idx, 4); Ok((HMap(n), idx + 5))
      else Err(InvalidArgument)
  }

  function DecodeHead(c: Codec, v: Text, idx: nat): (r: Result<(Head, nat)>)
    ensures r.Ok? ==> idx < r.value.1 <= |v|
  {
    match c case Cbor => DecodeCborHead(v, idx) case MessagePack => DecodeMessagePackHead(v, idx)
  }

  /** Exclusive bound on the lengths a codec can write. */
  function Limit(c: Codec): nat { if c.Cbor? then TWO64 else 0x1_0000_0000 }

  predicate HeadFits(c: Codec, h: Head) {
    match h
    case HInt(i) => i < 0
    case HText(n) => n < Limit(c)
    case HArray(n) => n < Limit(c)
    case HMap(n) => n < Limit(c)
    case _ => true
  }

  /** s stands in v at idx. */
  predicate StandsAt(v: Text, idx: nat, s: Text) {
    idx + |s| <= |v| && v[idx..idx + |s|] == s
  }

  lemma StandsSplit(v: Text, idx: nat, s: Text, t: Text)
    requires StandsAt(v, idx, s + t)
    ensures StandsAt(v, idx, s) && StandsAt(v, idx + |s|, t)
  {
    assert v[idx..idx + |s|] == (s + t)[..|s|] && v[idx + |s|..idx + |s + t|] == (s + t)[|s|..];
  }

  lemma ReadBack(v: Text, idx: nat, b: byte, n: nat, x: int)
    requires StandsAt(v, idx, [b] + BigEndian(n, x))
    ensures idx < |v| && v[idx] == b && Read(v, idx, n) == Ok(x % Pow256(n))
  {
    StandsSplit(v, idx, [b], BigEndian(n, x));
    assert v[idx..idx + 1][0] == v[idx];
    BigEndianValue(n, x);
  }

  lemma ReadNat(v: Text, idx: nat, b: byte, n: nat, x: nat)
    requires StandsAt(v, idx, [b] + BigEndian(n, x)) && x < Pow256(n)
    ensures idx < |v| && v[idx] == b && Read(v, idx, n) == Ok(x)
  {
    hide BigEndian, Read;
    ReadBack(v, idx, b, n, x);
    ModUnique(x, Pow256(n), 0, x);
  }

  lemma CborArgumentBack(v: Text, idx: nat, major: byte, n: uint64)
    requires major <= 0xa0 && StandsAt(v, idx, CborHead(major, n))
    ensures idx < |v| && major <= v[idx] <= major + 0x1b
    ensures CborArgument(v, idx, v[idx] - major) == Ok((n, idx + |CborHead(major, n)|))
  {
    hide BigEndian, Read, StandsAt, Pow256;
    Widths();
    if n <= 0x17 {
      OneByteBack(v, idx, major + n);
    } else if n <= 0xff {
      ReadNat(v, idx, major + 0x18, 1, n);
    } else if n <= 0xffff {
      ReadNat(v, idx, major + 0x19, 2, n);
    } else if n <= 0xffff_ffff {
      ReadNat(v, idx, major + 0x1a, 4, n);
    } else {
      ReadNat(v, idx, major + 0x1b, 8, n);
    }
  }

  lemma CborHeadBack(v: Text, idx: nat, h: Head)
    requires HeadFits(Cbor, h) && StandsAt(v, idx, EncodeCborHead(h))
    ensures DecodeCborHead(v, idx) == Ok((h, idx + |EncodeCborHead(h)|))
  {
    hide CborHead, CborArgument, Read, BigEndian;
    match h
    case HNull => assert v[idx..idx + 1][0] == v[idx];
    case HBoolean(_) => assert v[idx..idx + 1][0] == v[idx];
    case HNat(u) => CborArgumentBack(v, idx, 0x00, u);
    case HInt(i) => CborArgumentBack(v, idx, 0x20, -1 - i);
    case HFloat(bits) => Widths(); ReadBack(v, idx, 0xfb, 8, bits);
    case HText(n) => CborArgumentBack(v, idx, 0x60, n);
    case HArray(n) => CborArgumentBack(v, idx, 0x80, n);
    case HMap(n) => CborArgumentBack(v, idx, 0xa0, n);
  }

  lemma SignedBack(n: nat, i: int)
    requires n > 0 && -Pow256(n) <= 2 * i < Pow256(n)
    ensures Signed(n, i % Pow256(n)) == i
  {
    var m := Pow256(n);
    if i >= 0 { ModUnique(i, m, 0, i); } else { ModUnique(i, m, -1, i + m); }
  }

  lemma ReadSigned(v: Text, idx: nat, b: byte, n: nat, i: int)
    requires n > 0 && StandsAt(v, idx, [b] + BigEndian(n, i)) && -Pow256(n) <= 2 * i < Pow256(n)
    ensures idx < |v| && v[idx] == b && Read(v, idx, n).Ok? && Signed(n, Read(v, idx, n).value) == i
  {
    hide BigEndian, Read, Signed;
    ReadBack(v, idx, b, n, i);
    SignedBack(n, i);
  }

  lemma MessagePackIntBack(v: Text, idx: nat, i: int64)
    requires i < 0 && StandsAt(v, idx, EncodeMessagePackHead(HInt(i)))
    ensures DecodeMessagePackHead(v, idx) == Ok((HInt(i), idx + |EncodeMessagePackHead(HInt(i))|))
  {
    hide BigEndian, Read, Signed, StandsAt;
    Widths();
    if i >= -32 {
      OneByte(i);
      ModUnique(i, 256, -1, i + 256);
      OneByteBack(v, idx, i + 256);
    } else if i >= -0x80 {
      ReadSigned(v, idx, 0xd0, 1, i);
    } else if i >= -0x8000 {
      ReadSigned(v, idx, 0xd1, 2, i);
    } else if i >= -0x8000_0000 {
      ReadSigned(v, idx, 0xd2, 4, i);
    } else {
      ReadSigned(v, idx, 0xd3, 8, i);
    }
  }

  lemma OneByte(x: int)
    ensures BigEndian(1, x) == [x % 256]
  {
    assert BigEndian(0, x / 256) == [];
  }

  lemma OneByteBack(v: Text, idx: nat, b: byte)
    requires StandsAt(v, idx, [b])
    ensures idx < |v| && v[idx] == b
  {
    assert v[idx..idx + 1][0] == v[idx];
  }

  lemma MessagePackScalarBack(v: Text, idx: nat, h: Head)
    requires (h.HNull? || h.HBoolean? || h.HNat? || h.HFloat?) && StandsAt(v, idx, EncodeMessagePackHead(h))
    ensures DecodeMessagePackHead(v, idx) == Ok((h, idx + |EncodeMessagePackHead(h)|))
  {
    hide BigEndian, Read, Signed, StandsAt;
    Widths();
    match h
    case HNull => OneByteBack(v, idx, 0xc0);
    case HBoolean(b) => OneByteBack(v, idx, if b then 0xc3 else 0xc2);
    case HFloat(bits) => ReadBack(v, idx, 0xcb, 8, bits);
    case HNat(u) =>
      if u < 128 { OneByteBack(v, idx, u); }
      else if u <= 0xff { ReadBack(v, idx, 0xcc, 1, u); }
      else if u <= 0xffff { ReadBack(v, idx, 0xcd, 2, u); }
      else if u <= 0xffff_ffff { ReadBack(v, idx, 0xce, 4, u); }
      else { ReadBack(v, idx, 0xcf, 8, u); }
  }

  lemma MessagePackTextBack(v: Text, idx: nat, n: nat)
    requires n < Limit(MessagePack) && StandsAt(v, idx, EncodeMessagePackHead(HText(n)))
    ensures DecodeMessagePackHead(v, idx) == Ok((HText(n), idx + |EncodeMessagePackHead(HText(n))|))
  {
    hide BigEndian, Read, Signed, StandsAt;
    Widths();
    if n <= 31 { OneByteBack(v, idx, 0xa0 + n); }
    else if n <= 0xff { ReadBack(v, idx, 0xd9, 1, n); }
    else if n <= 0xffff { ReadBack(v, idx, 0xda, 2, n); }
    else { ReadBack(v, idx, 0xdb, 4, n); }
  }

  lemma MessagePackArrayBack(v: Text, idx: nat, n: nat)
    requires n < Limit(MessagePack) && StandsAt(v, idx, EncodeMessagePackHead(HArray(n)))
    ensures DecodeMessagePackHead(v, idx) == Ok((HArray(n), idx + |EncodeMessagePackHead(HArray(n))|))
  {
    hide BigEndian, Read, Signed, StandsAt;
    Widths();
    if n <= 15 { OneByteBack(v, idx, 0x90 + n); }
    else if n <= 0xffff { ReadBack(v, idx, 0xdc, 2, n); }
    else { ReadBack(v, idx, 0xdd, 4, n); }
  }

  lemma MessagePackMapBack(v: Text, idx: nat, n: nat)
    requires n < Limit(MessagePack) && StandsAt(v, idx, EncodeMessagePackHead(HMap(n)))
    ensures DecodeMessagePackHead(v, idx) == Ok((HMap(n), idx + |EncodeMessagePackHead(HMap(n))|))
  {
    hide BigEndian, Read, Signed, StandsAt;
    Widths();
    if n <= 15 { OneByteBack(v, idx, 0x80 + n); }
    else if n <= 0xffff { ReadBack(v, idx, 0xde, 2, n); }
    else { ReadBack(v, idx, 0xdf, 4, n); }
  }

  /** Heads decode to themselves, whatever stands around them. */
  lemma HeadBack(c: Codec, v: Text, idx: nat, h: Head)
    requires HeadFits(c, h) && StandsAt(v, idx, EncodeHead(c, h))
    ensures DecodeHead(c, v, idx) == Ok((h, idx + |EncodeHead(c, h)|))
  {
    hide EncodeMessagePackHead, DecodeMessagePackHead, EncodeCborHead, DecodeCborHead;
    if c.Cbor? {
      CborHeadBack(v, idx, h);
    } else if h.HInt? {
      MessagePackIntBack(v, idx, h.i);
    } else if h.HText? {
      MessagePackTextBack(v, idx, h.len);
    } else if h.HArray? {
      MessagePackArrayBack(v, idx, h.len);
    } else if h.HMap? {
      MessagePackMapBack(v, idx, h.len);
    } else {
      MessagePackScalarBack(v, idx, h);
    }
  }

  lemma ShortestArgument(v: Text, idx: nat, info: nat, major: byte)
    requires idx < |v| && major <= 0xa0 && CborArgument(v, idx, info).Ok?
    ensures |CborHead(major, CborArgument(v, idx, info).value.0)| <= CborArgument(v, idx, info).value.1 - idx
  {
    hide BigEndian;
    Widths();
  }

  lemma ShortestCborHead(v: Text, idx: nat)
    requires DecodeCborHead(v, idx).Ok? && HeadFits(Cbor, DecodeCborHead(v, idx).value.0)
    ensures var (h, k) := DecodeCborHead(v, idx).value; |EncodeCborHead(h)| <= k - idx
  {
    hide CborHead, CborArgument, BigEndian;
    var b := v[idx];
    if b <= 0x1b { ShortestArgument(v, idx, b, 0x00); }
    if 0x20 <= b <= 0x3b { ShortestArgument(v, idx, b - 0x20, 0x20); }
    if 0x60 <= b <= 0x7b { ShortestArgument(v, idx, b - 0x60, 0x60); }
    if 0x80 <= b <= 0x9b { ShortestArgument(v, idx, b - 0x80, 0x80); }
    if 0xa0 <= b <= 0xbb { ShortestArgument(v, idx, b - 0xa0, 0xa0); }
  }

  lemma ShortestMessagePackHead(v: Text, idx: nat)
    requires DecodeMessagePackHead(v, idx).Ok? && HeadFits(MessagePack, DecodeMessagePackHead(v, idx).value.0)
    ensures var (h, k) := DecodeMessagePackHead(v, idx).value; |EncodeMessagePackHead(h)| <= k - idx
  {
    hide BigEndian, Read;
    Widths();
  }

  /** No accepted head is shorter than the encoder's: integers and lengths use the shortest form. */
  lemma ShortestHead(c: Codec, v: Text, idx: nat)
    requires DecodeHead(c, v, idx).Ok? && HeadFits(c, DecodeHead(c, v, idx).value.0)
    ensures var (h, k) := DecodeHead(c, v, idx).value; |EncodeHead(c, h)| <= k - idx
  {
    hide EncodeMessagePackHead, DecodeMessagePackHead, EncodeCborHead, DecodeCborHead;
    if c.Cbor? { ShortestCborHead(v, idx); } else { ShortestMessagePackHead(v, idx); }
  }

  // ---------------------------------------------------------------- documents

  /** to_cbor_internal and to_msgpack_internal: the bytes appended for j. */
  function Encode(c: Codec, j: Json): Text
    decreases j, 1, 0
  {
    match j
    case Null => EncodeHead(c, HNull)
    case Boolean(b) => EncodeHead(c, HBoolean(b))
    case Integer(i) => EncodeHead(c, HInt(i))
    case Unsigned(u) => EncodeHead(c, HNat(u))
    case Float(bits) => EncodeHead(c, HFloat(bits))
    case String(s) => EncodeText(c, s)
    case Array(a) => EncodeHead(c, HArray(|a|)) + EncodeElements(c, j, 0)
    case Object(m) => EncodeHead(c, HMap(|m|)) + EncodeMembers(c, j, SortedKeys(m.Keys))
  }

  function EncodeText(c: Codec, s: Text): Text { EncodeHead(c, HText(|s|)) + s }

  function EncodeElements(c: Codec, j: Json, i: nat): Text
    requires j.Array? && i <= |j.a|
    decreases j, 0, |j.a| - i
  {
    if i == |j.a| then [] else Encode(c, j.a[i]) + EncodeElements(c, j, i + 1)
  }

  function EncodeMembers(c: Codec, j: Json, ks: seq<Text>): Text
    requires j.Object? && forall k | k in ks :: k in j.m
    decreases j, 0, |ks|
  {
    if ks == [] then [] else EncodeText(c, ks[0]) + (Encode(c, j.m[ks[0]]) + EncodeMembers(c, j, ks[1..]))
  }

  function Left(v: Text, idx: nat): nat { if idx <= |v| then |v| - idx else 0 }

  /** from_cbor_internal and from_msgpack_internal: the value at idx and the advanced index. */
  function Decode(c: Codec, v: Text, idx: nat): (r: Result<(Json, nat)>)
    ensures r.Ok? ==> idx < r.value.1 <= |v|
    decreases Left(v, idx), 0, 0
  {
    var (h, k) :- DecodeHead(c, v, idx);
    match h
    case HNull => Ok((Null, k))
    case HBoolean(b) => Ok((Boolean(b), k))
    case HNat(u) => Ok((Unsigned(u), k))
    case HInt(i) => Ok((Integer(i), k))
    case HFloat(bits) => Ok((FromDouble(bits), k))
    case HText(n) => if k + n > |v| then Err(OutOfRange) else Ok((String(v[k..k + n]), k + n))
    case HArray(n) => var (a, e) :- DecodeElements(c, v, k, n); Ok((Array(a), e))
    case HMap(n) => var (m, e) :- DecodeMembers(c, v, k, n, map[]); Ok((Object(m), e))
  }

  function DecodeElements(c: Codec, v: Text, idx: nat, n: nat): (r: Result<(seq<Json>, nat)>)
    requires idx <= |v|
    ensures r.Ok? ==> idx <= r.value.1 <= |v| && |r.value.0| == n
    decreases Left(v, idx), 1, n
  {
    if n == 0 then Ok(([], idx))
    else
      var (x, k) :- Decode(c, v, idx);
      var (xs, e) :- DecodeElements(c, v, k, n - 1);
      Ok(([x] + xs, e))
  }

  /** n key and value pairs, assigned into m; a key that is no string does not convert to std::string. */
  function DecodeMembers(c: Codec, v: Text, idx: nat, n: nat, m: map<Text, Json>): (r: Result<(map<Text, Json>, nat)>)
    requires idx <= |v|
    ensures r.Ok? ==> idx <= r.value.1 <= |v|
    decreases Left(v, idx), 1, n
  {
    if n == 0 then Ok((m, idx))
    else
      var (key, k) :- Decode(c, v, idx);
      if !key.String? then Err(DomainError)
      else
        var (x, e) :- Decode(c, v, k);
        DecodeMembers(c, v, e, n - 1, m[key.s := x])
  }

  /** Every string, array and object is short enough for the codec's length forms. */
  predicate Fits(c: Codec, j: Json) {
    match j
    case String(s) => |s| < Limit(c)
    case Array(a) => |a| < Limit(c) && forall i | 0 <= i < |a| :: Fits(c, a[i])
    case Object(m) => |m| < Limit(c) && forall k | k in m :: |k| < Limit(c) && Fits(c, m[k])
    case _ => true
  }

  lemma TextBack(c: Codec, v: Text, idx: nat, s: Text)
    requires |s| < Limit(c) && StandsAt(v, idx, EncodeText(c, s))
    ensures Decode(c, v, idx) == Ok((String(s), idx + |EncodeText(c, s)|))
  {
    hide EncodeHead, DecodeHead;
    StandsSplit(v, idx, EncodeHead(c, HText(|s|)), s);
    HeadBack(c, v, idx, HText(|s|));
  }

  lemma ScalarBack(c: Codec, v: Text, idx: nat, j: Json)
    requires IsPrimitive(j) && !j.String? && StandsAt(v, idx, Encode(c, j))
    ensures Decode(c, v, idx) == Ok((Normalize(j), idx + |Encode(c, j)|))
  {
    hide EncodeCborHead, DecodeCborHead, EncodeMessagePackHead, DecodeMessagePackHead, DecodeHead, StandsAt;
    match j
    case Null => HeadBack(c, v, idx, HNull);
    case Boolean(b) => HeadBack(c, v, idx, HBoolean(b));
    case Integer(i) =>
      if i >= 0 { SameForNat(c, i); HeadBack(c, v, idx, HNat(i)); } else { HeadBack(c, v, idx, HInt(i)); }
    case Unsigned(u) => HeadBack(c, v, idx, HNat(u));
    case Float(bits) => HeadBack(c, v, idx, HFloat(bits));
    case _ =>
  }

  /** The codecs do not tell a non-negative signed integer from an unsigned one. */
  lemma SameForNat(c: Codec, i: int64)
    requires i >= 0
    ensures EncodeHead(c, HInt(i)) == EncodeHead(c, HNat(i))
  {
  }

  lemma {:induction false} DocumentBack(c: Codec, v: Text, idx: nat, j: Json)
    requires Fits(c, j) && StandsAt(v, idx, Encode(c, j))
    ensures Decode(c, v, idx) == Ok((Normalize(j), idx + |Encode(c, j)|))
    decreases j, 1, 0
  {
    hide EncodeHead, DecodeHead, StandsAt;
    if j.String? {
      TextBack(c, v, idx, j.s);
    } else if j.Array? {
      ArrayBack(c, v, idx, j);
    } else if j.Object? {
      ObjectBack(c, v, idx, j);
    } else {
      ScalarBack(c, v, idx, j);
    }
  }

  lemma {:induction false} ArrayBack(c: Codec, v: Text, idx: nat, j: Json)
    requires j.Array? && Fits(c, j) && StandsAt(v, idx, Encode(c, j))
    ensures Decode(c, v, idx) == Ok((Normalize(j), idx + |Encode(c, j)|))
    decreases j, 0, |j.a| + 1
  {
    hide EncodeHead, DecodeHead, EncodeElements, DecodeElements;
    var h, es := EncodeHead(c, HArray(|j.a|)), EncodeElements(c, j, 0);
    StandsSplit(v, idx, h, es);
    HeadBack(c, v, idx, HArray(|j.a|));
    ElementsBack(c, v, idx + |h|, j, 0);
    assert Decode(c, v, idx) == Ok((Array(NormalizedFrom(j, 0)), idx + |h| + |es|));
    hide Decode;
    assert NormalizedFrom(j, 0) == Normalize(j).a;
  }

  lemma ObjectFromMembers(c: Codec, v: Text, idx: nat, k: nat, n: nat)
    requires k <= |v| && DecodeHead(c, v, idx) == Ok((HMap(n), k)) && DecodeMembers(c, v, k, n, map[]).Ok?
    ensures var r := DecodeMembers(c, v, k, n, map[]).value; Decode(c, v, idx) == Ok((Object(r.0), r.1))
  {
    hide DecodeHead, DecodeMembers;
  }

  lemma ObjectEncoding(c: Codec, j: Json)
    requires j.Object? && Fits(c, j)
    ensures Encode(c, j) == EncodeHead(c, HMap(|j.m|)) + EncodeMembers(c, j, SortedKeys(j.m.Keys))
    ensures |SortedKeys(j.m.Keys)| == |j.m| && HeadFits(c, HMap(|j.m|))
    ensures forall k :: k in SortedKeys(j.m.Keys) <==> k in j.m
  {
    hide EncodeHead, EncodeMembers;
    SortedKeysDistinct(j.m.Keys);
    assert |j.m| == |j.m.Keys|;
  }

  lemma {:induction false} ObjectBack(c: Codec, v: Text, idx: nat, j: Json)
    requires j.Object? && Fits(c, j) && StandsAt(v, idx, Encode(c, j))
    ensures Decode(c, v, idx) == Ok((Normalize(j), idx + |Encode(c, j)|))
    decreases j, 0, |SortedKeys(j.m.Keys)| + 2
  {
    hide Encode, EncodeHead, DecodeHead, EncodeMembers, DecodeMembers, SortedKeys, Decode, Normalize, NormalizedAt, Fits,
      Limit, HeadFits, StandsAt;
    ObjectEncoding(c, j);
    var h, ks := EncodeHead(c, HMap(|j.m|)), SortedKeys(j.m.Keys);
    StandsSplit(v, idx, h, EncodeMembers(c, j, ks));
    HeadBack(c, v, idx, HMap(|j.m|));
    AllMembersBack(c, v, idx + |h|, j, ks);
    ObjectFromMembers(c, v, idx, idx + |h|, |j.m|);
  }

  lemma {:induction false} AllMembersBack(c: Codec, v: Text, idx: nat, j: Json, ks: seq<Text>)
    requires j.Object? && (forall k :: k in ks <==> k in j.m) && Fits(c, j)
    requires idx <= |v| && StandsAt(v, idx, EncodeMembers(c, j, ks))
    ensures DecodeMembers(c, v, idx, |ks|, map[]).Ok?
    ensures var r := DecodeMembers(c, v, idx, |ks|, map[]).value;
      Object(r.0) == Normalize(j) && r.1 == idx + |EncodeMembers(c, j, ks)|
    decreases j, 0, |ks| + 1
  {
    hide EncodeMembers, DecodeMembers, Normalize, NormalizedAt, Fits, StandsAt;
    MembersBack(c, v, idx, j, ks, map[]);
    NormalizedAll(j, ks);
  }

  lemma {:induction false} ElementsBack(c: Codec, v: Text, idx: nat, j: Json, i: nat)
    requires j.Array? && i <= |j.a| && Fits(c, j) && idx <= |v| && StandsAt(v, idx, EncodeElements(c, j, i))
    ensures DecodeElements(c, v, idx, |j.a| - i) == Ok((NormalizedFrom(j, i), idx + |EncodeElements(c, j, i)|))
    decreases j, 0, |j.a| - i
  {
    hide Encode, Decode, Normalize;
    if i < |j.a| {
      StandsSplit(v, idx, Encode(c, j.a[i]), EncodeElements(c, j, i + 1));
      DocumentBack(c, v, idx, j.a[i]);
      ElementsBack(c, v, idx + |Encode(c, j.a[i])|, j, i + 1);
      assert NormalizedFrom(j, i) == [Normalize(j.a[i])] + NormalizedFrom(j, i + 1);
    } else {
      assert NormalizedFrom(j, i) == [];
    }
  }

  lemma MemberFits(c: Codec, j: Json, k: Text)
    requires j.Object? && k in j.m && Fits(c, j)
    ensures |k| < Limit(c) && Fits(c, j.m[k])
  {
  }

  /** The first member and the rest. */
  lemma MembersStand(c: Codec, v: Text, idx: nat, j: Json, ks: seq<Text>) returns (at: nat, next: nat)
    requires j.Object? && ks != [] && (forall k | k in ks :: k in j.m) && Fits(c, j)
    requires StandsAt(v, idx, EncodeMembers(c, j, ks))
    ensures StandsAt(v, idx, EncodeText(c, ks[0])) && at == idx + |EncodeText(c, ks[0])|
    ensures StandsAt(v, at, Encode(c, j.m[ks[0]])) && next == at + |Encode(c, j.m[ks[0]])|
    ensures StandsAt(v, next, EncodeMembers(c, j, ks[1..]))
    ensures |ks[0]| < Limit(c) && Fits(c, j.m[ks[0]])
  {
    hide Encode, StandsAt, EncodeText, Fits;
    var k, r := ks[0], EncodeMembers(c, j, ks[1..]);
    MemberFits(c, j, k);
    StandsSplit(v, idx, EncodeText(c, k), Encode(c, j.m[k]) + r);
    at := idx + |EncodeText(c, k)|;
    StandsSplit(v, at, Encode(c, j.m[k]), r);
    next := at + |Encode(c, j.m[k])|;
  }

  lemma {:induction false} MembersBack(c: Codec, v: Text, idx: nat, j: Json, ks: seq<Text>, m: map<Text, Json>)
    requires j.Object? && (forall k | k in ks :: k in j.m) && Fits(c, j)
    requires idx <= |v| && StandsAt(v, idx, EncodeMembers(c, j, ks))
    ensures DecodeMembers(c, v, idx, |ks|, m) == Ok((m + NormalizedAt(j, ks), idx + |EncodeMembers(c, j, ks)|))
    decreases j, 0, |ks|
  {
    hide Encode, Decode, Normalize, EncodeText, StandsAt, Fits;
    if ks != [] {
      var at, end := MembersStand(c, v, idx, j, ks);
      var k := ks[0];
      TextBack(c, v, idx, k);
      DocumentBack(c, v, at, j.m[k]);
      MembersBack(c, v, end, j, ks[1..], m[k := Normalize(j.m[k])]);
      MembersJoin(j, ks, m);
    } else {
      assert m + NormalizedAt(j, ks) == m;
    }
  }

  /** Whatever the bytes, a decoded document fits the codec. */
  lemma {:induction false} DecodedFits(c: Codec, v: Text, idx: nat)
    requires Decode(c, v, idx).Ok?
    ensures Fits(c, Decode(c, v, idx).value.0)
    decreases Left(v, idx), 0, 0
  {
    hide DecodeCborHead, DecodeMessagePackHead, DecodeHead;
    DecodedHeadFits(c, v, idx);
    var (h, k) := DecodeHead(c, v, idx).value;
    if h.HArray? { DecodedElementsFit(c, v, k, h.len); }
    if h.HMap? { DecodedMembersFit(c, v, k, h.len, map[]); }
  }

  lemma DecodedHeadFits(c: Codec, v: Text, idx: nat)
    requires DecodeHead(c, v, idx).Ok?
    ensures var h := DecodeHead(c, v, idx).value.0; !h.HInt? ==> HeadFits(c, h)
  {
    hide Read;
    Widths();
  }

  lemma {:induction false} DecodedElementsFit(c: Codec, v: Text, idx: nat, n: nat)
    requires idx <= |v| && DecodeElements(c, v, idx, n).Ok?
    ensures forall x | x in DecodeElements(c, v, idx, n).value.0 :: Fits(c, x)
    decreases Left(v, idx), 1, n
  {
    hide Fits;
    if n > 0 {
      DecodedFits(c, v, idx);
      DecodedElementsFit(c, v, Decode(c, v, idx).value.1, n - 1);
    }
  }

  ghost predicate MembersFit(c: Codec, m: map<Text, Json>) {
    forall k | k in m :: |k| < Limit(c) && Fits(c, m[k])
  }

  lemma {:induction false} DecodedMembersFit(c: Codec, v: Text, idx: nat, n: nat, m: map<Text, Json>)
    requires idx <= |v| && DecodeMembers(c, v, idx, n, m).Ok? && MembersFit(c, m)
    ensures MembersFit(c, DecodeMembers(c, v, idx, n, m).value.0)
    ensures |DecodeMembers(c, v, idx, n, m).value.0| <= |m| + n
    decreases Left(v, idx), 1, n
  {
    hide Decode, Fits, MembersFit;
    if n > 0 {
      DecodedFits(c, v, idx);
      var (key, k) := Decode(c, v, idx).value;
      DecodedFits(c, v, k);
      var (x, e) := Decode(c, v, k).value;
      MemberAdded(c, m, key, x);
      SizeStep(m, key.s, x);
      DecodedMembersFit(c, v, e, n - 1, m[key.s := x]);
    }
  }

  lemma MemberAdded(c: Codec, m: map<Text, Json>, key: Json, x: Json)
    requires MembersFit(c, m) && key.String? && Fits(c, key) && Fits(c, x)
    ensures MembersFit(c, m[key.s := x])
  {
  }

  lemma SizeStep(m: map<Text, Json>, k: Text, x: Json)
    ensures |m[k := x]| <= |m| + 1
  {
    assert m[k := x].Keys == m.Keys + {k};
    assert |m[k := x].Keys| == |m[k := x]| && |m.Keys| == |m|;
  }

  lemma {:induction false} NormalizeFits(c: Codec, j: Json)
    ensures Fits(c, Normalize(j)) == Fits(c, j)
  {
    match j
    case Array(a) =>
      var n := Normalize(j).a;
      forall i | 0 <= i < |a| ensures n[i] == Normalize(a[i]) && Fits(c, n[i]) == Fits(c, a[i]) { NormalizeFits(c, a[i]); }
      if forall i | 0 <= i < |a| :: Fits(c, a[i]) { assert forall i | 0 <= i < |n| :: Fits(c, n[i]); }
      if forall i | 0 <= i < |n| :: Fits(c, n[i]) { assert forall i | 0 <= i < |a| :: Fits(c, n[i]) && Fits(c, a[i]); }
    case Object(m) =>
      forall k | k in m ensures Fits(c, Normalize(m[k])) == Fits(c, m[k]) { NormalizeFits(c, m[k]); }
      assert Normalize(j).m.Keys == m.Keys;
      assert |Normalize(j).m| == |Normalize(j).m.Keys| == |m.Keys| == |m|;
    case _ =>
  }

  /** Equal documents fit alike. */
  lemma {:induction false} EqFits(c: Codec, x: Json, y: Json)
    requires JsonEq(x, y)
    ensures Fits(c, x) == Fits(c, y)
    decreases x
  {
    match x
    case Array(a) =>
      forall i | 0 <= i < |a| ensures Fits(c, a[i]) == Fits(c, y.a[i]) { EqFits(c, a[i], y.a[i]); }
    case Object(m) =>
      forall k | k in m ensures Fits(c, m[k]) == Fits(c, y.m[k]) { EqFits(c, m[k], y.m[k]); }
      assert |m| == |m.Keys| && |y.m| == |y.m.Keys|;
    case _ =>
  }

  /** Decoding at the start of the encoding of j, with any bytes around it, stops right behind it with j normalized
      exactly when every length fits the codec, and with a document equal to j exactly when also every float is finite. */
  lemma {:induction false} BinaryRoundTrip(c: Codec, before: Text, j: Json, after: Text)
    ensures var r, end := Decode(c, before + Encode(c, j) + after, |before|), |before| + |Encode(c, j)|;
      && (r == Ok((Normalize(j), end)) <==> Fits(c, j))
      && (r.Ok? && JsonEq(r.value.0, j) && r.value.1 == end <==> Fits(c, j) && AllFinite(j))
  {
    hide Encode, Decode, Fits, Normalize, AllFinite, JsonEq;
    var v := before + Encode(c, j) + after;
    var r := Decode(c, v, |before|);
    if Fits(c, j) {
      assert v[|before|..|before| + |Encode(c, j)|] == Encode(c, j);
      DocumentBack(c, v, |before|, j);
      NormalizeEq(j);
    } else if r.Ok? {
      DecodedFits(c, v, |before|);
      NormalizeFits(c, j);
      if JsonEq(r.value.0, j) { EqFits(c, r.value.0, j); }
    }
  }

  /** A document that holds an infinity is written and read without an error, but comes back as null. */
  lemma InfinityBecomesNull(c: Codec)
    ensures Decode(c, Encode(c, Float(INFINITY)), 0) == Ok((Null, |Encode(c, Float(INFINITY))|))
    ensures !JsonEq(Null, Float(INFINITY))
  {
    hide Encode, Decode;
    var s := Encode(c, Float(INFINITY));
    assert [] + s + [] == s;
    BinaryRoundTrip(c, [], Float(INFINITY), []);
  }

  // ------------------------------------------------------------ prefixes

  /** What the encoders see of a document: a non-negative integer is the same signed or unsigned. */
  function Signless(j: Json): Json {
    match j
    case Integer(i) => if i >= 0 then Unsigned(i) else j
    case Array(a) => Array(seq(|a|, i requires 0 <= i < |a| => Signless(a[i])))
    case Object(m) => Object(map k | k in m :: Signless(m[k]))
    case _ => j
  }

  /** The encoders do not tell a non-negative signed integer from an unsigned one, anywhere in a document. */
  lemma {:induction false} EncodeSignless(c: Codec, j: Json)
    ensures Encode(c, Signless(j)) == Encode(c, j)
    decreases j, 1, 0
  {
    hide EncodeHead;
    match j
    case Integer(i) => if i >= 0 { SameForNat(c, i); }
    case Array(a) => SignlessElements(c, j, 0);
    case Object(m) =>
      var n := Signless(j).m;
      assert n.Keys == m.Keys && |n| == |n.Keys| && |m| == |m.Keys|;
      SignlessMembers(c, j, SortedKeys(m.Keys));
    case _ =>
  }

  lemma {:induction false} SignlessElements(c: Codec, j: Json, i: nat)
    requires j.Array? && i <= |j.a|
    ensures EncodeElements(c, Signless(j), i) == EncodeElements(c, j, i)
    decreases j, 0, |j.a| - i
  {
    hide Encode;
    if i < |j.a| {
      assert Signless(j).a[i] == Signless(j.a[i]);
      EncodeSignless(c, j.a[i]);
      SignlessElements(c, j, i + 1);
    }
  }

  lemma {:induction false} SignlessMembers(c: Codec, j: Json, ks: seq<Text>)
    requires j.Object? && forall k | k in ks :: k in j.m
    ensures EncodeMembers(c, Signless(j), ks) == EncodeMembers(c, j, ks)
    decreases j, 0, |ks|
  {
    hide Encode;
    if ks != [] {
      EncodeSignless(c, j.m[ks[0]]);
      SignlessMembers(c, j, ks[1..]);
    }
  }

  /** The head of an encoding. */
  function HeadOf(j: Json): Head {
    match j
    case Null => HNull
    case Boolean(b) => HBoolean(b)
    case Integer(i) => if i >= 0 then HNat(i) else HInt(i)
    case Unsigned(u) => HNat(u)
    case Float(bits) => HFloat(bits)
    case String(s) => HText(|s|)
    case Array(a) => HArray(|a|)
    case Object(m) => HMap(|m|)
  }

  function Behind(c: Codec, j: Json): Text {
    match j
    case String(s) => s
    case Array(a) => EncodeElements(c, j, 0)
    case Object(m) => EncodeMembers(c, j, SortedKeys(m.Keys))
    case _ => []
  }

  lemma HeadFirst(c: Codec, j: Json)
    ensures Encode(c, j) == EncodeHead(c, HeadOf(j)) + Behind(c, j)
  {
    if j.Integer? && j.i >= 0 { SameForNat(c, j.i); }
    hide EncodeHead, EncodeElements, EncodeMembers, SortedKeys;
  }

  lemma ItemHead(c: Codec, v: Text, idx: nat, j: Json) returns (k: nat)
    requires Fits(c, j) && StandsAt(v, idx, Encode(c, j))
    ensures DecodeHead(c, v, idx) == Ok((HeadOf(j), k)) && StandsAt(v, k, Behind(c, j))
  {
    hide EncodeHead, DecodeHead, StandsAt, Behind, Encode;
    var h := HeadOf(j);
    HeadFirst(c, j);
    StandsSplit(v, idx, EncodeHead(c, h), Behind(c, j));
    HeadBack(c, v, idx, h);
    k := idx + |EncodeHead(c, h)|;
  }

  lemma SameText(c: Codec, v: Text, idx: nat, s: Text, t: Text)
    requires |s| < Limit(c) && |t| < Limit(c) && StandsAt(v, idx, EncodeText(c, s)) && StandsAt(v, idx, EncodeText(c, t))
    ensures s == t
  {
    hide Decode;
    TextBack(c, v, idx, s);
    TextBack(c, v, idx, t);
  }

  lemma SameBytes(v: Text, idx: nat, s: Text, t: Text)
    requires StandsAt(v, idx, s) && StandsAt(v, idx, t) && |s| == |t|
    ensures s == t
  {
  }

  /** What stands at one place of a byte string is one document, up to the signedness of integers. */
  lemma {:induction false} SameItem(c: Codec, v: Text, idx: nat, x: Json, y: Json)
    requires Fits(c, x) && Fits(c, y) && StandsAt(v, idx, Encode(c, x)) && StandsAt(v, idx, Encode(c, y))
    ensures Signless(x) == Signless(y)
    decreases x, 1, 0
  {
    hide Encode, StandsAt, DecodeHead, SortedKeys, Fits, EncodeElements, EncodeMembers;
    var k := ItemHead(c, v, idx, x);
    var l := ItemHead(c, v, idx, y);
    assert HeadOf(x) == HeadOf(y) && k == l;
    if x.String? {
      SameBytes(v, k, x.s, y.s);
    } else if x.Array? {
      SameElements(c, v, k, x, y, 0);
      assert Signless(x).a == Signless(y).a;
    } else if x.Object? {
      SameObject(c, v, k, x, y);
    }
  }

  lemma {:induction false} SameObject(c: Codec, v: Text, k: nat, x: Json, y: Json)
    requires x.Object? && y.Object? && |x.m| == |y.m| && Fits(c, x) && Fits(c, y)
    requires StandsAt(v, k, Behind(c, x)) && StandsAt(v, k, Behind(c, y))
    ensures Signless(x) == Signless(y)
    decreases x, 0, |x.m| + 1
  {
    var ks, ls := SortedKeys(x.m.Keys), SortedKeys(y.m.Keys);
    SortedKeysDistinct(x.m.Keys);
    SortedKeysDistinct(y.m.Keys);
    assert |x.m| == |x.m.Keys| && |y.m| == |y.m.Keys|;
    hide StandsAt, Fits, EncodeMembers, SortedKeys, Signless;
    SameMembers(c, v, k, x, y, ks, ls);
    assert forall q :: q in x.m <==> q in ks;
    SignlessObject(x, y);
  }

  lemma SignlessMembersAt(j: Json)
    requires j.Object?
    ensures Signless(j).Object? && (forall k :: k in Signless(j).m <==> k in j.m)
    ensures forall k | k in j.m :: Signless(j).m[k] == Signless(j.m[k])
  {
  }

  lemma SignlessObject(x: Json, y: Json)
    requires x.Object? && y.Object? && (forall k :: k in x.m <==> k in y.m)
    requires forall k | k in x.m :: Signless(x.m[k]) == Signless(y.m[k])
    ensures Signless(x) == Signless(y)
  {
    SignlessMembersAt(x);
    SignlessMembersAt(y);
    var f, g := Signless(x), Signless(y);
    hide Signless;
    assert f.m == g.m;
  }

  lemma {:induction false} SameElements(c: Codec, v: Text, idx: nat, x: Json, y: Json, i: nat)
    requires x.Array? && y.Array? && i <= |x.a| == |y.a| && Fits(c, x) && Fits(c, y)
    requires StandsAt(v, idx, EncodeElements(c, x, i)) && StandsAt(v, idx, EncodeElements(c, y, i))
    ensures forall n | i <= n < |x.a| :: Signless(x.a[n]) == Signless(y.a[n])
    decreases x, 0, |x.a| - i
  {
    hide Encode, Signless, StandsAt;
    if i < |x.a| {
      StandsSplit(v, idx, Encode(c, x.a[i]), EncodeElements(c, x, i + 1));
      StandsSplit(v, idx, Encode(c, y.a[i]), EncodeElements(c, y, i + 1));
      SameItem(c, v, idx, x.a[i], y.a[i]);
      EncodeSignless(c, x.a[i]);
      EncodeSignless(c, y.a[i]);
      SameElements(c, v, idx + |Encode(c, x.a[i])|, x, y, i + 1);
    }
  }

  lemma {:induction false} SameMembers(c: Codec, v: Text, idx: nat, x: Json, y: Json, ks: seq<Text>, ls: seq<Text>)
    requires x.Object? && y.Object? && |ks| == |ls| && Fits(c, x) && Fits(c, y)
    requires (forall k | k in ks :: k in x.m) && forall k | k in ls :: k in y.m
    requires StandsAt(v, idx, EncodeMembers(c, x, ks)) && StandsAt(v, idx, EncodeMembers(c, y, ls))
    ensures ks == ls && forall k | k in ks :: Signless(x.m[k]) == Signless(y.m[k])
    decreases x, 0, |ks|
  {
    hide Encode, Signless, StandsAt, EncodeText, EncodeMembers, Fits;
    if ks != [] {
      var at, next := MembersStand(c, v, idx, x, ks);
      var at', next' := MembersStand(c, v, idx, y, ls);
      var k := ks[0];
      SameText(c, v, idx, k, ls[0]);
      SameItem(c, v, at, x.m[k], y.m[k]);
      EncodeSignless(c, x.m[k]);
      EncodeSignless(c, y.m[k]);
      SameMembers(c, v, next, x, y, ks[1..], ls[1..]);
      assert ks == [k] + ks[1..] && ls == [k] + ls[1..];
    }
  }

  /** No encoding is a proper prefix of another, and only documents that differ in the signedness of non-negative
      integers at most are encoded alike. */
  lemma {:induction false} PrefixFree(c: Codec, x: Json, y: Json)
    requires Fits(c, x) && Fits(c, y)
    ensures Encode(c, x) <= Encode(c, y) <==> Signless(x) == Signless(y)
    ensures Encode(c, x) <= Encode(c, y) ==> Encode(c, x) == Encode(c, y)
  {
    hide Encode, Fits, Signless;
    EncodeSignless(c, x);
    EncodeSignless(c, y);
    if Encode(c, x) <= Encode(c, y) { SameItem(c, Encode(c, y), 0, x, y); }
  }

  // ------------------------------------------- writing and reading in place

  lemma BigEndianStep(n: nat, x: int)
    ensures BigEndian(n + 1, x) == BigEndian(n, x / 256) + [x % 256]
    ensures BigEndian(0, x) == []
  {
  }

  lemma FourBytes(x: int)
    ensures BigEndian(1, x) == [x % 256]
    ensures BigEndian(2, x) == [x / 0x100 % 256, x % 256]
    ensures BigEndian(4, x) == [x / 0x100_0000 % 256, x / 0x1_0000 % 256, x / 0x100 % 256, x % 256]
  {
    hide BigEndian;
    var y, z := x / 0x100, x / 0x1_0000;
    assert y / 0x100 == z && z / 0x100 == x / 0x100_0000;
    BigEndianStep(3, x); BigEndianStep(2, y); BigEndianStep(1, z); BigEndianStep(0, z / 0x100);
    BigEndianStep(1, x); BigEndianStep(0, x); BigEndianStep(0, y);
    BigEndianStep(0, y / 0x100); BigEndianStep(0, z / 0x100 / 0x100);
  }

  lemma {:induction false} EightBytes(x: int)
    ensures BigEndian(8, x) == BigEndian(4, x / 0x1_0000_0000) + BigEndian(4, x)
  {
    hide BigEndian;
    var y, z, w := x / 0x100, x / 0x1_0000, x / 0x100_0000;
    assert y / 0x100 == z && z / 0x100 == w && w / 0x100 == x / 0x1_0000_0000;
    BigEndianStep(7, x); BigEndianStep(6, y); BigEndianStep(5, z); BigEndianStep(4, w);
    FourBytes(x);
    var h := BigEndian(4, x / 0x1_0000_0000);
    assert w % 256 == x / 0x100_0000 % 256;
    assert BigEndian(8, x) == h + [w % 256] + [z % 256] + [y % 256] + [x % 256];
  }

  function TopBytes(x: int): Text {
    [x / 0x100_0000_0000_0000 % 256, x / 0x1_0000_0000_0000 % 256, x / 0x100_0000_0000 % 256, x / 0x1_0000_0000 % 256]
  }

  function MiddleBytes(x: int): Text { [x / 0x100_0000 % 256, x / 0x1_0000 % 256] }

  lemma Spread(a: int, b: int, u: int, w: int)
    ensures a * (b * u + w) == (b * a) * u + a * w
  {
    assert a * (b * u) == (b * a) * u;
  }

  lemma ShiftTwice(x: int, a: int, b: int)
    requires a > 0 && b > 0
    ensures x / a / b == x / (b * a)
  {
    var q, r := x / a, x % a;
    var u, w := q / b, q % b;
    Spread(a, b, u, w);
    Gap(a, b, w);
    ModUnique(x, b * a, u, a * w + r);
  }

  lemma TopShifts(x: int)
    ensures BigEndian(4, x / 0x1_0000_0000) == TopBytes(x)
  {
    FourBytes(x / 0x1_0000_0000);
    ShiftTwice(x, 0x1_0000_0000, 0x100);
    ShiftTwice(x, 0x1_0000_0000, 0x1_0000);
    ShiftTwice(x, 0x1_0000_0000, 0x100_0000);
    hide BigEndian;
  }

  /** The bytes of each width, most significant first, by the shifts that pick them out. */
  lemma WidthBytes(bytes: nat, x: int)
    requires bytes == 1 || bytes == 2 || bytes == 4 || bytes == 8
    ensures var low := [x / 0x100 % 256];
      BigEndian(bytes, x) == (if bytes == 8 then TopBytes(x) + MiddleBytes(x) + low
        else if bytes == 4 then [] + MiddleBytes(x) + low else if bytes == 2 then [] + low else []) + [x % 256]
  {
    hide BigEndian, TopBytes;
    FourBytes(x);
    if bytes == 8 {
      EightBytes(x);
      TopShifts(x);
      assert TopBytes(x) + MiddleBytes(x) + [x / 0x100 % 256] + [x % 256]
        == TopBytes(x) + (MiddleBytes(x) + [x / 0x100 % 256] + [x % 256]);
    }
  }

  /** A std::vector<uint8_t> that the encoders append to. */
  class ByteVector {
    var data: Text

    constructor ()
      ensures data == []
    {
      data := [];
    }

    method PushBack(b: byte)
      modifies this
      ensures data == old(data) + [b]
    {
      data := data + [b];
    }

    method AddToVector(bytes: nat, number: int)
      requires bytes == 1 || bytes == 2 || bytes == 4 || bytes == 8
      modifies this
      ensures data == old(data) + BigEndian(bytes, number)
    {
      hide BigEndian;
      ghost var was, x4, x2, x1 := data, TopBytes(number), MiddleBytes(number), [number / 0x100 % 256];
      if bytes == 8 {
        PushBack(number / 0x100_0000_0000_0000 % 256);
        PushBack(number / 0x1_0000_0000_0000 % 256);
        PushBack(number / 0x100_0000_0000 % 256);
        PushBack(number / 0x1_0000_0000 % 256);
      }
      ghost var s8 := if bytes == 8 then x4 else [];
      assert data == was + s8;
      if bytes >= 4 {
        PushBack(number / 0x100_0000 % 256);
        PushBack(number / 0x1_0000 % 256);
      }
      ghost var s4 := if bytes >= 4 then s8 + x2 else [];
      assert data == was + s4;
      if bytes >= 2 {
        PushBack(number / 0x100 % 256);
      }
      PushBack(number % 256);
      ghost var s2 := if bytes >= 2 then s4 + x1 else [];
      assert data == was + (s2 + [number % 256]);
      WidthBytes(bytes, number);
    }

    method PutTagged(tag: byte, bytes: nat, number: int)
      requires bytes == 1 || bytes == 2 || bytes == 4 || bytes == 8
      modifies this
      ensures data == old(data) + ([tag] + BigEndian(bytes, number))
    {
      PushBack(tag);
      AddToVector(bytes, number);
    }

    method PutCborHead(major: byte, n: nat)
      requires major <= 0xa0
      modifies this
      ensures data == old(data) + CborHead(major, n)
    {
      hide BigEndian;
      if n <= 0x17 { PushBack(major + n); }
      else if n <= 0xff { PutTagged(major + 0x18, 1, n); }
      else if n <= 0xffff { PutTagged(major + 0x19, 2, n); }
      else if n <= 0xffff_ffff { PutTagged(major + 0x1a, 4, n); }
      else { PutTagged(major + 0x1b, 8, n); }
    }

    method PutCbor(h: Head)
      modifies this
      ensures data == old(data) + EncodeCborHead(h)
    {
      hide BigEndian, CborHead;
      match h
      case HNull => PushBack(0xf6);
      case HBoolean(b) => PushBack(if b then 0xf5 else 0xf4);
      case HNat(u) => PutCborHead(0x00, u);
      case HInt(i) => if i >= 0 { PutCborHead(0x00, i); } else { PutCborHead(0x20, -1 - i); }
      case HFloat(bits) => PutTagged(0xfb, 8, bits);
      case HText(n) => PutCborHead(0x60, n);
      case HArray(n) => PutCborHead(0x80, n);
      case HMap(n) => PutCborHead(0xa0, n);
    }

    method PutMessagePackNat(u: nat)
      modifies this
      ensures data == old(data) + MessagePackNat(u)
    {
      hide BigEndian;
      if u < 128 { PushBack(u); }
      else if u <= 0xff { PutTagged(0xcc, 1, u); }
      else if u <= 0xffff { PutTagged(0xcd, 2, u); }
      else if u <= 0xffff_ffff { PutTagged(0xce, 4, u); }
      else { PutTagged(0xcf, 8, u); }
    }

    method PutMessagePackInt(i: int64)
      modifies this
      ensures data == old(data) + EncodeMessagePackHead(HInt(i))
    {
      hide BigEndian, MessagePackNat;
      if i >= 0 { PutMessagePackNat(i); }
      else if i >= -32 { AddToVector(1, i); }
      else if i >= -0x80 { PutTagged(0xd0, 1, i); }
      else if i >= -0x8000 { PutTagged(0xd1, 2, i); }
      else if i >= -0x8000_0000 { PutTagged(0xd2, 4, i); }
      else { PutTagged(0xd3, 8, i); }
    }

    /** A length: fix forms up to fix, then the given tags; without an 8-bit tag the 16-bit form follows at once. */
    method PutMessagePackLength(h: Head)
      requires h.HText? || h.HArray? || h.HMap?
      modifies this
      ensures data == old(data) + EncodeMessagePackHead(h)
    {
      hide BigEndian;
      ghost var was := data;
      match h
      case HText(n) =>
        if n <= 31 { PushBack(0xa0 + n); }
        else if n <= 0xff { PutTagged(0xd9, 1, n); }
        else if n <= 0xffff { PutTagged(0xda, 2, n); }
        else if n <= 0xffff_ffff { PutTagged(0xdb, 4, n); }
        else { assert was + [] == was; }
      case HArray(n) =>
        if n <= 15 { PushBack(0x90 + n); }
        else if n <= 0xffff { PutTagged(0xdc, 2, n); }
        else if n <= 0xffff_ffff { PutTagged(0xdd, 4, n); }
        else { assert was + [] == was; }
      case HMap(n) =>
        if n <= 15 { PushBack(0x80 + n); }
        else if n <= 0xffff { PutTagged(0xde, 2, n); }
        else if n <= 0xffff_ffff { PutTagged(0xdf, 4, n); }
        else { assert was + [] == was; }
    }

    method PutMessagePack(h: Head)
      modifies this
      ensures data == old(data) + EncodeMessagePackHead(h)
    {
      hide BigEndian, MessagePackNat;
      match h
      case HNull => PushBack(0xc0);
      case HBoolean(b) => PushBack(if b then 0xc3 else 0xc2);
      case HNat(u) => PutMessagePackNat(u);
      case HInt(i) => PutMessagePackInt(i);
      case HFloat(bits) => PutTagged(0xcb, 8, bits);
      case _ => PutMessagePackLength(h);
    }

    method Put(c: Codec, h: Head)
      modifies this
      ensures data == old(data) + EncodeHead(c, h)
    {
      if c.Cbor? { PutCbor(h); } else { PutMessagePack(h); }
    }

    method WriteText(c: Codec, s: Text)
      modifies this
      ensures data == old(data) + EncodeText(c, s)
    {
      hide EncodeHead;
      Put(c, HText(|s|));
      data := data + s;
    }

    /** to_cbor_internal and to_msgpack_internal. */
    method Write(c: Codec, j: Json)
      modifies this
      ensures data == old(data) + Encode(c, j)
      decreases j, 1
    {
      hide EncodeHead, EncodeText;
      match j
      case Null => Put(c, HNull);
      case Boolean(b) => Put(c, HBoolean(b));
      case Integer(i) => Put(c, HInt(i));
      case Unsigned(u) => Put(c, HNat(u));
      case Float(bits) => Put(c, HFloat(bits));
      case String(s) => WriteText(c, s);
      case Array(a) => WriteArray(c, j);
      case Object(m) => WriteObject(c, j);
    }

    method WriteArray(c: Codec, j: Json)
      requires j.Array?
      modifies this
      ensures data == old(data) + Encode(c, j)
      decreases j, 0
    {
      hide EncodeHead;
      ghost var was, end := data, data + Encode(c, j);
      Put(c, HArray(|j.a|));
      assert data + EncodeElements(c, j, 0) == end;
      for i := 0 to |j.a|
        invariant data + EncodeElements(c, j, i) == end
      {
        ghost var here := data;
        Write(c, j.a[i]);
        assert EncodeElements(c, j, i) == Encode(c, j.a[i]) + EncodeElements(c, j, i + 1);
        Regroup(here, Encode(c, j.a[i]), EncodeElements(c, j, i + 1));
      }
      assert data + [] == data;
    }

    method WriteObject(c: Codec, j: Json)
      requires j.Object?
      modifies this
      ensures data == old(data) + Encode(c, j)
      decreases j, 0
    {
      hide EncodeHead, EncodeText, SortedKeys;
      ghost var end := data + Encode(c, j);
      Put(c, HMap(|j.m|));
      var ks := SortedKeys(j.m.Keys);
      assert data + EncodeMembers(c, j, ks) == end;
      while ks != []
        invariant forall k | k in ks :: k in j.m
        invariant data + EncodeMembers(c, j, ks) == end
        decreases |ks|
      {
        ghost var here, rest := data, EncodeMembers(c, j, ks[1..]);
        var k := ks[0];
        assert EncodeMembers(c, j, ks) == EncodeText(c, k) + (Encode(c, j.m[k]) + rest);
        WriteText(c, k);
        Regroup(here, EncodeText(c, k), Encode(c, j.m[k]) + rest);
        Write(c, j.m[k]);
        Regroup(here + EncodeText(c, k), Encode(c, j.m[k]), rest);
        ks := ks[1..];
      }
      assert data + [] == data;
    }
  }

  /** get_from_vector: the byte loop over the n bytes behind idx. */
  method GetFromVector(v: Text, idx: nat, n: nat) returns (r: Result<nat>)
    ensures r == Read(v, idx, n)
  {
    if idx + n + 1 > |v| { return Err(OutOfRange); }
    var x: nat, i := 0, 0;
    while i < n
      invariant i <= n && x == FromBigEndian(v[idx + 1..idx + 1 + i])
    {
      assert v[idx + 1..idx + 1 + (i + 1)][..i] == v[idx + 1..idx + 1 + i];
      x := x * 256 + v[idx + 1 + i];
      i := i + 1;
    }
    r := Ok(x);
  }

  /** The value without the index behind it. */
  function First<T>(r: Result<(T, nat)>): Result<T> {
    match r case Ok(p) => Ok(p.0) case Err(e) => Err(e)
  }

  /** How many bytes of a number stand behind a MessagePack initial byte. */
  function MessagePackWidth(b: nat): nat {
    if b == 0xcc || b == 0xd0 || b == 0xd9 then 1
    else if b == 0xcd || b == 0xd1 || b == 0xda || b == 0xdc || b == 0xde then 2
    else if b == 0xce || b == 0xd2 || b == 0xdb || b == 0xdd || b == 0xdf then 4
    else if b == 0xcb || b == 0xcf || b == 0xd3 then 8
    else 0
  }

  /** A byte vector being decoded and the index the decoders advance. */
  class ByteReader {
    const v: Text
    var idx: nat

    constructor (v: Text, idx: nat)
      ensures this.v == v && this.idx == idx
    {
      this.v, this.idx := v, idx;
    }

    /** get_from_vector on the bytes behind the current one, then past them. */
    method NextBytes(n: nat) returns (r: Result<nat>)
      modifies this
      ensures r == Read(v, old(idx), n)
      ensures r.Ok? ==> idx == old(idx) + n + 1
    {
      r := GetFromVector(v, idx, n);
      if r.Ok? { idx := idx + n + 1; }
    }

    /** The argument of the current CBOR initial byte. */
    method NextArgument(info: nat) returns (r: Result<uint64>)
      requires idx < |v|
      modifies this
      ensures r == First(CborArgument(v, old(idx), info))
      ensures r.Ok? ==> idx == CborArgument(v, old(idx), info).value.1
    {
      Widths();
      hide Read, Pow256;
      if info <= 0x17 {
        idx := idx + 1;
        return Ok(info);
      }
      if info > 0x1b { return Err(InvalidArgument); }
      var width: nat := if info == 0x18 then 1 else if info == 0x19 then 2 else if info == 0x1a then 4 else 8;
      var n := NextBytes(width);
      r := if n.Ok? then Ok(n.value) else Err(n.error);
    }

    /** The initial byte of a CBOR item with its argument. */
    method NextCborHead() returns (r: Result<Head>)
      modifies this
      ensures r == First(DecodeCborHead(v, old(idx)))
      ensures r.Ok? ==> idx == DecodeCborHead(v, old(idx)).value.1
    {
      if idx >= |v| { return Err(OutOfRange); }
      Widths();
      hide Read, Pow256, CborArgument, WrapToInt64;
      var b: nat := v[idx];
      if 0xf4 <= b <= 0xf6 {
        idx := idx + 1;
        return Ok(if b == 0xf6 then HNull else HBoolean(b == 0xf5));
      }
      if b == 0xfb {
        var bits := NextBytes(8);
        return if bits.Ok? then Ok(HFloat(bits.value)) else Err(bits.error);
      }
      if b > 0xbb || b % 0x20 > 0x1b || b / 0x20 == 2 { return Err(InvalidArgument); }
      var n := NextArgument(b % 0x20);
      if n.Err? { return Err(n.error); }
      match b / 0x20
      case 0 => r := Ok(HNat(n.value));
      case 1 => r := Ok(HInt(-1 - WrapToInt64(n.value)));
      case 3 => r := Ok(HText(n.value));
      case 4 => r := Ok(HArray(n.value));
      case _ => r := Ok(HMap(n.value));
    }

    /** The initial byte of a MessagePack item with the number behind it. */
    method NextMessagePackHead() returns (r: Result<Head>)
      modifies this
      ensures r == First(DecodeMessagePackHead(v, old(idx)))
      ensures r.Ok? ==> idx == DecodeMessagePackHead(v, old(idx)).value.1
    {
      if idx >= |v| { return Err(OutOfRange); }
      Widths();
      hide Read, Pow256, Signed;
      var b: nat := v[idx];
      var width := MessagePackWidth(b);
      if width == 0 {
        if b == 0xc1 || 0xc4 <= b <= 0xca || 0xd4 <= b <= 0xd8 { return Err(InvalidArgument); }
        idx := idx + 1;
        return Ok(if b <= 0x7f then HNat(b) else if b <= 0x8f then HMap(b - 0x80) else if b <= 0x9f then HArray(b - 0x90)
          else if b <= 0xbf then HText(b - 0xa0) else if b >= 0xe0 then HInt(b - 0x100)
          else if b == 0xc0 then HNull else HBoolean(b == 0xc3));
      }
      var n := NextBytes(width);
      if n.Err? { return Err(n.error); }
      var x := n.value;
      if b == 0xcb { r := Ok(HFloat(x)); }
      else if b <= 0xcf { r := Ok(HNat(x)); }
      else if b <= 0xd3 { r := Ok(HInt(Signed(width, x))); }
      else if b <= 0xdb { r := Ok(HText(x)); }
      else if b <= 0xdd { r := Ok(HArray(x)); }
      else { r := Ok(HMap(x)); }
    }

    method NextHead(c: Codec) returns (r: Result<Head>)
      modifies this
      ensures r == First(DecodeHead(c, v, old(idx)))
      ensures r.Ok? ==> idx == DecodeHead(c, v, old(idx)).value.1
    {
      hide DecodeCborHead, DecodeMessagePackHead;
      match c
      case Cbor => r := NextCborHead();
      case MessagePack => r := NextMessagePackHead();
    }

    /** from_cbor_internal and from_msgpack_internal. */
    method Next(c: Codec) returns (r: Result<Json>)
      modifies this
      ensures r == First(Decode(c, v, old(idx)))
      ensures r.Ok? ==> idx == Decode(c, v, old(idx)).value.1
      decreases Left(v, idx), 0
    {
      hide DecodeHead;
      var head := NextHead(c);
      if head.Err? { return Err(head.error); }
      var k := idx;
      match head.value
      case HNull => r := Ok(Null);
      case HBoolean(b) => r := Ok(Boolean(b));
      case HNat(u) => r := Ok(Unsigned(u));
      case HInt(i) => r := Ok(Integer(i));
      case HFloat(bits) => r := Ok(FromDouble(bits));
      case HText(n) =>
        idx := idx + n;
        r := if k + n > |v| then Err(OutOfRange) else Ok(String(v[k..k + n]));
      case HArray(n) =>
        var es := NextElements(c, n);
        r := if es.Ok? then Ok(Array(es.value)) else Err(es.error);
      case HMap(n) =>
        var ms := NextMembers(c, n);
        r := if ms.Ok? then Ok(Object(ms.value)) else Err(ms.error);
    }

    method NextElements(c: Codec, n: nat) returns (r: Result<seq<Json>>)
      requires idx <= |v|
      modifies this
      ensures r == First(DecodeElements(c, v, old(idx), n))
      ensures r.Ok? ==> idx == DecodeElements(c, v, old(idx), n).value.1
      decreases Left(v, idx), 1
    {
      hide Decode;
      ghost var all := DecodeElements(c, v, idx, n);
      var a: seq<Json> := [];
      assert all.Ok? ==> [] + all.value.0 == all.value.0;
      for i := 0 to n
        invariant old(idx) <= idx <= |v|
        invariant all == Prepend(a, DecodeElements(c, v, idx, n - i))
      {
        PrependStep(c, v, idx, n - i, a);
        var x := Next(c);
        if x.Err? { return Err(x.error); }
        a := a + [x.value];
      }
      r := Ok(a);
      assert a + [] == a;
    }

    method NextMembers(c: Codec, n: nat) returns (r: Result<map<Text, Json>>)
      requires idx <= |v|
      modifies this
      ensures r == First(DecodeMembers(c, v, old(idx), n, map[]))
      ensures r.Ok? ==> idx == DecodeMembers(c, v, old(idx), n, map[]).value.1
      decreases Left(v, idx), 1
    {
      hide Decode;
      ghost var all := DecodeMembers(c, v, idx, n, map[]);
      var m: map<Text, Json> := map[];
      for i := 0 to n
        invariant old(idx) <= idx <= |v|
        invariant all == DecodeMembers(c, v, idx, n - i, m)
      {
        var key := Next(c);
        if key.Err? { return Err(key.error); }
        if !key.value.String? { return Err(DomainError); }
        var x := Next(c);
        if x.Err? { return Err(x.error); }
        m := m[key.value.s := x.value];
      }
      r := Ok(m);
    }
  }

  ghost function Prepend(a: seq<Json>, r: Result<(seq<Json>, nat)>): Result<(seq<Json>, nat)> {
    if r.Ok? then Ok((a + r.value.0, r.value.1)) else r
  }

  lemma PrependStep(c: Codec, v: Text, idx: nat, n: nat, a: seq<Json>)
    requires idx <= |v| && n > 0
    ensures var x := Decode(c, v, idx);
      Prepend(a, DecodeElements(c, v, idx, n)) ==
        if x.Err? then Err(x.error) else Prepend(a + [x.value.0], DecodeElements(c, v, x.value.1, n - 1))
  {
    hide Decode;
    var x := Decode(c, v, idx);
    if x.Ok? {
      var r := DecodeElements(c, v, x.value.1, n - 1);
      if r.Ok? { assert a + ([x.value.0] + r.value.0) == a + [x.value.0] + r.value.0; }
    }
  }

  /** Writing j behind any bytes and reading from there gives j back and leaves the index behind it. */
  method WriteThenRead(c: Codec, before: Text, j: Json) returns (r: Result<Json>, idx: nat)
    ensures r == Ok(Normalize(j)) && idx == |before| + |Encode(c, j)| <==> Fits(c, j)
    ensures r.Ok? && JsonEq(r.value, j) && idx == |before| + |Encode(c, j)| <==> Fits(c, j) && AllFinite(j)
  {
    hide Encode, Decode, Fits, Normalize, AllFinite, JsonEq;
    var w := new ByteVector();
    w.data := before;
    w.Write(c, j);
    var reader := new ByteReader(w.data, |before|);
    r := reader.Next(c);
    idx := reader.idx;
    assert before + Encode(c, j) + [] == before + Encode(c, j);
    BinaryRoundTrip(c, before, j, []);
  }

  // ------------------------------------------------------------ examples

  lemma ShortBytes(a: nat, b: nat)
    requires a < 256 && b < 256
    ensures BigEndian(1, b) == [b] && BigEndian(2, 256 * a + b) == [a, b]
  {
    FourBytes(b);
    FourBytes(256 * a + b);
    hide BigEndian;
  }

  /** Examples of appendix A of RFC 7049: simple values and integers. */
  lemma CborScalars()
    ensures Encode(Cbor, Null) == [0xf6] && Encode(Cbor, Boolean(false)) == [0xf4] && Encode(Cbor, Boolean(true)) == [0xf5]
    ensures Encode(Cbor, Unsigned(0)) == [0x00] && Encode(Cbor, Unsigned(23)) == [0x17] && Encode(Cbor, Unsigned(24)) == [0x18, 0x18]
    ensures Encode(Cbor, Integer(1000)) == [0x19, 0x03, 0xe8] && Encode(Cbor, Integer(-1)) == [0x20]
    ensures Encode(Cbor, Integer(-100)) == [0x38, 0x63] && Encode(Cbor, Integer(-1000)) == [0x39, 0x03, 0xe7]
  {
    ShortBytes(0, 24);
    ShortBytes(3, 0xe8);
    ShortBytes(0, 0x63);
    ShortBytes(3, 0xe7);
    hide BigEndian;
  }

  /** Examples of appendix A of RFC 7049: the float 1.1, a string, arrays and maps. */
  lemma CborContainers()
    ensures Encode(Cbor, Float(0x3ff1_9999_9999_999a)) == [0xfb, 0x3f, 0xf1, 0x99, 0x99, 0x99, 0x99, 0x99, 0x9a]
    ensures Encode(Cbor, String(Ascii("IETF"))) == [0x64, 0x49, 0x45, 0x54, 0x46]
    ensures Encode(Cbor, Array([Unsigned(1), Unsigned(2), Unsigned(3)])) == [0x83, 0x01, 0x02, 0x03]
    ensures Encode(Cbor, Array([])) == [0x80] && Encode(Cbor, Object(map[])) == [0xa0]
  {
    FloatBytes();
    EmptyContainers(Cbor);
    hide BigEndian;
    var j := Array([Unsigned(1), Unsigned(2), Unsigned(3)]);
    assert EncodeElements(Cbor, j, 3) == [];
    assert EncodeElements(Cbor, j, 2) == [0x03] + [];
    assert EncodeElements(Cbor, j, 1) == [0x02] + [0x03];
    assert EncodeElements(Cbor, j, 0) == [0x01] + [0x02, 0x03];
  }

  lemma FloatBytes()
    ensures BigEndian(8, 0x3ff1_9999_9999_999a) == [0x3f, 0xf1, 0x99, 0x99, 0x99, 0x99, 0x99, 0x9a]
  {
    EightBytes(0x3ff1_9999_9999_999a);
    FloatHigh();
    FloatLow();
    hide BigEndian;
  }

  lemma FloatHigh()
    ensures BigEndian(4, 0x3ff1_9999) == [0x3f, 0xf1, 0x99, 0x99]
  {
    FourBytes(0x3ff1_9999);
    hide BigEndian;
  }

  lemma FloatLow()
    ensures BigEndian(4, 0x3ff1_9999_9999_999a) == [0x99, 0x99, 0x99, 0x9a]
  {
    hide BigEndian;
    BigEndianStep(3, 0x3ff1_9999_9999_999a);
    BigEndianStep(2, 0x3f_f199_9999_9999);
    BigEndianStep(1, 0x3ff1_9999_9999);
    BigEndianStep(0, 0x3f_f199_9999);
  }

  lemma EmptyContainers(c: Codec)
    ensures Encode(c, Array([])) == EncodeHead(c, HArray(0)) && Encode(c, Object(map[])) == EncodeHead(c, HMap(0))
  {
    hide EncodeHead;
    assert SortedKeys(Object(map[]).m.Keys) == [];
  }

  /** The first bytes the MessagePack specification lists: nil, booleans and integers. */
  lemma MessagePackScalars()
    ensures Encode(MessagePack, Null) == [0xc0]
    ensures Encode(MessagePack, Boolean(false)) == [0xc2] && Encode(MessagePack, Boolean(true)) == [0xc3]
    ensures Encode(MessagePack, Unsigned(127)) == [0x7f] && Encode(MessagePack, Unsigned(128)) == [0xcc, 0x80]
    ensures Encode(MessagePack, Unsigned(0x100)) == [0xcd, 0x01, 0x00]
    ensures Encode(MessagePack, Integer(-1)) == [0xff] && Encode(MessagePack, Integer(-32)) == [0xe0]
    ensures Encode(MessagePack, Integer(-33)) == [0xd0, 0xdf] && Encode(MessagePack, Integer(-129)) == [0xd1, 0xff, 0x7f]
  {
    ShortBytes(0, 128);
    ShortBytes(1, 0);
    FourBytes(-1);
    FourBytes(-32);
    FourBytes(-33);
    FourBytes(-129);
    hide BigEndian;
  }

  /** The first bytes of MessagePack strings, arrays, maps and floats. */
  lemma MessagePackContainers()
    ensures Encode(MessagePack, String(Ascii("abc"))) == [0xa3, 0x61, 0x62, 0x63]
    ensures Encode(MessagePack, Array([Null])) == [0x91, 0xc0]
    ensures Encode(MessagePack, Array([])) == [0x90] && Encode(MessagePack, Object(map[])) == [0x80]
    ensures Encode(MessagePack, Float(0x3ff1_9999_9999_999a)) == [0xcb, 0x3f, 0xf1, 0x99, 0x99, 0x99, 0x99, 0x99, 0x9a]
  {
    FloatBytes();
    EmptyContainers(MessagePack);
    hide BigEndian;
    assert EncodeElements(MessagePack, Array([Null]), 1) == [];
    assert EncodeElements(MessagePack, Array([Null]), 0) == [0xc0] + [];
  }

  /** Exactly the lengths that fit 32 bits are written, in no more than five bytes. */
  lemma HeadlessLengths(n: nat)
    ensures EncodeHead(MessagePack, HText(n)) == [] <==> n >= TWO32
    ensures EncodeHead(MessagePack, HArray(n)) == [] <==> n >= TWO32
    ensures EncodeHead(MessagePack, HMap(n)) == [] <==> n >= TWO32
    ensures |EncodeHead(MessagePack, HText(n))| <= 5 && |EncodeHead(MessagePack, HArray(n))| <= 5 && |EncodeHead(MessagePack, HMap(n))| <= 5
  {
    assert |BigEndian(1, n)| == 1 && |BigEndian(2, n)| == 2 && |BigEndian(4, n)| == 4;
    hide BigEndian;
  }

  /** Longer MessagePack lengths. */
  lemma MessagePackLengths()
    ensures EncodeHead(MessagePack, HText(32)) == [0xd9, 32] && EncodeHead(MessagePack, HText(0x100)) == [0xda, 1, 0]
    ensures EncodeHead(MessagePack, HArray(16)) == [0xdc, 0, 16] && EncodeHead(MessagePack, HMap(16)) == [0xde, 0, 16]
  {
    ShortBytes(0, 32);
    ShortBytes(1, 0);
    ShortBytes(0, 16);
    hide BigEndian;
  }
}
