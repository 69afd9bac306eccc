/** Base64 (RFC 4648, section 4) through the three- and four-byte buffers of websocketpp. */
module Base64 {
  import opened Bytes

  const PAD: byte := 61
  const NPOS: byte := 255   // std::string::npos cast to unsigned char

  /** base64_chars[k]. */
  function Char(k: nat): (c: byte)
    requires k < 64
    ensures IsBase64(c)
  {
    if k < 26 then 65 + k else if k < 52 then 71 + k else if k < 62 then k - 4 else if k == 62 then 43 else 47
  }

  /** base64_chars.find(c), cast to unsigned char. */
  function Find(c: byte): byte {
    if 65 <= c <= 90 then c - 65
    else if 97 <= c <= 122 then c - 71
    else if 48 <= c <= 57 then c + 4
    else if c == 43 then 62
    else if c == 47 then 63
    else NPOS
  }

  predicate IsBase64(c: byte) { c == 43 || 47 <= c <= 57 || 65 <= c <= 90 || 97 <= c <= 122 }

  /** The accepted characters are those of the alphabet, each looked up at its own place; any other one is not found. */
  lemma AlphabetExactly(c: byte)
    ensures IsBase64(c) <==> exists k | 0 <= k < 64 :: Char(k) == c
    ensures if IsBase64(c) then Find(c) < 64 && Char(Find(c)) == c else Find(c) == NPOS
  {
    if IsBase64(c) { assert Char(Find(c)) == c; }
  }

  lemma FindChar(k: nat)
    requires k < 64
    ensures Find(Char(k)) == k
  {
  }

  // ------------------------------------------------------------- encoding

  /** Three octets as four groups of six bits. */
  function Sextets(a: byte, b: byte, c: byte): (q: seq<byte>)
    ensures |q| == 4 && forall i | 0 <= i < 4 :: q[i] < 64
  {
    [a / 4, Cross4(a, b), Cross2(b, c), c % 64]
  }

  /** The low two bits of a with the high four of b. */
  function Cross4(a: byte, b: byte): (s: byte)
    ensures s < 64
  {
    16 * (a % 4) + b / 16
  }

  /** The low four bits of b with the high two of c. */
  function Cross2(b: byte, c: byte): (s: byte)
    ensures s < 64
  {
    4 * (b % 16) + c / 64
  }

  function Quad(a: byte, b: byte, c: byte): (q: Text)
    ensures |q| == 4 && forall i | 0 <= i < 4 :: IsBase64(q[i])
  {
    var s := Sextets(a, b, c);
    [Char(s[0]), Char(s[1]), Char(s[2]), Char(s[3])]
  }

  function Encoded(x: Text): Text {
    if x == [] then []
    else if |x| == 1 then Quad(x[0], 0, 0)[..2] + [PAD, PAD]
    else if |x| == 2 then Quad(x[0], x[1], 0)[..3] + [PAD]
    else Quad(x[0], x[1], x[2]) + Encoded(x[3..])
  }

  /** Four output characters for every three octets, rounded up. */
  lemma {:induction false} EncodedLength(x: Text)
    ensures |Encoded(x)| == 4 * ((|x| + 2) / 3)
    decreases |x|
  {
    hide Quad;
    if |x| >= 3 {
      EncodedLength(x[3..]);
      assert (|x| - 3 + 2) / 3 + 1 == (|x| + 2) / 3;
    }
  }

  lemma {:induction false} EncodedStep(x: Text, k: nat)
    requires k + 3 <= |x| && k % 3 == 0
    ensures Encoded(x[..k + 3]) == Encoded(x[..k]) + Quad(x[k], x[k + 1], x[k + 2])
    decreases k
  {
    hide Quad;
    if k == 0 {
      assert x[..3][3..] == [];
    } else {
      EncodedStep(x[3..], k - 3);
      assert x[3..][..k] == x[..k + 3][3..] && x[3..][..k - 3] == x[..k][3..];
    }
  }

  lemma {:induction false} EncodedTail(x: Text, k: nat)
    requires k <= |x| && k % 3 == 0
    ensures Encoded(x) == Encoded(x[..k]) + Encoded(x[k..])
    decreases k
  {
    hide Quad;
    if k == 0 {
      assert x[..0] == [] && x[0..] == x;
    } else {
      var y := x[3..];
      EncodedTail(y, k - 3);
      assert y[..k - 3] == x[..k][3..] && y[k - 3..] == x[k..];
      EncodedFront(x);
      EncodedFront(x[..k]);
      hide Encoded;
    }
  }

  lemma EncodedFront(x: Text)
    requires |x| >= 3
    ensures Encoded(x) == Quad(x[0], x[1], x[2]) + Encoded(x[3..])
  {
  }

  /** base64_encode. */
  method Encode(input: Text) returns (ret: Text)
    ensures ret == Encoded(input)
  {
    hide Encoded, Quad, Sextets;
    ret := [];
    EncodedEmpty();
    assert input[..0] == [];
    var three := new byte[3];
    var four := new byte[4];
    var i := 0;
    var pos := 0;
    while pos < |input|
      invariant pos <= |input| && 0 <= i < 3 && i <= pos && (pos - i) % 3 == 0
      invariant ret == Encoded(input[..pos - i])
      invariant forall k | 0 <= k < i :: three[k] == input[pos - i + k]
    {
      three[i] := input[pos];
      i, pos := i + 1, pos + 1;
      if i == 3 {
        Fill4(three, four);
        QuadChars(three[0], three[1], three[2]);
        EncodedStep(input, pos - 3);
        assert input[..pos - 3 + 3] == input[..pos];
        ret := PushChars(ret, four, 4);
        i := 0;
      }
    }
    EncodedTail(input, |input| - i);
    var rest := input[|input| - i..];
    if i == 0 {
      EncodedEmpty();
      assert input[..|input|] == input;
    } else {
      var was := i;
      for j := i to 3
        invariant forall k | 0 <= k < was :: three[k] == rest[k]
        invariant forall k | was <= k < j :: three[k] == 0
      {
        three[j] := 0;
      }
      Fill4(three, four);
      QuadChars(three[0], three[1], three[2]);
      ret := PushChars(ret, four, i + 1);
      while i < 3
        invariant was <= i <= 3
        invariant ret == Encoded(input[..|input| - was]) + Quad(three[0], three[1], three[2])[..was + 1] + Pads(i - was)
      {
        ret := ret + [PAD];
        i := i + 1;
      }
      PartialQuad(rest, three[0], three[1], three[2]);
      assert ret == Encoded(input[..|input| - was]) + (Quad(three[0], three[1], three[2])[..was + 1] + Pads(3 - was));
    }
  }

  function Pads(n: nat): (s: Text)
    ensures |s| == n
  {
    seq(n, _ => PAD)
  }

  lemma QuadChars(a: byte, b: byte, c: byte)
    ensures CharsOf(Sextets(a, b, c)) == Quad(a, b, c) == Quad(a, b, c)[..4]
  {
  }

  lemma EncodedEmpty()
    ensures Encoded([]) == []
  {
  }

  lemma PartialQuad(rest: Text, a: byte, b: byte, c: byte)
    requires 1 <= |rest| <= 2 && a == rest[0] && (|rest| == 2 ==> b == rest[1]) && (|rest| == 1 ==> b == 0) && c == 0
    ensures Encoded(rest) == Quad(a, b, c)[..|rest| + 1] + Pads(3 - |rest|)
  {
  }

  /** The four sextets of the three buffered octets. */
  method Fill4(three: array<byte>, four: array<byte>)
    requires three.Length == 3 && four.Length == 4
    modifies four
    ensures four[..] == Sextets(three[0], three[1], three[2])
    ensures three != four ==> three[..] == old(three[..])
  {
    var a, b, c := three[0], three[1], three[2];
    four[0] := a / 4;
    four[1] := Cross4(a, b);
    four[2] := Cross2(b, c);
    four[3] := c % 64;
  }

  method PushChars(ret: Text, four: array<byte>, n: nat) returns (r: Text)
    requires four.Length == 4 && n <= 4 && forall k | 0 <= k < 4 :: four[k] < 64
    ensures r == ret + CharsOf(four[..])[..n]
  {
    r := ret;
    for k := 0 to n
      invariant r == ret + CharsOf(four[..])[..k]
    {
      r := r + [Char(four[k])];
      assert CharsOf(four[..])[..k + 1] == CharsOf(four[..])[..k] + [Char(four[k])];
    }
  }

  function CharsOf(q: seq<byte>): (s: Text)
    requires forall k | 0 <= k < |q| :: q[k] < 64
    ensures |s| == |q|
  {
    seq(|q|, k requires 0 <= k < |q| => Char(q[k]))
  }

  // ------------------------------------------------------------- decoding

  /** Four looked-up values as three octets, in unsigned char arithmetic. */
  function Octets(a: byte, b: byte, c: byte, d: byte): (t: Text)
    ensures |t| == 3
  {
    [First(a, b), Second(b, c), Third(c, d)]
  }

  function First(a: byte, b: byte): byte { (4 * a + b / 16 % 4) % 256 }

  function Second(b: byte, c: byte): byte { 16 * (b % 16) + c / 4 % 16 }

  function Third(c: byte, d: byte): byte { (64 * (c % 4) + d) % 256 }

  /** The looked-up octets of a group of r <= 4 characters; missing ones are looked up as a zero character. */
  function Group(s: Text): (t: Text)
    requires |s| <= 4
    ensures |t| == 3
  {
    Octets(Find(At(s, 0)), Find(At(s, 1)), Find(At(s, 2)), Find(At(s, 3)))
  }

  function At(s: Text, k: nat): byte { if k < |s| then s[k] else 0 }

  predicate Stops(s: Text) { s == [] || s[0] == PAD || !IsBase64(s[0]) }

  /** The characters before the first that is no base64 character. */
  function Leading(s: Text): (t: Text)
    ensures |t| <= |s| && t == s[..|t|] && Stops(s[|t|..]) && forall c | c in t :: IsBase64(c) && c != PAD
  {
    if Stops(s) then []
    else
      var t := Leading(s[1..]);
      assert s == [s[0]] + s[1..];
      assert s[1 + |t|..] == s[1..][|t|..];
      [s[0]] + t
  }

  /** Octets of a run of base64 characters: three for every four, one less than the characters left over. */
  function DecodedRun(s: Text): Text {
    if s == [] then []
    else if |s| < 4 then Group(s)[..|s| - 1]
    else Group(s[..4]) + DecodedRun(s[4..])
  }

  function Decoded(s: Text): Text { DecodedRun(Leading(s)) }

  lemma {:induction false} RunStep(s: Text, k: nat)
    requires k + 4 <= |s| && k % 4 == 0
    ensures DecodedRun(s[..k + 4]) == DecodedRun(s[..k]) + Group(s[k..k + 4])
    decreases k
  {
    hide Group;
    if k == 0 {
      assert s[..4][..4] == s[0..4] && s[..4][4..] == [];
    } else {
      RunStep(s[4..], k - 4);
      assert s[4..][..k] == s[..k + 4][4..] && s[4..][..k - 4] == s[..k][4..] && s[4..][k - 4..k] == s[k..k + 4];
      assert s[..k + 4][..4] == s[..k][..4];
    }
  }

  lemma {:induction false} RunTail(s: Text, k: nat)
    requires k <= |s| && k % 4 == 0
    ensures DecodedRun(s) == DecodedRun(s[..k]) + DecodedRun(s[k..])
    decreases k
  {
    hide Group;
    if k == 0 {
      assert s[..0] == [] && s[0..] == s;
    } else {
      var y := s[4..];
      RunTail(y, k - 4);
      assert y[..k - 4] == s[..k][4..] && y[k - 4..] == s[k..] && s[..k][..4] == s[..4];
      RunFront(s);
      RunFront(s[..k]);
      hide DecodedRun;
    }
  }

  lemma RunFront(s: Text)
    requires |s| >= 4
    ensures DecodedRun(s) == Group(s[..4]) + DecodedRun(s[4..])
  {
  }

  /** The buffered characters are looked up in place, then packed into three octets. */
  method Fill3(four: array<byte>, three: array<byte>, ghost s: Text)
    requires four.Length == 4 && three.Length == 3 && four != three && |s| <= 4
    requires forall k | 0 <= k < 4 :: four[k] == At(s, k)
    modifies four, three
    ensures three[..] == Group(s)
  {
    for k := 0 to 4
      invariant forall j | 0 <= j < 4 :: four[j] == if j < k then Find(At(s, j)) else At(s, j)
    {
      four[k] := Find(four[k]);
    }
    three[0] := First(four[0], four[1]);
    three[1] := Second(four[1], four[2]);
    three[2] := Third(four[2], four[3]);
  }

  /** base64_decode. */
  method Decode(input: Text) returns (ret: Text)
    ensures ret == Decoded(input)
  {
    ghost var run := Leading(input);
    assert Decoded(input) == DecodedRun(run);
    hide *;
    var four := new byte[4];
    var three := new byte[3];
    var groups, i := DecodeGroups(four, three, input);
    ret := groups;
    ghost var start := |run| - i;
    RunTail(run, start);
    if i > 0 {
      var tail := DecodeTail(four, three, i, run[start..]);
      ret := ret + tail;
    } else {
      RunEmpty();
      assert run[start..] == [];
    }
  }

  /** The full groups of four base64 characters; i characters are left over in the buffer. */
  method DecodeGroups(four: array<byte>, three: array<byte>, input: Text) returns (ret: Text, i: nat)
    requires four.Length == 4 && three.Length == 3 && four != three
    modifies four, three
    ensures i < 4 && i <= |Leading(input)| && (|Leading(input)| - i) % 4 == 0
    ensures ret == DecodedRun(Leading(input)[..|Leading(input)| - i])
    ensures forall k | 0 <= k < i :: four[k] == Leading(input)[|Leading(input)| - i + k]
  {
    ghost var run := Leading(input);
    hide *;
    ret := [];
    RunEmpty();
    i := 0;
    var pos := 0;
    ghost var start := 0;
    while pos < |input| && input[pos] != PAD && IsBase64(input[pos])
      invariant 0 <= i < 4 && start % 4 == 0 && start + i == pos <= |run| <= |input|
      invariant ret == DecodedRun(run[..start])
      invariant forall k | 0 <= k < i :: four[k] == run[start + k]
      decreases |input| - pos
    {
      LeadingAt(input, pos);
      four[i] := input[pos];
      i, pos := i + 1, pos + 1;
      if i == 4 {
        var t := DecodeGroup(four, three, run, start);
        ret := ret + t;
        i := 0;
        start := start + 4;
      }
    }
    LeadingEnds(input, pos);
  }

  /** The characters left over, padded with zeros: one octet less than characters. */
  method DecodeTail(four: array<byte>, three: array<byte>, i: nat, ghost rest: Text) returns (t: Text)
    requires four.Length == 4 && three.Length == 3 && four != three && 1 <= i < 4 && |rest| == i
    requires forall k | 0 <= k < i :: four[k] == rest[k]
    modifies four, three
    ensures t == DecodedRun(rest)
  {
    hide *;
    for j := i to 4
      invariant forall k | 0 <= k < i :: four[k] == rest[k]
      invariant forall k | i <= k < j :: four[k] == 0
    {
      four[j] := 0;
    }
    AtWithin(rest, i);
    Fill3(four, three, rest);
    PartialGroup(rest);
    t := three[..i - 1];
  }

  /** A full group of four characters is decoded. */
  method DecodeGroup(four: array<byte>, three: array<byte>, ghost run: Text, ghost k: nat) returns (t: Text)
    requires four.Length == 4 && three.Length == 3 && four != three && k + 4 <= |run| && k % 4 == 0
    requires forall j | 0 <= j < 4 :: four[j] == run[k + j]
    modifies four, three
    ensures DecodedRun(run[..k + 4]) == DecodedRun(run[..k]) + t
  {
    hide *;
    ghost var s := run[k..k + 4];
    AtWithin(s, 4);
    Fill3(four, three, s);
    RunStep(run, k);
    t := three[..];
  }

  lemma RunEmpty()
    ensures DecodedRun([]) == []
  {
  }

  lemma AtWithin(s: Text, n: nat)
    requires |s| == n
    ensures forall k | 0 <= k < n :: At(s, k) == s[k]
    ensures forall k | n <= k :: At(s, k) == 0
  {
  }

  lemma PartialGroup(s: Text)
    requires 1 <= |s| < 4
    ensures DecodedRun(s) == Group(s)[..|s| - 1]
  {
  }

  lemma {:induction false} LeadingAt(s: Text, k: nat)
    requires k < |s| && k <= |Leading(s)| && s[k] != PAD && IsBase64(s[k])
    ensures k < |Leading(s)| && Leading(s)[k] == s[k]
  {
    if k > 0 { LeadingAt(s[1..], k - 1); }
  }

  lemma {:induction false} LeadingEnds(s: Text, k: nat)
    requires k <= |Leading(s)| && (k < |s| ==> s[k] == PAD || !IsBase64(s[k]))
    ensures k == |Leading(s)|
  {
    if k > 0 { LeadingEnds(s[1..], k - 1); }
  }

  // ------------------------------------------------------------- round trip

  function Unpadded(x: Text): Text {
    if x == [] then []
    else if |x| == 1 then Quad(x[0], 0, 0)[..2]
    else if |x| == 2 then Quad(x[0], x[1], 0)[..3]
    else Quad(x[0], x[1], x[2]) + Unpadded(x[3..])
  }

  lemma QuadGroup(a: byte, b: byte, c: byte)
    ensures Group(Quad(a, b, c)) == [a, b, c]
  {
    SextetsBack(a, b, c);
    QuadFind(a, b, c);
    hide Quad, Sextets, Find, Octets;
  }

  /** Characters left out of a group of four are looked up as 255. */
  lemma PartGroup(q: Text, v: seq<byte>, n: nat)
    requires (n == 2 || n == 3) && |q| == 4 == |v|
    requires forall k | 0 <= k < 4 :: Find(q[k]) == v[k]
    ensures Group(q[..n]) == Octets(v[0], v[1], if n == 3 then v[2] else NPOS, NPOS)
  {
    assert Find(0) == NPOS;
    hide Find, Octets;
    assert At(q[..n], 3) == 0 && (n == 2 ==> At(q[..n], 2) == 0);
  }

  lemma QuadFind(a: byte, b: byte, c: byte)
    ensures forall k | 0 <= k < 4 :: Find(Quad(a, b, c)[k]) == Sextets(a, b, c)[k]
  {
    var s := Sextets(a, b, c);
    hide Char, Find, Sextets;
    FindChar(s[0]);
    FindChar(s[1]);
    FindChar(s[2]);
    FindChar(s[3]);
  }

  lemma FirstOctet(a: byte, b: byte)
    ensures First(a / 4, Cross4(a, b)) == a
  {
  }

  lemma SecondOctet(a: byte, b: byte, c: byte)
    ensures Second(Cross4(a, b), Cross2(b, c)) == b
  {
    assert Cross4(a, b) % 16 == b / 16 && Cross2(b, c) / 4 % 16 == b % 16;
  }

  lemma ThirdOctet(b: byte, c: byte)
    ensures Third(Cross2(b, c), c % 64) == c
  {
    assert Cross2(b, c) % 4 == c / 64;
  }

  lemma SextetsBack(a: byte, b: byte, c: byte)
    ensures var s := Sextets(a, b, c);
      Octets(s[0], s[1], s[2], s[3]) == [a, b, c]
      && Octets(s[0], s[1], s[2], NPOS)[..2] == [a, b] && Octets(s[0], s[1], NPOS, NPOS)[..1] == [a]
  {
    hide First, Second, Third, Cross4, Cross2;
    FirstOctet(a, b);
    SecondOctet(a, b, c);
    ThirdOctet(b, c);
  }

  lemma {:induction false} UnpaddedDecodes(x: Text)
    ensures DecodedRun(Unpadded(x)) == x
    decreases |x|
  {
    hide Group, Quad, Sextets, Octets, Find;
    if |x| == 1 || |x| == 2 {
      var b := if |x| == 1 then 0 else x[1];
      SextetsBack(x[0], b, 0);
      QuadFind(x[0], b, 0);
      PartGroup(Quad(x[0], b, 0), Sextets(x[0], b, 0), |x| + 1);
      assert x == [x[0], b][..|x|];
    } else if |x| >= 3 {
      QuadGroup(x[0], x[1], x[2]);
      UnpaddedDecodes(x[3..]);
      var q := Quad(x[0], x[1], x[2]);
      assert Unpadded(x)[..4] == q && Unpadded(x)[4..] == Unpadded(x[3..]);
      assert x == [x[0], x[1], x[2]] + x[3..];
    }
  }

  lemma {:induction false} EncodedPads(x: Text)
    ensures exists n: nat :: Encoded(x) == Unpadded(x) + Pads(n)
    ensures forall c | c in Unpadded(x) :: IsBase64(c) && c != PAD
    decreases |x|
  {
    hide Quad;
    if x == [] {
      assert Encoded(x) == Unpadded(x) + Pads(0);
    } else if |x| == 1 {
      assert [PAD, PAD] == Pads(2);
    } else if |x| == 2 {
      assert [PAD] == Pads(1);
    } else {
      EncodedPads(x[3..]);
      var n: nat :| Encoded(x[3..]) == Unpadded(x[3..]) + Pads(n);
      assert Encoded(x) == Unpadded(x) + Pads(n);
    }
  }

  lemma {:induction false} LeadingPads(s: Text, n: nat)
    requires forall c | c in s :: IsBase64(c) && c != PAD
    ensures Leading(s + Pads(n)) == s
  {
    if s == [] {
      assert s + Pads(n) == Pads(n);
    } else {
      assert s[0] in s && forall c | c in s[1..] :: c in s;
      LeadingPads(s[1..], n);
      assert (s + Pads(n))[0] == s[0] && (s + Pads(n))[1..] == s[1..] + Pads(n);
    }
  }

  /** Decoding what was encoded gives every byte string back. */
  lemma {:induction false} RoundTrip(x: Text)
    ensures Decoded(Encoded(x)) == x
  {
    EncodedPads(x);
    var n: nat :| Encoded(x) == Unpadded(x) + Pads(n);
    LeadingPads(Unpadded(x), n);
    UnpaddedDecodes(x);
  }

  method EncodeThenDecode(x: Text) returns (y: Text)
    ensures y == x
  {
    RoundTrip(x);
    var s := Encode(x);
    y := Decode(s);
  }

  /** The alphabet: from A to Z, a to z and 0 to 9 in their order, then + and /. */
  lemma Alphabet()
    ensures [Char(0), Char(25), Char(26), Char(51), Char(52), Char(61), Char(62), Char(63)] == Ascii("AZaz09+/")
    ensures forall k | 0 <= k < 61 && k != 25 && k != 51 :: Char(k + 1) == Char(k) + 1
  {
  }

  /** Test vectors of section 10 of RFC 4648, and one that uses both signs. */
  lemma EncodedExamples()
    ensures Encoded([]) == [] && Encoded(Ascii("f")) == Ascii("Zg==") && Encoded(Ascii("fo")) == Ascii("Zm8=")
    ensures Encoded(Ascii("foo")) == Ascii("Zm9v") && Encoded([0xfb, 0xff, 0xbf]) == Ascii("+/+/")
  {
    QuadF();
    QuadFo();
    QuadFoo();
    QuadSigns();
    assert Ascii("f") == [0x66] && Ascii("fo") == [0x66, 0x6f] && Ascii("foo") == [0x66, 0x6f, 0x6f];
    hide Quad;
    assert Ascii("foo")[3..] == [] && [0xfb, 0xff, 0xbf][3..] == [];
  }

  lemma QuadF()
    ensures Quad(0x66, 0, 0) == [90, 103, 65, 65]
  {
  }

  lemma QuadFo()
    ensures Quad(0x66, 0x6f, 0) == [90, 109, 56, 65]
  {
  }

  lemma QuadFoo()
    ensures Quad(0x66, 0x6f, 0x6f) == [90, 109, 57, 118]
  {
  }

  lemma QuadSigns()
    ensures Quad(0xfb, 0xff, 0xbf) == [43, 47, 43, 47]
  {
  }
}
