/** The table-driven UTF-8 validator of websocketpp, and the JSON lexer's code point encoder. */
module Utf8 {
  import opened Bytes

  // ------------------------------------------- RFC 3629, section 4

  predicate Tail(b: byte) { 0x80 <= b <= 0xbf }

  /** s is one UTF8-char of the grammar. */
  predicate WellFormed(s: Text) {
    match |s|
    case 1 => s[0] <= 0x7f
    case 2 => 0xc2 <= s[0] <= 0xdf && Tail(s[1])
    case 3 =>
      Tail(s[2]) &&
      if s[0] == 0xe0 then 0xa0 <= s[1] <= 0xbf
      else if s[0] == 0xed then 0x80 <= s[1] <= 0x9f
      else 0xe1 <= s[0] <= 0xef && Tail(s[1])
    case 4 =>
      Tail(s[2]) && Tail(s[3]) &&
      if s[0] == 0xf0 then 0x90 <= s[1] <= 0xbf
      else if s[0] == 0xf4 then 0x80 <= s[1] <= 0x8f
      else 0xf1 <= s[0] <= 0xf3 && Tail(s[1])
    case _ => false
  }

  /** The character number a UTF8-char stands for (RFC 3629, section 3). */
  function CodePoint(s: Text): nat
    requires WellFormed(s)
  {
    match |s|
    case 1 => s[0]
    case 2 => 0x40 * Bits(s[0], 0xc0) + Bits(s[1], 0x80)
    case 3 => 0x1000 * Bits(s[0], 0xe0) + 0x40 * Bits(s[1], 0x80) + Bits(s[2], 0x80)
    case _ => 0x4_0000 * Bits(s[0], 0xf0) + 0x1000 * Bits(s[1], 0x80) + 0x40 * Bits(s[2], 0x80) + Bits(s[3], 0x80)
  }

  /** A byte without its marker bits. */
  function Bits(b: byte, marker: byte): nat
    requires marker <= b
  {
    b - marker
  }

  predicate Characters(cs: seq<Text>) { forall c | c in cs :: WellFormed(c) }

  /** s is a UTF8-octets string. */
  ghost predicate Valid(s: Text) { exists cs :: Characters(cs) && Concat(cs) == s }

  // ------------------------------------------------ the automaton

  const ACCEPT: nat := 0
  const REJECT: nat := 1

  /** Rows 00..7f, 80..9f, a0..bf, c0..df, e0..ef and f0..ff of utf8d. */
  function Class(b: byte): (t: nat)
    ensures t < 12
  {
    if b < 0x80 then 0
    else if b < 0x90 then 1
    else if b < 0xa0 then 9
    else if b < 0xc0 then 7
    else if b < 0xc2 then 8
    else if b < 0xe0 then 2
    else if b < 0xf0 then [0xa, 3, 3, 3, 3, 3, 3, 3, 3, 3, 3, 3, 3, 4, 3, 3][b - 0xe0]
    else [0xb, 6, 6, 6, 5, 8, 8, 8, 8, 8, 8, 8, 8, 8, 8, 8][b - 0xf0]
  }

  /** Rows s0 to s8 of utf8d. */
  function Row(state: nat): (row: seq<nat>)
    requires state < 9
    ensures |row| == 16
  {
    match state
    case 0 => [0, 1, 2, 3, 5, 8, 7, 1, 1, 1, 4, 6, 1, 1, 1, 1]
    case 1 => [1, 1, 1, 1, 1, 1, 1, 1, 1, 1, 1, 1, 1, 1, 1, 1]
    case 2 => [1, 0, 1, 1, 1, 1, 1, 0, 1, 0, 1, 1, 1, 1, 1, 1]
    case 3 => [1, 2, 1, 1, 1, 1, 1, 2, 1, 2, 1, 1, 1, 1, 1, 1]
    case 4 => [1, 1, 1, 1, 1, 1, 1, 2, 1, 1, 1, 1, 1, 1, 1, 1]
    case 5 => [1, 2, 1, 1, 1, 1, 1, 1, 1, 2, 1, 1, 1, 1, 1, 1]
    case 6 => [1, 1, 1, 1, 1, 1, 1, 3, 1, 3, 1, 1, 1, 1, 1, 1]
    case 7 => [1, 3, 1, 1, 1, 1, 1, 3, 1, 3, 1, 1, 1, 1, 1, 1]
    case _ => [1, 3, 1, 1, 1, 1, 1, 1, 1, 1, 1, 1, 1, 1, 1, 1]
  }

  datatype Decoder = Decoder(state: nat, codepoint: nat)

  const START := Decoder(ACCEPT, 0)

  /** 0xff >> type, plus one. */
  function Mask(t: nat): (m: nat)
    ensures m > 0
  {
    match t
    case 0 => 0x100
    case 1 => 0x80
    case 2 => 0x40
    case 3 => 0x20
    case 4 => 0x10
    case 5 => 0x08
    case 6 => 0x04
    case 7 => 0x02
    case _ => 0x01
  }

  /** utf8_validator::decode on one byte; the code point is a uint32_t. */
  function Step(d: Decoder, b: byte): Decoder
    requires d.state < 9
  {
    Decoder(Row(d.state)[Class(b)],
            if d.state != ACCEPT then b % 0x40 + d.codepoint * 0x40 % 0x1_0000_0000 else b % Mask(Class(b)))
  }

  /** validator::decode: bytes are consumed until the state is reject. */
  function Run(d: Decoder, s: Text): (r: Decoder)
    requires d.state < 9
    ensures r.state < 9
    decreases |s|
  {
    if s == [] then d
    else
      StateStep(d, s[0]);
      var next := Step(d, s[0]);
      if next.state == REJECT then next else Run(next, s[1..])
  }

  /** The table in terms of the grammar: which bytes each state lets through, and where to. */
  function NextState(state: nat, b: byte): nat
    requires state < 9
  {
    match state
    case 0 =>
      if b <= 0x7f then 0
      else if 0xc2 <= b <= 0xdf then 2
      else if b == 0xe0 then 4
      else if b == 0xed then 5
      else if 0xe1 <= b <= 0xef then 3
      else if b == 0xf0 then 6
      else if b == 0xf4 then 8
      else if 0xf1 <= b <= 0xf3 then 7
      else 1
    case 2 => if Tail(b) then 0 else 1
    case 3 => if Tail(b) then 2 else 1
    case 4 => if 0xa0 <= b <= 0xbf then 2 else 1
    case 5 => if 0x80 <= b <= 0x9f then 2 else 1
    case 6 => if 0x90 <= b <= 0xbf then 3 else 1
    case 7 => if Tail(b) then 3 else 1
    case 8 => if 0x80 <= b <= 0x8f then 3 else 1
    case _ => 1
  }

  lemma StateStep(d: Decoder, b: byte)
    requires d.state < 9
    ensures Step(d, b).state == NextState(d.state, b) < 9
  {
    ClassOf(b);
    RowAt(d.state, Class(b));
  }

  lemma ClassOf(b: byte)
    ensures 0xe0 <= b < 0xf0 ==> Class(b) == (if b == 0xe0 then 0xa else if b == 0xed then 4 else 3)
    ensures 0xf0 <= b ==> Class(b) == (if b == 0xf0 then 0xb else if b < 0xf4 then 6 else if b == 0xf4 then 5 else 8)
  {
  }

  lemma RowAt(state: nat, t: nat)
    requires state < 9 && t < 12
    ensures Row(state)[t] == (match state
      case 0 => if t == 0 then 0 else if t == 2 then 2 else if t == 3 then 3 else if t == 4 then 5
        else if t == 5 then 8 else if t == 6 then 7 else if t == 10 then 4 else if t == 11 then 6 else 1
      case 2 => if t == 1 || t == 7 || t == 9 then 0 else 1
      case 3 => if t == 1 || t == 7 || t == 9 then 2 else 1
      case 4 => if t == 7 then 2 else 1
      case 5 => if t == 1 || t == 9 then 2 else 1
      case 6 => if t == 7 || t == 9 then 3 else 1
      case 7 => if t == 1 || t == 7 || t == 9 then 3 else 1
      case 8 => if t == 1 then 3 else 1
      case _ => 1)
  {
  }

  /** The code points the decoder has completed while running over s. */
  function Emitted(d: Decoder, s: Text): seq<nat>
    requires d.state < 9
    decreases |s|
  {
    if s == [] then []
    else
      StateStep(d, s[0]);
      var next := Step(d, s[0]);
      if next.state == REJECT then []
      else (if next.state == ACCEPT then [next.codepoint] else []) + Emitted(next, s[1..])
  }

  function CodePoints(cs: seq<Text>): (ps: seq<nat>)
    requires Characters(cs)
    ensures |ps| == |cs|
  {
    seq(|cs|, i requires 0 <= i < |cs| => CodePoint(cs[i]))
  }

  lemma LeadByte(d: Decoder, b: byte)
    requires d.state == ACCEPT
    ensures b <= 0x7f ==> Step(d, b) == Decoder(0, b)
    ensures 0xc2 <= b <= 0xdf ==> Step(d, b) == Decoder(2, b as int - 0xc0)
    ensures 0xe0 <= b <= 0xef ==> Step(d, b) == Decoder(if b == 0xe0 then 4 else if b == 0xed then 5 else 3, b as int - 0xe0)
    ensures 0xf0 <= b <= 0xf4 ==> Step(d, b) == Decoder(if b == 0xf0 then 6 else if b == 0xf4 then 8 else 7, b as int - 0xf0)
  {
    StateStep(d, b);
    ClassOf(b);
    hide Row;
  }

  lemma TailByte(d: Decoder, b: byte)
    requires 2 <= d.state < 9 && d.codepoint < 0x400_0000 && Tail(b)
    ensures Step(d, b) == Decoder(NextState(d.state, b), 0x40 * d.codepoint + (b as int - 0x80))
  {
    StateStep(d, b);
    hide Row, Class;
  }

  lemma RunStep(d: Decoder, s: Text, b: byte, t: Text, next: Decoder)
    requires d.state < 9 && s == [b] + t && next == Step(d, b) && next.state != REJECT && next.state < 9
    ensures Run(d, s) == Run(next, t)
    ensures Emitted(d, s) == (if next.state == ACCEPT then [next.codepoint] else []) + Emitted(next, t)
  {
    hide Step;
    assert s[0] == b && s[1..] == t;
  }

  lemma OneByteRun(d: Decoder, b: byte, t: Text)
    requires d.state == ACCEPT && b <= 0x7f
    ensures Run(d, [b] + t) == Run(Decoder(ACCEPT, b), t)
    ensures Emitted(d, [b] + t) == [b as int] + Emitted(Decoder(ACCEPT, b), t)
  {
    LeadByte(d, b);
    RunStep(d, [b] + t, b, t, Decoder(ACCEPT, b));
  }

  /** The bytes from the last continuation byte on, in state 2. */
  lemma LastTail(n: nat, b: byte, t: Text)
    requires n < 0x400_0000 && Tail(b)
    ensures var p := 0x40 * n + (b as int - 0x80);
      Run(Decoder(2, n), [b] + t) == Run(Decoder(ACCEPT, p), t)
      && Emitted(Decoder(2, n), [b] + t) == [p] + Emitted(Decoder(ACCEPT, p), t)
  {
    TailByte(Decoder(2, n), b);
    RunStep(Decoder(2, n), [b] + t, b, t, Decoder(ACCEPT, 0x40 * n + (b as int - 0x80)));
  }

  /** A continuation byte that is not the last one. */
  lemma InnerTail(d: Decoder, b: byte, t: Text)
    requires 3 <= d.state < 9 && d.codepoint < 0x400_0000 && Tail(b) && NextState(d.state, b) != REJECT
    ensures var next := Decoder(NextState(d.state, b), 0x40 * d.codepoint + (b as int - 0x80));
      Run(d, [b] + t) == Run(next, t) && Emitted(d, [b] + t) == Emitted(next, t)
  {
    TailByte(d, b);
    RunStep(d, [b] + t, b, t, Decoder(NextState(d.state, b), 0x40 * d.codepoint + (b as int - 0x80)));
    hide Step, Run, Emitted;
  }

  lemma LeadRun(d: Decoder, b: byte, t: Text)
    requires d.state == ACCEPT && 0xc2 <= b <= 0xf4
    ensures var next := Step(d, b); next.state < 9 && Run(d, [b] + t) == Run(next, t) && Emitted(d, [b] + t) == Emitted(next, t)
  {
    LeadByte(d, b);
    hide Step;
    RunStep(d, [b] + t, b, t, Step(d, b));
    hide Run, Emitted;
  }

  lemma TwoByteRun(d: Decoder, c: Text, t: Text)
    requires d.state == ACCEPT && |c| == 2 && WellFormed(c)
    ensures Run(d, c + t) == Run(Decoder(ACCEPT, CodePoint(c)), t)
    ensures Emitted(d, c + t) == [CodePoint(c)] + Emitted(Decoder(ACCEPT, CodePoint(c)), t)
  {
    hide Run, Emitted;
    assert c + t == [c[0]] + ([c[1]] + t);
    LeadRun(d, c[0], [c[1]] + t);
    LeadByte(d, c[0]);
    hide Step;
    LastTail(c[0] as int - 0xc0, c[1], t);
  }

  lemma ThreeByteRun(d: Decoder, c: Text, t: Text)
    requires d.state == ACCEPT && |c| == 3 && WellFormed(c)
    ensures Run(d, c + t) == Run(Decoder(ACCEPT, CodePoint(c)), t)
    ensures Emitted(d, c + t) == [CodePoint(c)] + Emitted(Decoder(ACCEPT, CodePoint(c)), t)
  {
    hide Run, Emitted;
    assert c + t == [c[0]] + ([c[1]] + ([c[2]] + t));
    LeadRun(d, c[0], [c[1]] + ([c[2]] + t));
    LeadByte(d, c[0]);
    var first := Step(d, c[0]);
    hide Step;
    InnerTail(first, c[1], [c[2]] + t);
    LastTail(0x40 * (c[0] as int - 0xe0) + (c[1] as int - 0x80), c[2], t);
  }

  lemma FourByteRun(d: Decoder, c: Text, t: Text)
    requires d.state == ACCEPT && |c| == 4 && WellFormed(c)
    ensures Run(d, c + t) == Run(Decoder(ACCEPT, CodePoint(c)), t)
    ensures Emitted(d, c + t) == [CodePoint(c)] + Emitted(Decoder(ACCEPT, CodePoint(c)), t)
  {
    hide Run, Emitted;
    var t2 := [c[2]] + ([c[3]] + t);
    assert c + t == [c[0]] + ([c[1]] + t2);
    LeadRun(d, c[0], [c[1]] + t2);
    LeadByte(d, c[0]);
    var first := Step(d, c[0]);
    hide Step;
    InnerTail(first, c[1], t2);
    var p := 0x40 * (c[0] as int - 0xf0) + (c[1] as int - 0x80);
    InnerTail(Decoder(3, p), c[2], [c[3]] + t);
    LastTail(0x40 * p + (c[2] as int - 0x80), c[3], t);
  }

  /** Over one well-formed character the decoder returns to accept, holding that character's code point. */
  lemma CharacterRun(d: Decoder, c: Text, t: Text)
    requires d.state == ACCEPT && WellFormed(c)
    ensures Run(d, c + t) == Run(Decoder(ACCEPT, CodePoint(c)), t)
    ensures Emitted(d, c + t) == [CodePoint(c)] + Emitted(Decoder(ACCEPT, CodePoint(c)), t)
  {
    hide Run, Emitted;
    if |c| == 1 { assert c == [c[0]]; OneByteRun(d, c[0], t); }
    else if |c| == 2 { TwoByteRun(d, c, t); }
    else if |c| == 3 { ThreeByteRun(d, c, t); }
    else { FourByteRun(d, c, t); }
  }

  /** A string of well-formed characters is accepted, and the code points completed are theirs, in order. */
  lemma {:induction false} CharactersRun(d: Decoder, cs: seq<Text>)
    requires d.state == ACCEPT && Characters(cs)
    ensures Run(d, Concat(cs)).state == ACCEPT && Emitted(d, Concat(cs)) == CodePoints(cs)
    decreases |cs|
  {
    hide Run, Emitted, CodePoint, WellFormed;
    if cs == [] {
      RunEmpty(d);
    } else {
      CharacterRun(d, cs[0], Concat(cs[1..]));
      CharactersRun(Decoder(ACCEPT, CodePoint(cs[0])), cs[1..]);
      assert CodePoints(cs) == [CodePoint(cs[0])] + CodePoints(cs[1..]);
    }
  }

  lemma RunUnfold(d: Decoder, s: Text)
    requires d.state < 9 && s != []
    ensures NextState(d.state, s[0]) == REJECT ==> Run(d, s).state == REJECT
    ensures NextState(d.state, s[0]) != REJECT ==>
      var next := Step(d, s[0]); next.state == NextState(d.state, s[0]) < 9 && Run(d, s) == Run(next, s[1..])
  {
    StateStep(d, s[0]);
    hide Step, NextState;
  }

  /** From a state that waits for k continuation bytes, an accepting run finds them first. */
  lemma TailsRun(d: Decoder, s: Text, k: nat)
    requires d.state == k + 1 && 1 <= k <= 2 && Run(d, s).state == ACCEPT
    ensures k <= |s| && Tail(s[0]) && (k == 2 ==> Tail(s[1]))
  {
    hide Step;
    assert s != [];
    RunUnfold(d, s);
    if k == 2 {
      var next := Step(d, s[0]);
      RunUnfold(next, s[1..]);
    }
  }

  /** An accepting run over a non-empty string starts with a well-formed character. */
  lemma FirstCharacter(d: Decoder, s: Text) returns (n: nat)
    requires d.state == ACCEPT && s != [] && Run(d, s).state == ACCEPT
    ensures 1 <= n <= |s| && WellFormed(s[..n])
  {
    RunUnfold(d, s);
    var first := Step(d, s[0]);
    hide Step;
    assert first.state != ACCEPT ==> |s| > 1;
    if first.state == 0 {
      n := 1;
    } else if first.state == 2 {
      n := 2;
      TailsRun(first, s[1..], 1);
    } else if first.state == 3 {
      n := 3;
      TailsRun(first, s[1..], 2);
    } else {
      RunUnfold(first, s[1..]);
      var second := Step(first, s[1]);
      TailsRun(second, s[2..], second.state - 1);
      n := second.state + 1;
      assert s[2..] == s[1..][1..];
    }
  }

  /** An accepting run splits into well-formed characters. */
  lemma {:induction false} AcceptedCharacters(d: Decoder, s: Text) returns (cs: seq<Text>)
    requires d.state == ACCEPT && Run(d, s).state == ACCEPT
    ensures Characters(cs) && Concat(cs) == s
    decreases |s|
  {
    if s == [] { return []; }
    var n := FirstCharacter(d, s);
    var c, t := s[..n], s[n..];
    assert c + t == s;
    CharacterRun(d, c, t);
    hide Run;
    var rest := AcceptedCharacters(Decoder(ACCEPT, CodePoint(c)), t);
    cs := [c] + rest;
    assert cs[1..] == rest;
  }

  /** The automaton accepts exactly the UTF8-octets strings. */
  lemma {:induction false} AcceptsExactly(d: Decoder, s: Text)
    requires d.state == ACCEPT
    ensures Run(d, s).state == ACCEPT <==> Valid(s)
  {
    if Run(d, s).state == ACCEPT {
      var cs := AcceptedCharacters(d, s);
    }
    if Valid(s) {
      var cs :| Characters(cs) && Concat(cs) == s;
      CharactersRun(d, cs);
    }
  }

  lemma {:induction false} RunAppend(d: Decoder, s: Text, t: Text)
    requires d.state < 9
    ensures var r := Run(d, s); Run(d, s + t) == if s != [] && r.state == REJECT then r else Run(r, t)
    decreases |s|
  {
    if s == [] {
      assert s + t == t;
    } else {
      StateStep(d, s[0]);
      var next := Step(d, s[0]);
      hide Step, NextState;
      assert (s + t)[0] == s[0] && (s + t)[1..] == s[1..] + t;
      if next.state != REJECT { RunAppend(next, s[1..], t); }
    }
  }

  /** Bytes that complete a character from each state. */
  function Completion(state: nat): Text {
    match state
    case 2 => [0x80]
    case 3 => [0x80, 0x80]
    case 4 => [0xa0, 0x80]
    case 5 => [0x80, 0x80]
    case 6 => [0x90, 0x80, 0x80]
    case 7 => [0x80, 0x80, 0x80]
    case 8 => [0x80, 0x80, 0x80]
    case _ => []
  }

  lemma CompletionRun(d: Decoder)
    requires d.state < 9 && d.state != REJECT
    ensures Run(d, Completion(d.state)).state == ACCEPT
  {
    var t := Completion(d.state);
    if t != [] {
      RunUnfold(d, t);
      var d1 := Step(d, t[0]);
      if |t| > 1 {
        RunUnfold(d1, t[1..]);
        var d2 := Step(d1, t[1]);
        if |t| > 2 {
          assert t[1..][1..] == t[2..];
          RunUnfold(d2, t[2..]);
        }
      }
      hide Step;
    }
  }

  /** The decoder rejects at the first byte after which no continuation could be valid, and not before. */
  lemma {:induction false} RejectsEarliest(s: Text)
    ensures Run(START, s).state != REJECT <==> exists t :: Valid(s + t)
  {
    var r := Run(START, s);
    if r.state != REJECT {
      var t := Completion(r.state);
      CompletionRun(r);
      RunAppend(START, s, t);
      AcceptsExactly(START, s + t);
    }
    forall t | Valid(s + t) ensures r.state != REJECT {
      AcceptsExactly(START, s + t);
      RunAppend(START, s, t);
    }
  }

  // ------------------------------------------------------- chunked use

  /** The decoder state after one decode call per chunk. */
  function Feed(d: Decoder, chunks: seq<Text>): Decoder
    requires d.state < 9
    decreases |chunks|
  {
    if chunks == [] then d else Feed(Run(d, chunks[0]), chunks[1..])
  }

  lemma {:induction false} RejectStays(d: Decoder, s: Text)
    requires d.state == REJECT
    ensures Run(d, s).state == REJECT
  {
    if s != [] { RunUnfold(d, s); }
  }

  lemma {:induction false} FeedConcat(d: Decoder, chunks: seq<Text>)
    requires d.state < 9
    ensures Feed(d, chunks).state == Run(d, Concat(chunks)).state
    decreases |chunks|
  {
    hide Run;
    if chunks != [] {
      var r := Run(d, chunks[0]);
      FeedConcat(r, chunks[1..]);
      RunAppend(d, chunks[0], Concat(chunks[1..]));
      if r.state == REJECT { RejectStays(r, Concat(chunks[1..])); }
    } else {
      RunEmpty(d);
    }
  }

  lemma RunEmpty(d: Decoder)
    requires d.state < 9
    ensures Run(d, []) == d && Emitted(d, []) == []
  {
  }

  /** However a message is split over decode calls, it is complete at the end exactly when it is valid UTF-8, and no
      call has failed exactly when it is a prefix of valid UTF-8. */
  lemma {:induction false} ChunkedValidation(chunks: seq<Text>)
    ensures Feed(START, chunks).state == ACCEPT <==> Valid(Concat(chunks))
    ensures Feed(START, chunks).state != REJECT <==> exists t :: Valid(Concat(chunks) + t)
  {
    FeedConcat(START, chunks);
    AcceptsExactly(START, Concat(chunks));
    RejectsEarliest(Concat(chunks));
  }

  class Validator {
    var state: nat
    var codepoint: nat

    ghost predicate Ready()
      reads this
    {
      state < 9
    }

    ghost function View(): Decoder
      reads this
    {
      Decoder(state, codepoint)
    }

    constructor ()
      ensures Ready() && View() == START
    {
      state, codepoint := ACCEPT, 0;
    }

    method Consume(b: byte) returns (ok: bool)
      requires Ready()
      modifies this
      ensures Ready() && View() == Step(old(View()), b)
      ensures ok == (state != REJECT)
    {
      StateStep(View(), b);
      var t := Class(b);
      codepoint := if state != ACCEPT then b % 0x40 + codepoint * 0x40 % 0x1_0000_0000 else b % Mask(t);
      state := Row(state)[t];
      ok := state != REJECT;
    }

    method Decode(s: Text) returns (ok: bool)
      requires Ready()
      modifies this
      ensures Ready() && View() == Run(old(View()), s)
      ensures ok == (s == [] || state != REJECT)
    {
      hide Step, NextState;
      var i := 0;
      while i < |s|
        invariant i <= |s| && Ready() && (i > 0 ==> state != REJECT)
        invariant Run(old(View()), s) == Run(View(), s[i..])
      {
        assert s[i..][1..] == s[i + 1..];
        var good := Consume(s[i]);
        if !good { return false; }
        i := i + 1;
      }
      ok := true;
    }

    method Complete() returns (done: bool)
      ensures done == (state == ACCEPT)
    {
      done := state == ACCEPT;
    }

    method Reset()
      modifies this
      ensures Ready() && View() == START
    {
      state, codepoint := ACCEPT, 0;
    }
  }

  /** utf8_validator::validate accepts exactly valid UTF-8. */
  method Validate(s: Text) returns (ok: bool)
    ensures ok <==> Valid(s)
  {
    hide Run;
    AcceptsExactly(START, s);
    RunEmpty(START);
    var v := new Validator();
    var fine := v.Decode(s);
    if !fine { return false; }
    ok := v.Complete();
  }

  // ------------------------------------------------------- to_unicode

  predicate HighSurrogate(c: nat) { 0xd800 <= c <= 0xdbff }
  predicate LowSurrogate(c: nat) { 0xdc00 <= c <= 0xdfff }

  /** The code point two \u escapes stand for: a surrogate pair, or the first alone. */
  function Scalar(codepoint1: nat, codepoint2: nat): nat {
    if HighSurrogate(codepoint1) && LowSurrogate(codepoint2) then codepoint1 * 0x400 + codepoint2 - 0x35fdc00
    else codepoint1
  }

  function ToUnicode(codepoint1: nat, codepoint2: nat): Result<Text> {
    if HighSurrogate(codepoint1) && !LowSurrogate(codepoint2) then Err(InvalidArgument)
    else EncodeScalar(Scalar(codepoint1, codepoint2))
  }

  function EncodeScalar(c: nat): Result<Text> {
    if c < 0x80 then Ok([c])
    else if c <= 0x7ff then Ok([0xc0 + c / 0x40 % 0x20, 0x80 + c % 0x40])
    else if c <= 0xffff then Ok([0xe0 + c / 0x1000 % 0x10, 0x80 + c / 0x40 % 0x40, 0x80 + c % 0x40])
    else if c <= 0x10ffff then
      Ok([0xf0 + c / 0x4_0000 % 0x08, 0x80 + c / 0x1000 % 0x40, 0x80 + c / 0x40 % 0x40, 0x80 + c % 0x40])
    else Err(OutOfRange)
  }

  /** The two code units of section 2.1 of RFC 2781 give the code point they were made from. */
  lemma SurrogatePairs(c: nat)
    requires 0x1_0000 <= c <= 0x10_ffff
    ensures var u := c - 0x1_0000;
      var high, low := 0xd800 + u / 0x400, 0xdc00 + u % 0x400;
      HighSurrogate(high) && LowSurrogate(low) && Scalar(high, low) == c && ToUnicode(high, low) == EncodeScalar(c)
  {
    var u := c - 0x1_0000;
    assert u == u / 0x400 * 0x400 + u % 0x400;
  }

  /** Of all code units exactly a high surrogate without a low one behind it is refused, and only a pair is combined. */
  lemma CodeUnits(codepoint1: nat, codepoint2: nat)
    requires codepoint1 < 0x1_0000
    ensures var high, low := codepoint1 / 0x400 == 0x36, codepoint2 / 0x400 == 0x37;
      (ToUnicode(codepoint1, codepoint2).Err? <==> high && !low)
      && (!high || !low ==> Scalar(codepoint1, codepoint2) == codepoint1)
  {
    hide EncodeScalar;
    if !HighSurrogate(codepoint1) { EncodeScalarWellFormed(codepoint1); }
    else if LowSurrogate(codepoint2) { EncodeScalarWellFormed(Scalar(codepoint1, codepoint2)); }
    hide WellFormed, CodePoint;
  }

  lemma Split64(c: nat)
    ensures c == 0x40 * (c / 0x40) + c % 0x40
  {
  }

  lemma ThreeByteScalar(c: nat)
    requires 0x800 <= c <= 0xffff
    ensures EncodeScalar(c) == Ok([0xe0 + c / 0x40 / 0x40, 0x80 + c / 0x40 % 0x40, 0x80 + c % 0x40])
  {
    assert c / 0x1000 == c / 0x40 / 0x40;
  }

  lemma FourByteScalar(c: nat)
    requires 0x1_0000 <= c <= 0x10ffff
    ensures EncodeScalar(c) ==
      Ok([0xf0 + c / 0x40 / 0x40 / 0x40, 0x80 + c / 0x40 / 0x40 % 0x40, 0x80 + c / 0x40 % 0x40, 0x80 + c % 0x40])
  {
    assert c / 0x1000 == c / 0x40 / 0x40 && c / 0x4_0000 == c / 0x40 / 0x40 / 0x40;
  }

  lemma EncodeScalarWellFormed(c: nat)
    requires c <= 0x10ffff
    ensures EncodeScalar(c).Ok?
    ensures var s := EncodeScalar(c).value;
      if HighSurrogate(c) || LowSurrogate(c) then !WellFormed(s) && |s| == 3 else WellFormed(s) && CodePoint(s) == c
  {
    Split64(c);
    Split64(c / 0x40);
    Split64(c / 0x40 / 0x40);
    if 0x800 <= c <= 0xffff { ThreeByteScalar(c); hide EncodeScalar; }
    else if c > 0xffff { FourByteScalar(c); hide EncodeScalar; }
  }

  /** What to_unicode writes is one character of valid UTF-8, and the validator's decoder ends on the very code point,
      unless the first code unit is a low surrogate on its own: then the bytes are not valid UTF-8. */
  lemma {:induction false} ToUnicodeDecodes(codepoint1: nat, codepoint2: nat)
    requires ToUnicode(codepoint1, codepoint2).Ok?
    ensures var s := ToUnicode(codepoint1, codepoint2).value;
      if LowSurrogate(codepoint1) then !Valid(s)
      else Valid(s) && Run(START, s) == Decoder(ACCEPT, Scalar(codepoint1, codepoint2))
  {
    var c := Scalar(codepoint1, codepoint2);
    var s := EncodeScalar(c).value;
    EncodeScalarWellFormed(c);
    if LowSurrogate(codepoint1) {
      LoneSurrogateRejected(s);
    } else {
      assert s + [] == s;
      CharacterRun(START, s, []);
      RunEmpty(Decoder(ACCEPT, c));
      AcceptsExactly(START, s);
    }
  }

  lemma LoneSurrogateRejected(s: Text)
    requires |s| == 3 && s[0] == 0xed && !(0x80 <= s[1] <= 0x9f)
    ensures !Valid(s)
  {
    AcceptsExactly(START, s);
    RunUnfold(START, s);
    var d := Step(START, s[0]);
    RunUnfold(d, s[1..]);
  }
}
