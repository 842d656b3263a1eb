/** What well-formed text is: the characters of Unicode, each in its own bytes. (RFC 3629.) */
module Unicode {
  import opened Bytes
  import opened Codec

  /** Surrogates are no characters. */
  predicate Character(c: int) {
    0 <= c < 0xD800 || 0xE000 <= c < 0x11_0000
  }

  function CharacterBytes(c: int): seq<Byte>
    requires Character(c)
  {
    if c < 0x80 then [c]
    else if c < 0x800 then [0xC0 + c / 0x40, 0x80 + c % 0x40]
    else if c < 0x1_0000 then [0xE0 + c / 0x1000, 0x80 + c / 0x40 % 0x40, 0x80 + c % 0x40]
    else [0xF0 + c / 0x4_0000, 0x80 + c / 0x1000 % 0x40, 0x80 + c / 0x40 % 0x40, 0x80 + c % 0x40]
  }

  predicate Characters(cs: seq<int>) {
    forall i :: 0 <= i < |cs| ==> Character(cs[i])
  }

  function TextBytes(cs: seq<int>): seq<Byte>
    requires Characters(cs)
  {
    if cs == [] then [] else CharacterBytes(cs[0]) + TextBytes(cs[1..])
  }

  /** The bytes of one character are recognised, whatever follows. */
  lemma HeadOfCharacter(c: int, rest: seq<Byte>)
    requires Character(c)
    ensures Utf8Head(CharacterBytes(c) + rest) == |CharacterBytes(c)| > 0
  {
  }

  /** Text of characters is well formed. */
  lemma {:induction false} TextIsUtf8(cs: seq<int>)
    requires Characters(cs)
    ensures Utf8(TextBytes(cs))
  {
    if cs != [] {
      TextIsUtf8(cs[1..]);
      HeadOfCharacter(cs[0], TextBytes(cs[1..]));
      var first := CharacterBytes(cs[0]);
      assert TextBytes(cs)[|first|..] == TextBytes(cs[1..]);
    }
  }

  lemma SixMoreBits(high: nat, low: nat)
    requires low < 0x40
    ensures (0x40 * high + low) / 0x40 == high && (0x40 * high + low) % 0x40 == low
  {
  }

  lemma HighBits(c: nat)
    ensures c / 0x40 / 0x40 == c / 0x1000 && c / 0x1000 / 0x40 == c / 0x4_0000
  {
  }

  lemma TwoBytes(a: Byte, b: Byte)
    requires 0xC2 <= a < 0xE0 && Cont(b)
    ensures var c := 0x40 * (a - 0xC0) + (b - 0x80); Character(c) && CharacterBytes(c) == [a, b]
  {
    SixMoreBits(a - 0xC0, b - 0x80);
  }

  lemma ThreeBytes(a: Byte, b: Byte, d: Byte)
    requires 0xE0 <= a < 0xF0 && Cont(b) && Cont(d) && (a == 0xE0 ==> b >= 0xA0) && (a == 0xED ==> b < 0xA0)
    ensures var c := 0x40 * (0x40 * (a - 0xE0) + (b - 0x80)) + (d - 0x80);
            Character(c) && CharacterBytes(c) == [a, b, d]
  {
    var c := 0x40 * (0x40 * (a - 0xE0) + (b - 0x80)) + (d - 0x80);
    SixMoreBits(0x40 * (a - 0xE0) + (b - 0x80), d - 0x80);
    SixMoreBits(a - 0xE0, b - 0x80);
    HighBits(c);
  }

  lemma FourBytes(a: Byte, b: Byte, d: Byte, e: Byte)
    requires 0xF0 <= a < 0xF5 && Cont(b) && Cont(d) && Cont(e) && (a == 0xF0 ==> b >= 0x90) && (a == 0xF4 ==> b < 0x90)
    ensures var c := 0x40 * (0x40 * (0x40 * (a - 0xF0) + (b - 0x80)) + (d - 0x80)) + (e - 0x80);
            Character(c) && CharacterBytes(c) == [a, b, d, e]
  {
    var c := 0x40 * (0x40 * (0x40 * (a - 0xF0) + (b - 0x80)) + (d - 0x80)) + (e - 0x80);
    SixMoreBits(0x40 * (0x40 * (a - 0xF0) + (b - 0x80)) + (d - 0x80), e - 0x80);
    SixMoreBits(0x40 * (a - 0xF0) + (b - 0x80), d - 0x80);
    SixMoreBits(a - 0xF0, b - 0x80);
    HighBits(c);
  }

  /** What stands at the front of a well-formed text is the bytes of one character. */
  lemma CharacterAtHead(s: seq<Byte>) returns (c: int)
    requires s != [] && Utf8Head(s) > 0
    ensures Character(c) && s[..Utf8Head(s)] == CharacterBytes(c)
  {
    var k := Utf8Head(s);
    if k == 1 {
      c := s[0];
    } else if k == 2 {
      TwoBytes(s[0], s[1]);
      c := 0x40 * (s[0] as int - 0xC0) + (s[1] - 0x80);
    } else if k == 3 {
      ThreeBytes(s[0], s[1], s[2]);
      c := 0x40 * (0x40 * (s[0] as int - 0xE0) + (s[1] - 0x80)) + (s[2] - 0x80);
    } else {
      FourBytes(s[0], s[1], s[2], s[3]);
      c := 0x40 * (0x40 * (0x40 * (s[0] as int - 0xF0) + (s[1] - 0x80)) + (s[2] - 0x80)) + (s[3] - 0x80);
    }
  }

  /** And nothing else is well formed. */
  lemma {:induction false} Utf8IsText(s: seq<Byte>) returns (cs: seq<int>)
    requires Utf8(s)
    ensures Characters(cs) && TextBytes(cs) == s
    decreases |s|
  {
    if s == [] {
      return [];
    }
    var k := Utf8Head(s);
    var c := CharacterAtHead(s);
    var more := Utf8IsText(s[k..]);
    cs := [c] + more;
    assert cs[1..] == more && s == s[..k] + s[k..];
  }

  /** Text is well formed exactly when it is the bytes of some characters. */
  lemma Utf8MeansText(s: seq<Byte>)
    ensures Utf8(s) <==> exists cs :: Characters(cs) && TextBytes(cs) == s
  {
    if Utf8(s) { var cs := Utf8IsText(s); }
    if cs :| Characters(cs) && TextBytes(cs) == s { TextIsUtf8(cs); }
  }

  /** One character of each length. */
  lemma SomeCharacters()
    ensures CharacterBytes(0x41) == [0x41] && CharacterBytes(0xE9) == [0xC3, 0xA9]
    ensures CharacterBytes(0x20AC) == [0xE2, 0x82, 0xAC] && CharacterBytes(0x1F600) == [0xF0, 0x9F, 0x98, 0x80]
  {
  }
}
