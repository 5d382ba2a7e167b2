/** Unpadded, strict standard base64 (sections 3.2, 3.5 and 4 of RFC 4648), as the hash strings use it. */
module Base64 {
  import opened Wrappers

  type Byte = b: int | 0 <= b < 256

  type Digit = d: int | 0 <= d < 64

  function CharOf(d: Digit): char {
    if d < 26 then ('A' as int + d) as char
    else if d < 52 then ('a' as int + (d - 26)) as char
    else if d < 62 then ('0' as int + (d - 52)) as char
    else if d == 62 then '+'
    else '/'
  }

  /** The decoding table; characters outside the alphabet have no value. */
  function DigitAt(c: char): Option<Digit> {
    if 'A' <= c <= 'Z' then Some(c as int - 'A' as int)
    else if 'a' <= c <= 'z' then Some(c as int - 'a' as int + 26)
    else if '0' <= c <= '9' then Some(c as int - '0' as int + 52)
    else if c == '+' then Some(62)
    else if c == '/' then Some(63)
    else None
  }

  lemma AlphabetInverse(d: Digit, c: char)
    ensures DigitAt(CharOf(d)) == Some(d)
    ensures DigitAt(c).Some? ==> CharOf(DigitAt(c).value) == c
  {
  }

  // Three bytes are four digits: the n-th of each as a function of the others.

  function Digit0(a: Byte): Digit { a / 4 }
  function Digit1(a: Byte, b: Byte): Digit { a % 4 * 16 + b / 16 }
  function Digit2(b: Byte, c: Byte): Digit { b % 16 * 4 + c / 64 }
  function Digit3(c: Byte): Digit { c % 64 }

  function Byte0(d: int, e: int): Byte
    requires 0 <= d < 64 && 0 <= e < 64
  {
    d * 4 + e / 16
  }

  function Byte1(e: int, f: int): Byte
    requires 0 <= e < 64 && 0 <= f < 64
  {
    e % 16 * 16 + f / 4
  }

  function Byte2(f: int, g: int): Byte
    requires 0 <= f < 64 && 0 <= g < 64
  {
    f % 4 * 64 + g
  }

  /** The digits of the bytes, three bytes at a time; a final partial group is padded with zero bits. */
  function Dissect(bytes: seq<Byte>): seq<Digit> {
    if |bytes| == 0 then []
    else if |bytes| == 1 then [Digit0(bytes[0]), Digit1(bytes[0], 0)]
    else if |bytes| == 2 then [Digit0(bytes[0]), Digit1(bytes[0], bytes[1]), Digit2(bytes[1], 0)]
    else
      [Digit0(bytes[0]), Digit1(bytes[0], bytes[1]), Digit2(bytes[1], bytes[2]), Digit3(bytes[2])]
      + Dissect(bytes[3..])
  }

  function Chars(d: seq<Digit>): string {
    if d == [] then "" else [CharOf(d[0])] + Chars(d[1..])
  }

  function Encode(bytes: seq<Byte>): string {
    Chars(Dissect(bytes))
  }

  predicate IsLineBreak(c: char) {
    c == '\r' || c == '\n'
  }

  /** The decoder skips line breaks wherever they are. */
  function WithoutBreaks(s: string): (r: string)
    ensures forall c :: c in r ==> !IsLineBreak(c)
  {
    if s == "" then "" else (if IsLineBreak(s[0]) then "" else [s[0]]) + WithoutBreaks(s[1..])
  }

  function Digits(s: string): Option<seq<Digit>> {
    if s == "" then Some([])
    else
      match (DigitAt(s[0]), Digits(s[1..]))
      case (Some(d), Some(rest)) => Some([d] + rest)
      case _ => None
  }

  /** Strict: the unused low bits of a final partial group must be zero, and one digit alone is no group. */
  function Assemble(d: seq<Digit>): Option<seq<Byte>> {
    if |d| == 0 then Some([])
    else if |d| == 1 then None
    else if |d| == 2 then
      if d[1] % 16 == 0 then Some([Byte0(d[0], d[1])]) else None
    else if |d| == 3 then
      if d[2] % 4 == 0 then Some([Byte0(d[0], d[1]), Byte1(d[1], d[2])]) else None
    else
      match Assemble(d[4..])
      case None => None
      case Some(rest) => Some([Byte0(d[0], d[1]), Byte1(d[1], d[2]), Byte2(d[2], d[3])] + rest)
  }

  function Decode(s: string): Option<seq<Byte>> {
    match Digits(WithoutBreaks(s))
    case None => None
    case Some(digits) => Assemble(digits)
  }

  // ---- Round trips ----

  /** Digits and characters correspond one to one. */
  lemma {:induction false} DigitsOfChars(d: seq<Digit>)
    ensures Digits(Chars(d)) == Some(d)
    decreases d
  {
    if d != [] {
      DigitsOfChars(d[1..]);
      AlphabetInverse(d[0], CharOf(d[0]));
      assert Chars(d)[1..] == Chars(d[1..]);
      assert d == [d[0]] + d[1..];
    }
  }

  lemma {:induction false} CharsOfDigits(s: string)
    requires Digits(s).Some?
    ensures Chars(Digits(s).value) == s
    decreases s
  {
    if s != "" {
      CharsOfDigits(s[1..]);
      AlphabetInverse(0, s[0]);
    }
  }

  lemma GroupInverse(a: Byte, b: Byte, c: Byte)
    ensures Byte0(Digit0(a), Digit1(a, b)) == a
    ensures Byte1(Digit1(a, b), Digit2(b, c)) == b
    ensures Byte2(Digit2(b, c), Digit3(c)) == c
    ensures Digit1(a, 0) % 16 == 0 && Digit2(b, 0) % 4 == 0
  {
  }

  lemma DissectPartial(bytes: seq<Byte>)
    ensures |bytes| == 1 ==> Dissect(bytes) == [Digit0(bytes[0]), Digit1(bytes[0], 0)]
    ensures |bytes| == 2 ==> Dissect(bytes) == [Digit0(bytes[0]), Digit1(bytes[0], bytes[1]), Digit2(bytes[1], 0)]
  {
  }

  lemma OneByte(a: Byte, x: Digit, y: Digit)
    requires x == Digit0(a) && y == Digit1(a, 0)
    ensures y % 16 == 0 && Byte0(x, y) == a
  {
    GroupInverse(a, 0, 0);
  }

  lemma TwoBytes(a: Byte, b: Byte, x: Digit, y: Digit, z: Digit)
    requires x == Digit0(a) && y == Digit1(a, b) && z == Digit2(b, 0)
    ensures z % 4 == 0 && Byte0(x, y) == a && Byte1(y, z) == b
  {
    GroupInverse(a, b, 0);
  }

  lemma AssembleTwo(d: seq<Digit>, a: Byte)
    requires |d| == 2 && d[1] % 16 == 0 && Byte0(d[0], d[1]) == a
    ensures Assemble(d) == Some([a])
  {
  }

  lemma AssembleThree(d: seq<Digit>, a: Byte, b: Byte)
    requires |d| == 3 && d[2] % 4 == 0 && Byte0(d[0], d[1]) == a && Byte1(d[1], d[2]) == b
    ensures Assemble(d) == Some([a, b])
  {
  }

  lemma PartialGroup(bytes: seq<Byte>, d: seq<Digit>)
    requires 0 < |bytes| < 3 && d == Dissect(bytes)
    ensures Assemble(d) == Some(bytes)
  {
    DissectPartial(bytes);
    if |bytes| == 1 {
      OneByte(bytes[0], d[0], d[1]);
      AssembleTwo(d, bytes[0]);
      assert bytes == [bytes[0]];
    } else {
      TwoBytes(bytes[0], bytes[1], d[0], d[1], d[2]);
      AssembleThree(d, bytes[0], bytes[1]);
      assert bytes == [bytes[0], bytes[1]];
    }
  }

  lemma FullGroup(a: Byte, b: Byte, c: Byte, rest: seq<Byte>)
    requires Assemble(Dissect(rest)) == Some(rest)
    ensures Assemble(Dissect([a, b, c] + rest)) == Some([a, b, c] + rest)
  {
    GroupInverse(a, b, c);
    assert ([a, b, c] + rest)[3..] == rest;
    assert Dissect([a, b, c] + rest)[4..] == Dissect(rest);
  }

  /** Cutting bytes into digits and assembling them again, both ways. */
  lemma {:induction false} AssembleDissect(bytes: seq<Byte>)
    ensures Assemble(Dissect(bytes)) == Some(bytes)
    decreases |bytes|
  {
    if bytes == [] {
    } else if |bytes| < 3 {
      PartialGroup(bytes, Dissect(bytes));
    } else {
      AssembleDissect(bytes[3..]);
      FullGroup(bytes[0], bytes[1], bytes[2], bytes[3..]);
      assert bytes == [bytes[0], bytes[1], bytes[2]] + bytes[3..];
    }
  }

  lemma DigitInverse(w: Digit, x: Digit, y: Digit, z: Digit)
    ensures Digit0(Byte0(w, x)) == w
    ensures Digit1(Byte0(w, x), Byte1(x, y)) == x
    ensures Digit2(Byte1(x, y), Byte2(y, z)) == y
    ensures Digit3(Byte2(y, z)) == z
    ensures x % 16 == 0 ==> Digit1(Byte0(w, x), 0) == x
    ensures y % 4 == 0 ==> Digit2(Byte1(x, y), 0) == y
  {
  }

  lemma DissectOne(a: Byte, d: seq<Digit>)
    requires |d| == 2 && Digit0(a) == d[0] && Digit1(a, 0) == d[1]
    ensures Dissect([a]) == d
  {
    DissectPartial([a]);
  }

  lemma DissectTwo(a: Byte, b: Byte, d: seq<Digit>)
    requires |d| == 3 && Digit0(a) == d[0] && Digit1(a, b) == d[1] && Digit2(b, 0) == d[2]
    ensures Dissect([a, b]) == d
  {
    DissectPartial([a, b]);
  }

  lemma DissectGroup(a: Byte, b: Byte, c: Byte, rest: seq<Byte>, d: seq<Digit>)
    requires |d| >= 4 && Digit0(a) == d[0] && Digit1(a, b) == d[1] && Digit2(b, c) == d[2] && Digit3(c) == d[3]
    requires Dissect(rest) == d[4..]
    ensures Dissect([a, b, c] + rest) == d
  {
    assert ([a, b, c] + rest)[3..] == rest;
    assert d == [d[0], d[1], d[2], d[3]] + d[4..];
  }

  lemma {:induction false} DissectAssemble(d: seq<Digit>)
    requires Assemble(d).Some?
    ensures Dissect(Assemble(d).value) == d
    decreases |d|
  {
    if |d| == 2 {
      DigitInverse(d[0], d[1], 0, 0);
      DissectOne(Byte0(d[0], d[1]), d);
    } else if |d| == 3 {
      DigitInverse(d[0], d[1], d[2], 0);
      DissectTwo(Byte0(d[0], d[1]), Byte1(d[1], d[2]), d);
    } else if |d| >= 4 {
      DissectAssemble(d[4..]);
      DigitInverse(d[0], d[1], d[2], d[3]);
      DissectGroup(Byte0(d[0], d[1]), Byte1(d[1], d[2]), Byte2(d[2], d[3]), Assemble(d[4..]).value, d);
    }
  }

  lemma {:induction false} NoBreaksKept(s: string)
    requires forall c :: c in s ==> !IsLineBreak(c)
    ensures WithoutBreaks(s) == s
    decreases s
  {
    if s != "" {
      assert s[0] in s;
      NoBreaksKept(s[1..]);
    }
  }

  lemma {:induction false} CharsAreAlphabet(d: seq<Digit>)
    ensures forall c :: c in Chars(d) ==> DigitAt(c).Some?
    decreases d
  {
    if d != [] {
      CharsAreAlphabet(d[1..]);
      AlphabetInverse(d[0], CharOf(d[0]));
    }
  }

  /** What is encoded decodes to itself, and uses only the alphabet. */
  lemma DecodeEncode(bytes: seq<Byte>)
    ensures Decode(Encode(bytes)) == Some(bytes)
    ensures forall c :: c in Encode(bytes) ==> DigitAt(c).Some?
  {
    CharsAreAlphabet(Dissect(bytes));
    NoBreaksKept(Encode(bytes));
    DigitsOfChars(Dissect(bytes));
    AssembleDissect(bytes);
  }

  /** What the strict decoder accepts re-encodes to the text without its line breaks... */
  lemma EncodeDecode(s: string)
    requires Decode(s).Some?
    ensures Encode(Decode(s).value) == WithoutBreaks(s)
  {
    var digits := Digits(WithoutBreaks(s)).value;
    DissectAssemble(digits);
    CharsOfDigits(WithoutBreaks(s));
  }

  /** ... so an accepted text is the canonical one exactly when it has no line breaks. */
  lemma CanonicalIff(s: string)
    requires Decode(s).Some?
    ensures Encode(Decode(s).value) == s <==> forall c :: c in s ==> !IsLineBreak(c)
  {
    EncodeDecode(s);
    if forall c :: c in s ==> !IsLineBreak(c) {
      NoBreaksKept(s);
    }
  }

  /** Different accepted texts without line breaks give different bytes. */
  lemma DecodeInjective(s: string, t: string)
    requires Decode(s).Some? && Decode(s) == Decode(t)
    requires forall c :: c in s + t ==> !IsLineBreak(c)
    ensures s == t
  {
    forall c | c in s ensures !IsLineBreak(c) {
      assert c in s + t;
    }
    forall c | c in t ensures !IsLineBreak(c) {
      assert c in s + t;
    }
    CanonicalIff(s);
    CanonicalIff(t);
  }

  // ---- Against the standard ----

  /** The alphabet of table 1 in section 4 of RFC 4648: three runs of characters, plus and slash. */
  lemma AlphabetIs(d: Digit, c: char)
    ensures CharOf(0) == 'A' && CharOf(25) == 'Z' && CharOf(26) == 'a' && CharOf(51) == 'z'
    ensures CharOf(52) == '0' && CharOf(61) == '9' && CharOf(62) == '+' && CharOf(63) == '/'
    ensures d < 61 && d != 25 && d != 51 ==> CharOf(d + 1) as int == CharOf(d) as int + 1
    ensures DigitAt(c).Some? <==> exists e: Digit :: CharOf(e) == c
  {
    if DigitAt(c).Some? {
      AlphabetInverse(DigitAt(c).value, c);
    }
    if e: Digit :| CharOf(e) == c {
      AlphabetInverse(e, c);
    }
  }

  /** Three bytes are 24 bits, most significant first, and four digits are the same bits. */
  lemma GroupBits(a: Byte, b: Byte, c: Byte)
    ensures Digit0(a) * 0x4_0000 + Digit1(a, b) * 0x1000 + Digit2(b, c) * 0x40 + Digit3(c) == a * 0x1_0000 + b * 0x100 + c
  {
    assert a == a / 4 * 4 + a % 4;
    assert b == b / 16 * 16 + b % 16;
    assert c == c / 64 * 64 + c % 64;
  }

  /** A group is these digits, and of a partial group those that are not made of missing bits alone. */
  lemma GroupDigits(a: Byte, b: Byte, c: Byte)
    ensures Dissect([a, b, c]) == [Digit0(a), Digit1(a, b), Digit2(b, c), Digit3(c)]
    ensures Dissect([a]) == [Digit0(a), Digit1(a, 0)] && Dissect([a, b]) == [Digit0(a), Digit1(a, b), Digit2(b, 0)]
  {
    assert [a, b, c][3..] == [];
    DissectPartial([a]);
    DissectPartial([a, b]);
  }

  lemma {:induction false} CharsOfBoth(d: seq<Digit>, e: seq<Digit>)
    ensures Chars(d + e) == Chars(d) + Chars(e)
    decreases d
  {
    if d == [] {
      assert d + e == e;
    } else {
      assert (d + e)[1..] == d[1..] + e;
      CharsOfBoth(d[1..], e);
    }
  }

  lemma {:induction false} DissectBoth(a: seq<Byte>, b: seq<Byte>)
    requires |a| % 3 == 0
    ensures Dissect(a + b) == Dissect(a) + Dissect(b)
    decreases |a|
  {
    if a == [] {
      assert a + b == b;
    } else {
      assert (a + b)[3..] == a[3..] + b;
      DissectBoth(a[3..], b);
    }
  }

  /** Groups are encoded one after the other. */
  lemma EncodeBoth(a: seq<Byte>, b: seq<Byte>)
    requires |a| % 3 == 0
    ensures Encode(a + b) == Encode(a) + Encode(b)
  {
    DissectBoth(a, b);
    CharsOfBoth(Dissect(a), Dissect(b));
  }

  /** Exactly the line breaks are skipped. */
  lemma {:induction false} BreaksSkipped(s: string, t: string, c: char)
    ensures WithoutBreaks(s + t) == WithoutBreaks(s) + WithoutBreaks(t)
    ensures WithoutBreaks([c]) == if c == '\r' || c == '\n' then "" else [c]
    decreases s
  {
    assert [c][1..] == "";
    if s == "" {
      assert s + t == t;
    } else {
      assert (s + t)[1..] == s[1..] + t;
      BreaksSkipped(s[1..], t, c);
    }
  }

  /** A text decodes to some bytes exactly when, but for line breaks, it is what they encode to. */
  lemma DecodeIff(s: string, bytes: seq<Byte>)
    ensures Decode(s) == Some(bytes) <==> WithoutBreaks(s) == Encode(bytes)
  {
    if Decode(s) == Some(bytes) {
      EncodeDecode(s);
    }
    if WithoutBreaks(s) == Encode(bytes) {
      DecodeEncode(bytes);
      NoBreaksKept(Encode(bytes));
    }
  }
}
