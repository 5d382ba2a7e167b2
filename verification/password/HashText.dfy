/** What is accepted as a hash, as a grammar of the text, and what verifying and rehashing make of every text. */
module HashText {
  import opened Wrappers
  import opened Text
  import opened Argon2id
  import Base64

  // ---- The grammar ----

  predicate Blanks(s: string) {
    forall c :: c in s ==> IsSpace(c) && c != '\n'
  }

  predicate AllDigits(s: string) {
    s != "" && forall i :: 0 <= i < |s| ==> IsDigit(s[i])
  }

  /** Blanks, the longest run of digits, and the rest. */
  ghost predicate Reads(input: string, digits: string, rest: string) {
    exists blanks :: Blanks(blanks) && input == blanks + (digits + rest) && AllDigits(digits) && (rest == "" || !IsDigit(rest[0]))
  }

  /** The name, then a number below the bound. */
  ghost predicate Field(text: string, name: string, n: nat, rest: string, bound: nat) {
    exists input, digits :: text == name + input && Reads(input, digits, rest) && Value(digits) == n < bound
  }

  ghost predicate CostsAre(text: string, m: nat, t: nat, p: nat) {
    exists afterM, afterT, rest ::
      && Field(text, "m=", m, afterM, UINT32) && Field(afterM, ",t=", t, afterT, UINT32) && Field(afterT, ",p=", p, rest, UINT8)
  }

  /** Blanks, a sign or none, the longest run of digits, and the rest. */
  ghost predicate ReadsSigned(input: string, sign: string, digits: string) {
    exists blanks, rest ::
      && Blanks(blanks) && input == blanks + (sign + (digits + rest)) && sign in {"", "+", "-"}
      && AllDigits(digits) && (rest == "" || !IsDigit(rest[0]))
  }

  function Signed(sign: string, n: nat): int {
    if sign == "-" then -(n as int) else n
  }

  ghost predicate VersionIs(text: string, v: int) {
    exists input, sign, digits ::
      text == "v=" + input && ReadsSigned(input, sign, digits) && Signed(sign, Value(digits)) == v && -INT63 <= v < INT63
  }

  // ---- The scanner follows it ----

  lemma BlankStart(input: string, blanks: string, rest: string)
    requires Blanks(blanks) && input == blanks + rest
    ensures blanks == "" ==> input == rest
    ensures blanks != "" ==> input != "" && IsSpace(input[0]) && input[0] != '\n' && Blanks(blanks[1..]) && input[1..] == blanks[1..] + rest
  {
    if blanks != "" {
      assert blanks[0] in blanks;
      assert forall c :: c in blanks[1..] ==> c in blanks;
    }
  }

  lemma BlankMore(input: string, blanks: string, rest: string)
    requires input != "" && IsSpace(input[0]) && input[0] != '\n' && Blanks(blanks) && input[1..] == blanks + rest
    ensures Blanks([input[0]] + blanks) && input == ([input[0]] + blanks) + rest
  {
  }

  lemma {:induction false} SkipBlanksIff(input: string, rest: string)
    ensures SkipBlanks(input) == Some(rest) <==>
            (rest == "" || !IsSpace(rest[0])) && exists blanks :: Blanks(blanks) && input == blanks + rest
    decreases input
  {
    forall blanks | Blanks(blanks) && input == blanks + rest
      ensures (blanks == "" && input == rest)
              || (input != "" && IsSpace(input[0]) && input[0] != '\n' && Blanks(blanks[1..]) && input[1..] == blanks[1..] + rest)
    {
      BlankStart(input, blanks, rest);
    }
    if input == "" || !IsSpace(input[0]) {
      assert Blanks("") && (input == rest ==> input == "" + rest);
    } else if input[0] != '\n' {
      SkipBlanksIff(input[1..], rest);
      forall blanks | Blanks(blanks) && input[1..] == blanks + rest
        ensures Blanks([input[0]] + blanks) && input == ([input[0]] + blanks) + rest
      {
        BlankMore(input, blanks, rest);
      }
    }
  }

  lemma DigitRun(text: string, digits: string, rest: string)
    requires text == digits + rest && AllDigits(digits) && (rest == "" || !IsDigit(rest[0]))
    ensures DigitCount(text) == |digits| && text[..|digits|] == digits && text[|digits|..] == rest
    ensures !IsSpace(text[0])
  {
    DigitsThen(digits, rest);
    assert IsDigit(text[0]);
  }

  lemma ScanUnsignedIff(input: string, bound: nat, n: nat, rest: string)
    ensures ScanUnsigned(input, bound) == Some((n, rest)) <==>
            exists digits :: Reads(input, digits, rest) && Value(digits) == n < bound
  {
    if ScanUnsigned(input, bound) == Some((n, rest)) {
      var text := SkipBlanks(input).value;
      SkipBlanksIff(input, text);
      var blanks :| Blanks(blanks) && input == blanks + text;
      var digits := text[..DigitCount(text)];
      assert text == digits + rest;
      assert Reads(input, digits, rest);
    }
    if digits :| Reads(input, digits, rest) && Value(digits) == n < bound {
      var blanks :| Blanks(blanks) && input == blanks + (digits + rest) && AllDigits(digits) && (rest == "" || !IsDigit(rest[0]));
      DigitRun(digits + rest, digits, rest);
      SkipBlanksIff(input, digits + rest);
    }
  }

  lemma ScanFieldIff(text: string, name: string, n: nat, rest: string, bound: nat)
    ensures ScanField(text, name, bound) == Some((n, rest)) <==> Field(text, name, n, rest, bound)
  {
    if name <= text {
      ScanUnsignedIff(text[|name|..], bound, n, rest);
      assert text == name + text[|name|..];
    }
    forall input | text == name + input ensures input == text[|name|..] {
    }
  }

  lemma ScanCostsIff(text: string, m: nat, t: nat, p: nat)
    ensures ScanCosts(text) == Some((m, t, p)) <==> CostsAre(text, m, t, p)
  {
    if ScanCosts(text) == Some((m, t, p)) {
      var a := ScanField(text, "m=", UINT32).value;
      var b := ScanField(a.1, ",t=", UINT32).value;
      var c := ScanField(b.1, ",p=", UINT8).value;
      ScanFieldIff(text, "m=", m, a.1, UINT32);
      ScanFieldIff(a.1, ",t=", t, b.1, UINT32);
      ScanFieldIff(b.1, ",p=", p, c.1, UINT8);
    }
    if CostsAre(text, m, t, p) {
      var afterM, afterT, rest :|
        && Field(text, "m=", m, afterM, UINT32) && Field(afterM, ",t=", t, afterT, UINT32) && Field(afterT, ",p=", p, rest, UINT8);
      ScanFieldIff(text, "m=", m, afterM, UINT32);
      ScanFieldIff(afterM, ",t=", t, afterT, UINT32);
      ScanFieldIff(afterT, ",p=", p, rest, UINT8);
    }
  }

  function SignOf(text: string): string {
    if text != "" && (text[0] == '+' || text[0] == '-') then [text[0]] else ""
  }

  lemma DigitsRead(number: string)
    requires DigitCount(number) > 0
    ensures var n := DigitCount(number);
            AllDigits(number[..n]) && number == number[..n] + number[n..] && (number[n..] == "" || !IsDigit(number[n..][0]))
  {
  }

  lemma NumberReads(text: string, v: int) returns (sign: string, digits: string, rest: string)
    requires ScanNumber(text) == Some(v)
    ensures text == sign + (digits + rest) && sign in {"", "+", "-"} && AllDigits(digits) && (rest == "" || !IsDigit(rest[0]))
    ensures Signed(sign, Value(digits)) == v && -INT63 <= v < INT63
  {
    sign := SignOf(text);
    var number := text[|sign|..];
    var n := DigitCount(number);
    DigitsRead(number);
    digits, rest := number[..n], number[n..];
  }

  lemma ScanSignedReads(input: string, v: int)
    requires ScanSigned(input) == Some(v)
    ensures exists sign, digits :: ReadsSigned(input, sign, digits) && Signed(sign, Value(digits)) == v && -INT63 <= v < INT63
  {
    var text := SkipBlanks(input).value;
    SkipBlanksIff(input, text);
    var blanks :| Blanks(blanks) && input == blanks + text;
    var sign, digits, rest := NumberReads(text, v);
    SignedBy(input, blanks, sign, digits, rest);
  }

  lemma SignedBy(input: string, blanks: string, sign: string, digits: string, rest: string)
    requires Blanks(blanks) && input == blanks + (sign + (digits + rest)) && sign in {"", "+", "-"}
    requires AllDigits(digits) && (rest == "" || !IsDigit(rest[0]))
    ensures ReadsSigned(input, sign, digits)
  {
  }

  lemma ReadsSignedScans(input: string, sign: string, digits: string)
    requires ReadsSigned(input, sign, digits) && -INT63 <= Signed(sign, Value(digits)) < INT63
    ensures ScanSigned(input) == Some(Signed(sign, Value(digits)))
  {
    var blanks, rest :|
      && Blanks(blanks) && input == blanks + (sign + (digits + rest)) && sign in {"", "+", "-"}
      && AllDigits(digits) && (rest == "" || !IsDigit(rest[0]));
    DigitRun(digits + rest, digits, rest);
    SignedText(sign, digits + rest);
    SkipBlanksIff(input, sign + (digits + rest));
  }

  lemma ScanSignedIff(input: string, v: int)
    ensures ScanSigned(input) == Some(v) <==>
            exists sign, digits :: ReadsSigned(input, sign, digits) && Signed(sign, Value(digits)) == v && -INT63 <= v < INT63
  {
    if ScanSigned(input) == Some(v) {
      ScanSignedReads(input, v);
    }
    forall sign, digits | ReadsSigned(input, sign, digits) && Signed(sign, Value(digits)) == v && -INT63 <= v < INT63
      ensures ScanSigned(input) == Some(v)
    {
      ReadsSignedScans(input, sign, digits);
    }
  }

  lemma SignedText(sign: string, text: string)
    requires sign in {"", "+", "-"} && text != "" && IsDigit(text[0])
    ensures sign + text != "" && !IsSpace((sign + text)[0])
    ensures ((sign + text)[0] == '+' || (sign + text)[0] == '-') <==> sign != ""
    ensures (sign + text)[0] == '-' <==> sign == "-"
    ensures (sign + text)[|sign|..] == text
  {
  }

  lemma ScanVersionIff(text: string, v: int)
    ensures ScanVersion(text) == Some(v) <==> VersionIs(text, v)
  {
    if "v=" <= text {
      ScanSignedIff(text[2..], v);
      assert text == "v=" + text[2..];
    }
    forall input | text == "v=" + input ensures input == text[2..] {
    }
  }

  // ---- Verifying and rehashing any text ----

  /** Six parts, the first two as printed. */
  predicate InSix(parts: seq<string>) {
    |parts| == 6 && parts[0] == "" && parts[1] == "argon2id"
  }

  /** The last three parts: nonzero costs, and base64 for a salt and a key of which the length is not lost in a uint32. */
  ghost predicate FieldsAre(parts: seq<string>, m: nat, t: nat, p: nat, salt: seq<Byte>, key: seq<Byte>)
    requires |parts| == 6
  {
    && CostsAre(parts[3], m, t, p) && m > 0 && t > 0 && p > 0
    && Base64.Decode(parts[4]) == Some(salt) && Base64.Decode(parts[5]) == Some(key) && |key| % 0x1_0000_0000 > 0
  }

  /** Every text is one of five cases. */
  lemma DecodeCases(encoded: string)
    ensures var parts := Split(encoded, '$');
            && (!InSix(parts) ==> Decode(encoded) == Err(InvalidHash))
            && (InSix(parts) && (forall v :: !VersionIs(parts[2], v)) ==> Decode(encoded) == Err(InvalidHash))
            && (InSix(parts) && (exists v :: VersionIs(parts[2], v) && v != 19) ==> Decode(encoded) == Err(UnsupportedVersion))
            && (InSix(parts) && VersionIs(parts[2], 19) && (forall m, t, p, salt, key :: !FieldsAre(parts, m, t, p, salt, key)) ==>
                  Decode(encoded) == Err(InvalidHash))
  {
    var parts := Split(encoded, '$');
    if InSix(parts) {
      forall v ensures ScanVersion(parts[2]) == Some(v) <==> VersionIs(parts[2], v) {
        ScanVersionIff(parts[2], v);
      }
      if Decode(encoded).Ok? {
        var d := Decode(encoded).value;
        DecodedParts(encoded);
        ScanCostsIff(parts[3], d.params.memory, d.params.iterations, d.params.parallelism);
        assert FieldsAre(parts, d.params.memory, d.params.iterations, d.params.parallelism, d.salt, d.key);
      }
    }
  }

  /** ... the fifth being a hash, whose parts are what it decodes to. */
  lemma DecodeAccepts(encoded: string, m: nat, t: nat, p: nat, salt: seq<Byte>, key: seq<Byte>)
    requires var parts := Split(encoded, '$'); InSix(parts) && VersionIs(parts[2], 19) && FieldsAre(parts, m, t, p, salt, key)
    ensures Decode(encoded) == Ok(Decoded(Params(m, t, p, |salt| % 0x1_0000_0000, |key| % 0x1_0000_0000), salt, key))
  {
    var parts := Split(encoded, '$');
    ScanVersionIff(parts[2], 19);
    ScanCostsIff(parts[3], m, t, p);
  }

  /** A password verifies against a text exactly when the text is a hash whose key the key function gives for it. */
  lemma VerifyIff(kdf: Kdf, plain: string, encoded: string)
    ensures Verify(kdf, plain, encoded) == Ok(()) <==>
            var parts := Split(encoded, '$');
            && InSix(parts) && VersionIs(parts[2], 19)
            && exists m, t, p, salt, key ::
                 FieldsAre(parts, m, t, p, salt, key) && kdf(plain, salt, t, m, p, |key| % 0x1_0000_0000) == key
  {
    var parts := Split(encoded, '$');
    DecodeCases(encoded);
    if InSix(parts) && VersionIs(parts[2], 19) {
      forall m, t, p, salt, key | FieldsAre(parts, m, t, p, salt, key)
        ensures Decode(encoded) == Ok(Decoded(Params(m, t, p, |salt| % 0x1_0000_0000, |key| % 0x1_0000_0000), salt, key))
      {
        DecodeAccepts(encoded, m, t, p, salt, key);
      }
    }
    if Decode(encoded).Ok? {
      HashIsAccepted(encoded);
    }
  }

  lemma HashIsAccepted(encoded: string)
    requires Decode(encoded).Ok?
    ensures var parts, d := Split(encoded, '$'), Decode(encoded).value;
            && InSix(parts) && VersionIs(parts[2], 19)
            && FieldsAre(parts, d.params.memory, d.params.iterations, d.params.parallelism, d.salt, d.key)
            && d.params.saltLength == |d.salt| % 0x1_0000_0000 && d.params.keyLength == |d.key| % 0x1_0000_0000
  {
    var parts, d := Split(encoded, '$'), Decode(encoded).value;
    DecodedParts(encoded);
    ScanVersionIff(parts[2], 19);
    ScanCostsIff(parts[3], d.params.memory, d.params.iterations, d.params.parallelism);
  }

  /** What does not verify: a text that is no hash keeps its error, and only a hash can be a mismatch. */
  lemma VerifyErrors(kdf: Kdf, plain: string, encoded: string, h: Hasher)
    ensures var parts := Split(encoded, '$');
            && ((!InSix(parts) || forall v :: !VersionIs(parts[2], v)) ==>
                  Verify(kdf, plain, encoded) == Err(InvalidHash) && h.NeedsRehash(encoded) == Err(InvalidHash))
            && (InSix(parts) && (exists v :: VersionIs(parts[2], v) && v != 19) ==>
                  Verify(kdf, plain, encoded) == Err(UnsupportedVersion) && h.NeedsRehash(encoded) == Err(UnsupportedVersion))
            && (InSix(parts) && VersionIs(parts[2], 19) && (forall m, t, p, salt, key :: !FieldsAre(parts, m, t, p, salt, key)) ==>
                  Verify(kdf, plain, encoded) == Err(InvalidHash) && h.NeedsRehash(encoded) == Err(InvalidHash))
            && (Verify(kdf, plain, encoded) == Err(Mismatch) ==>
                  InSix(parts) && VersionIs(parts[2], 19) && exists m, t, p, salt, key :: FieldsAre(parts, m, t, p, salt, key))
            && h.NeedsRehash(encoded) != Err(Mismatch)
  {
    DecodeCases(encoded);
    if Decode(encoded).Ok? {
      HashIsAccepted(encoded);
    }
  }

  /** Of a hash the rehash test looks at memory, iterations and the length of the key, and at nothing else. */
  lemma RehashOfAny(h: Hasher, encoded: string, m: nat, t: nat, p: nat, salt: seq<Byte>, key: seq<Byte>)
    requires var parts := Split(encoded, '$'); InSix(parts) && VersionIs(parts[2], 19) && FieldsAre(parts, m, t, p, salt, key)
    ensures h.NeedsRehash(encoded) ==
            Ok(m < h.params.memory || t < h.params.iterations || |key| % 0x1_0000_0000 < h.params.keyLength)
  {
    DecodeAccepts(encoded, m, t, p, salt, key);
  }

  lemma OneText(m: string, t: string, p: string, a: string, b: string)
    ensures "$" + "argon2id" + "$" + "v=19" + "$" + CostsOf(m, t, p) + "$" + a + "$" + b ==
            "$argon2id$v=19$m=" + m + ",t=" + t + ",p=" + p + "$" + a + "$" + b
  {
    assert CostsOf(m, t, p) == "m=" + m + ",t=" + t + ",p=" + p;
    assert "$" + "argon2id" + "$" + "v=19" + "$" == "$argon2id$v=19$";
    assert "$argon2id$v=19$" + ("m=" + m + ",t=" + t + ",p=" + p) == "$argon2id$v=19$m=" + m + ",t=" + t + ",p=" + p;
  }

  /** The printed form, as text. */
  lemma PrintedText(params: Params, salt: seq<Byte>, key: seq<Byte>)
    ensures Print(params, salt, key) ==
            "$argon2id$v=19$m=" + Decimal(params.memory) + ",t=" + Decimal(params.iterations) + ",p=" + Decimal(params.parallelism)
            + "$" + Base64.Encode(salt) + "$" + Base64.Encode(key)
  {
    ScanVersionText();
    OneText(Decimal(params.memory), Decimal(params.iterations), Decimal(params.parallelism), Base64.Encode(salt), Base64.Encode(key));
  }

  /** Each parameter that is set is kept, and each that is not takes its own default. */
  lemma FilledOneByOne(p: Params, cpus: int)
    ensures var f := FillDefaults(p, cpus);
            && (p.memory > 0 ==> f.memory == p.memory) && (p.memory == 0 ==> f.memory == 65536)
            && (p.iterations > 0 ==> f.iterations == p.iterations) && (p.iterations == 0 ==> f.iterations == 3)
            && (p.parallelism > 0 ==> f.parallelism == p.parallelism)
            && (p.parallelism == 0 && 1 <= cpus <= 4 ==> f.parallelism == cpus)
            && (p.parallelism == 0 && cpus > 4 ==> f.parallelism == 4) && (p.parallelism == 0 && cpus < 1 ==> f.parallelism == 1)
            && (p.saltLength > 0 ==> f.saltLength == p.saltLength) && (p.saltLength == 0 ==> f.saltLength == 16)
            && (p.keyLength > 0 ==> f.keyLength == p.keyLength) && (p.keyLength == 0 ==> f.keyLength == 32)
  {
  }
}
