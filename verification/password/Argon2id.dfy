/** The hash string of an argon2id password: printing, parsing, verifying (password/argon2id.go). */
module Argon2id {
  import opened Wrappers
  import opened Text
  import Base64

  type Byte = Base64.Byte

  const VERSION := 19
  const UINT8 := 0x100
  const UINT32 := 0x1_0000_0000
  const INT63 := 0x8000_0000_0000_0000

  datatype Params = Params(memory: nat, iterations: nat, parallelism: nat, saltLength: nat, keyLength: nat)

  datatype HashError = Mismatch | InvalidHash | UnsupportedVersion

  datatype Decoded = Decoded(params: Params, salt: seq<Byte>, key: seq<Byte>)

  /** The key derivation, uninterpreted: password, salt, iterations, memory, parallelism, key length. */
  type Kdf = (string, seq<Byte>, nat, nat, nat, nat) -> seq<Byte>

  ghost predicate Honours(kdf: Kdf) {
    forall plain, salt, t, m, p, n :: |kdf(plain, salt, t, m, p, n)| == n
  }

  function Derive(kdf: Kdf, plain: string, salt: seq<Byte>, params: Params): seq<Byte> {
    kdf(plain, salt, params.iterations, params.memory, params.parallelism, params.keyLength)
  }

  // ---- Printing ----

  function VersionText(): string {
    "v=" + Decimal(VERSION)
  }

  function CostsOf(m: string, t: string, p: string): string {
    "m=" + (m + (",t=" + (t + (",p=" + (p + "")))))
  }

  function CostsText(m: nat, t: nat, p: nat): string {
    CostsOf(Decimal(m), Decimal(t), Decimal(p))
  }

  function Print(params: Params, salt: seq<Byte>, key: seq<Byte>): string {
    "$" + "argon2id" + "$" + VersionText()
    + "$" + CostsText(params.memory, params.iterations, params.parallelism)
    + "$" + Base64.Encode(salt) + "$" + Base64.Encode(key)
  }

  // ---- Scanning a formatted text, as fmt.Sscanf does ----

  /** What is left of the input, or a failure. */
  type Rest = Option<string>

  function Literal(input: string, text: string): Rest {
    if text <= input then Some(input[|text|..]) else None
  }

  /** Blanks before a number are skipped; a line feed among them is an error. */
  function SkipBlanks(input: string): Rest {
    if input == "" || !IsSpace(input[0]) then Some(input)
    else if input[0] == '\n' then None
    else SkipBlanks(input[1..])
  }

  /** An unsigned decimal below the bound: the value and the rest of the input. */
  function ScanUnsigned(input: string, bound: nat): Option<(nat, string)> {
    match SkipBlanks(input)
    case None => None
    case Some(text) =>
      var n := DigitCount(text);
      if n == 0 || Value(text[..n]) >= bound then None else Some((Value(text[..n]), text[n..]))
  }

  /** A decimal int with an optional sign; only its value is of interest. */
  function ScanSigned(input: string): Option<int> {
    match SkipBlanks(input)
    case None => None
    case Some(text) => ScanNumber(text)
  }

  function ScanNumber(text: string): Option<int> {
    var signed := text != "" && (text[0] == '+' || text[0] == '-');
    match ScanDigits(if signed then text[1..] else text)
    case None => None
    case Some(value) => InInt64(text[0] == '-', value)
  }

  function InInt64(minus: bool, value: nat): Option<int> {
    var number := if minus then -(value as int) else value as int;
    if -INT63 <= number < INT63 then Some(number) else None
  }

  function ScanDigits(text: string): Option<nat> {
    if DigitCount(text) == 0 then None else Some(Value(text[..DigitCount(text)]))
  }

  /** `v=%d`; what follows the number is ignored. */
  function ScanVersion(text: string): Option<int> {
    match Literal(text, "v=")
    case None => None
    case Some(rest) => ScanSigned(rest)
  }

  /** `m=%d,t=%d,p=%d` into two uint32 and a uint8; what follows is ignored. */
  function ScanCosts(text: string): Option<(nat, nat, nat)> {
    match ScanField(text, "m=", UINT32)
    case None => None
    case Some((memory, afterMemory)) =>
      match ScanField(afterMemory, ",t=", UINT32)
      case None => None
      case Some((iterations, afterIterations)) =>
        match ScanField(afterIterations, ",p=", UINT8)
        case None => None
        case Some((parallelism, _)) => Some((memory, iterations, parallelism))
  }

  function ScanField(text: string, name: string, bound: nat): Option<(nat, string)> {
    match Literal(text, name)
    case None => None
    case Some(rest) => ScanUnsigned(rest, bound)
  }

  // ---- Parsing ----

  function Decode(encoded: string): Result<Decoded, HashError> {
    DecodeParts(Split(encoded, '$'))
  }

  function DecodeParts(parts: seq<string>): Result<Decoded, HashError> {
    if |parts| != 6 || parts[0] != "" || parts[1] != "argon2id" then Err(InvalidHash)
    else
      match ScanVersion(parts[2])
      case None => Err(InvalidHash)
      case Some(version) =>
        if version != VERSION then Err(UnsupportedVersion)
        else DecodeFields(parts[3], parts[4], parts[5])
  }

  function DecodeFields(costs: string, saltText: string, keyText: string): Result<Decoded, HashError> {
    var scanned, salt, key := ScanCosts(costs), Base64.Decode(saltText), Base64.Decode(keyText);
    if scanned.None? || salt.None? || key.None? then Err(InvalidHash)
    else Checked(scanned.value.0, scanned.value.1, scanned.value.2, salt.value, key.value)
  }

  function Checked(memory: nat, iterations: nat, parallelism: nat, salt: seq<Byte>, key: seq<Byte>): Result<Decoded, HashError> {
    var params := Params(memory, iterations, parallelism, Low32(|salt|), Low32(|key|));
    if memory == 0 || iterations == 0 || parallelism == 0 || params.keyLength == 0 then Err(InvalidHash)
    else Ok(Decoded(params, salt, key))
  }

  /** The conversion to uint32. */
  function Low32(n: nat): (r: nat)
    ensures n < UINT32 ==> r == n
  {
    n % UINT32
  }

  function Verify(kdf: Kdf, plain: string, encoded: string): Result<(), HashError> {
    match Decode(encoded)
    case Err(error) => Err(error)
    case Ok(d) => if Derive(kdf, plain, d.salt, d.params) == d.key then Ok(()) else Err(Mismatch)
  }

  // ---- The hasher ----

  /** Zero parameters take their defaults; the default parallelism follows the number of CPUs. */
  function FillDefaults(p: Params, cpus: int): Params {
    Params(
      if p.memory == 0 then 64 * 1024 else p.memory,
      if p.iterations == 0 then 3 else p.iterations,
      if p.parallelism != 0 then p.parallelism else if cpus > 4 then 4 else if cpus < 1 then 1 else cpus,
      if p.saltLength == 0 then 16 else p.saltLength,
      if p.keyLength == 0 then 32 else p.keyLength)
  }

  /** The parameters fit their integer widths. */
  predicate InWidths(p: Params) {
    p.memory < UINT32 && p.iterations < UINT32 && p.parallelism < UINT8 && p.saltLength < UINT32 && p.keyLength < UINT32
  }

  predicate Printable(p: Params) {
    InWidths(p) && 0 < p.memory && 0 < p.iterations && 0 < p.parallelism && 0 < p.keyLength
  }

  class Hasher {
    const params: Params

    constructor (params: Params, cpus: int)
      requires InWidths(params)
      ensures this.params == FillDefaults(params, cpus) && Printable(this.params)
    {
      this.params := FillDefaults(params, cpus);
    }

    /** `salt` is what the random source filled the buffer with. */
    method Hash(kdf: Kdf, plain: string, salt: seq<Byte>) returns (encoded: string)
      requires |salt| == params.saltLength
      ensures encoded == Print(params, salt, Derive(kdf, plain, salt, params))
      ensures Printable(params) && Honours(kdf) ==>
                && Decode(encoded) == Ok(Decoded(params, salt, Derive(kdf, plain, salt, params)))
                && NeedsRehash(encoded) == Ok(false)
                && Verify(kdf, plain, encoded) == Ok(())
                && forall other :: Verify(kdf, other, encoded).Ok? <==>
                     Derive(kdf, other, salt, params) == Derive(kdf, plain, salt, params)
    {
      var key := Derive(kdf, plain, salt, params);
      encoded := Print(params, salt, key);
      if Printable(params) && |key| == params.keyLength {
        DecodePrint(params, salt, key);
      }
    }

    function NeedsRehash(encoded: string): Result<bool, HashError> {
      match Decode(encoded)
      case Err(error) => Err(error)
      case Ok(d) =>
        Ok(d.params.memory < params.memory || d.params.iterations < params.iterations
           || d.params.keyLength < params.keyLength)
    }
  }

  // ---- The round trip ----

  lemma ScanUnsignedDigits(digits: string, rest: string, bound: nat)
    requires digits != "" && forall i :: 0 <= i < |digits| ==> IsDigit(digits[i])
    requires rest == "" || !IsDigit(rest[0])
    ensures ScanUnsigned(digits + rest, bound) == if Value(digits) < bound then Some((Value(digits), rest)) else None
  {
    var text := digits + rest;
    assert !IsSpace(text[0]) by {
      assert IsDigit(text[0]);
    }
    DigitsThen(digits, rest);
    assert text[..|digits|] == digits && text[|digits|..] == rest;
  }

  lemma ScanFieldDigits(name: string, digits: string, rest: string, bound: nat)
    requires digits != "" && forall i :: 0 <= i < |digits| ==> IsDigit(digits[i])
    requires rest == "" || !IsDigit(rest[0])
    ensures ScanField(name + (digits + rest), name, bound) == if Value(digits) < bound then Some((Value(digits), rest)) else None
  {
    assert (name + (digits + rest))[|name|..] == digits + rest;
    ScanUnsignedDigits(digits, rest, bound);
  }

  lemma ScanFieldDecimal(name: string, n: nat, rest: string, bound: nat)
    requires n < bound && (rest == "" || !IsDigit(rest[0]))
    ensures ScanField(name + (Decimal(n) + rest), name, bound) == Some((n, rest))
  {
    ValueOfDecimal(n);
    ScanFieldDigits(name, Decimal(n), rest, bound);
  }

  lemma ScanCostsText(m: nat, t: nat, p: nat)
    requires m < UINT32 && t < UINT32 && p < UINT8
    ensures ScanCosts(CostsText(m, t, p)) == Some((m, t, p))
  {
    ScanFieldDecimal("m=", m, ",t=" + (Decimal(t) + (",p=" + (Decimal(p) + ""))), UINT32);
    ScanFieldDecimal(",t=", t, ",p=" + (Decimal(p) + ""), UINT32);
    ScanFieldDecimal(",p=", p, "", UINT8);
  }

  lemma ScanVersionText()
    ensures VersionText() == "v=19"
    ensures ScanVersion("v=19") == Some(VERSION)
  {
    assert Decimal(19) == Decimal(1) + [DigitOf(9)];
    assert DigitOf(1) == '1' && DigitOf(9) == '9';
    assert "v=19"[2..] == "19";
    var text := "19";
    assert text[1..] == "9" && "9"[1..] == "";
    assert DigitCount("19") == 2;
    assert text[..2] == text && text[..1] == "1" && "1"[..0] == "";
    assert Value("19") == 19;
  }

  /** Five separators, six parts. */
  lemma SplitSix(a: string, b: string, c: string, d: string, e: string)
    requires '$' !in a && '$' !in b && '$' !in c && '$' !in d && '$' !in e
    ensures Split("$" + a + "$" + b + "$" + c + "$" + d + "$" + e, '$') == ["", a, b, c, d, e]
  {
    SplitWhole(a, '$');
    SplitWhole(b, '$');
    SplitWhole(c, '$');
    SplitWhole(d, '$');
    SplitWhole(e, '$');
    SplitAround("", a, '$');
    assert "" + ['$'] + a == "$" + a;
    SplitAround("$" + a, b, '$');
    SplitAround("$" + a + "$" + b, c, '$');
    SplitAround("$" + a + "$" + b + "$" + c, d, '$');
    SplitAround("$" + a + "$" + b + "$" + c + "$" + d, e, '$');
  }

  /** Any text made of digits and base64 characters is free of the separator. */
  lemma NoSeparators(m: nat, t: nat, p: nat, bytes: seq<Byte>)
    ensures '$' !in CostsText(m, t, p)
    ensures '$' !in Base64.Encode(bytes)
  {
    Base64.DecodeEncode(bytes);
    forall n: nat ensures '$' !in Decimal(n) {
    }
  }

  lemma PrintParts(params: Params, salt: seq<Byte>, key: seq<Byte>)
    ensures Split(Print(params, salt, key), '$') ==
            ["", "argon2id", "v=19", CostsText(params.memory, params.iterations, params.parallelism),
             Base64.Encode(salt), Base64.Encode(key)]
  {
    var costs := CostsText(params.memory, params.iterations, params.parallelism);
    ScanVersionText();
    NoSeparators(params.memory, params.iterations, params.parallelism, salt);
    NoSeparators(params.memory, params.iterations, params.parallelism, key);
    SplitSix("argon2id", VersionText(), costs, Base64.Encode(salt), Base64.Encode(key));
  }

  lemma DecodeFieldsExact(costs: string, saltText: string, keyText: string, params: Params, salt: seq<Byte>, key: seq<Byte>)
    requires Printable(params) && |salt| == params.saltLength && |key| == params.keyLength
    requires ScanCosts(costs) == Some((params.memory, params.iterations, params.parallelism))
    requires Base64.Decode(saltText) == Some(salt) && Base64.Decode(keyText) == Some(key)
    ensures DecodeFields(costs, saltText, keyText) == Ok(Decoded(params, salt, key))
  {
  }

  /** With the version right, the last three parts decide. */
  lemma VersionPasses(version: string, costs: string, saltText: string, keyText: string)
    requires ScanVersion(version) == Some(VERSION)
    ensures DecodeParts(["", "argon2id", version, costs, saltText, keyText]) == DecodeFields(costs, saltText, keyText)
  {
  }

  /** Decoding a printed string returns exactly the parameters, the salt and the key that were printed. */
  lemma DecodePrint(params: Params, salt: seq<Byte>, key: seq<Byte>)
    requires Printable(params) && |salt| == params.saltLength && |key| == params.keyLength
    ensures Decode(Print(params, salt, key)) == Ok(Decoded(params, salt, key))
  {
    PrintParts(params, salt, key);
    ScanVersionText();
    ScanCostsText(params.memory, params.iterations, params.parallelism);
    Base64.DecodeEncode(salt);
    Base64.DecodeEncode(key);
    var costs := CostsText(params.memory, params.iterations, params.parallelism);
    DecodeFieldsExact(costs, Base64.Encode(salt), Base64.Encode(key), params, salt, key);
    VersionPasses("v=19", costs, Base64.Encode(salt), Base64.Encode(key));
  }

  /** Different hashes print differently. */
  lemma PrintInjective(a: Decoded, b: Decoded)
    requires Printable(a.params) && |a.salt| == a.params.saltLength && |a.key| == a.params.keyLength
    requires Printable(b.params) && |b.salt| == b.params.saltLength && |b.key| == b.params.keyLength
    requires Print(a.params, a.salt, a.key) == Print(b.params, b.salt, b.key)
    ensures a == b
  {
    DecodePrint(a.params, a.salt, a.key);
    DecodePrint(b.params, b.salt, b.key);
  }

  /** What a hasher printed for p verifies q exactly when the key function agrees on them; otherwise it is a mismatch. */
  lemma HashThenVerify(kdf: Kdf, params: Params, p: string, q: string, salt: seq<Byte>)
    requires Printable(params) && Honours(kdf) && |salt| == params.saltLength
    ensures var encoded := Print(params, salt, Derive(kdf, p, salt, params));
            && (Verify(kdf, q, encoded) == Ok(()) <==> Derive(kdf, q, salt, params) == Derive(kdf, p, salt, params))
            && (Verify(kdf, q, encoded) != Ok(()) ==> Verify(kdf, q, encoded) == Err(Mismatch))
  {
    DecodePrint(params, salt, Derive(kdf, p, salt, params));
  }

  /** A hasher asks for a rehash of another's output exactly when one of three of its parameters is larger; never of its own. */
  lemma RehashExact(h: Hasher, params: Params, kdf: Kdf, plain: string, salt: seq<Byte>)
    requires Printable(params) && Honours(kdf) && |salt| == params.saltLength
    ensures var encoded := Print(params, salt, Derive(kdf, plain, salt, params));
            && h.NeedsRehash(encoded) ==
               Ok(params.memory < h.params.memory || params.iterations < h.params.iterations
                  || params.keyLength < h.params.keyLength)
            && (h.params == params ==> h.NeedsRehash(encoded) == Ok(false))
  {
    DecodePrint(params, salt, Derive(kdf, plain, salt, params));
  }

  /** Costs printed the plain way: no sign, blank, leading zero or trailing text. */
  ghost predicate PlainCosts(text: string) {
    exists m, t, p :: PlainDigits(m) && PlainDigits(t) && PlainDigits(p) && text == CostsOf(m, t, p)
  }

  /**
   An accepted string is the printed form of what it decodes to exactly when its version part is "v=19", its costs
   are plain and its base64 parts have no line breaks: a test of the text alone.
   */
  lemma ReprintExact(encoded: string)
    requires Decode(encoded).Ok?
    ensures var d := Decode(encoded).value;
            var parts := Split(encoded, '$');
            && |parts| == 6
            && (Print(d.params, d.salt, d.key) == encoded <==>
                  && parts[2] == "v=19"
                  && PlainCosts(parts[3])
                  && forall c :: c in parts[4] + parts[5] ==> !Base64.IsLineBreak(c))
  {
    var d := Decode(encoded).value;
    var parts := Split(encoded, '$');
    DecodedParts(encoded);
    PrintedAs(d.params, d.salt, d.key, encoded, parts);
    BothCanonical(parts[4], parts[5]);
    PlainCostsIff(parts[3], d.params.memory, d.params.iterations, d.params.parallelism);
  }

  lemma PlainCostsIff(text: string, m: nat, t: nat, p: nat)
    requires ScanCosts(text) == Some((m, t, p)) && m > 0 && t > 0 && p > 0
    ensures PlainCosts(text) <==> text == CostsText(m, t, p)
  {
    if text == CostsText(m, t, p) {
      DecimalIsPlain(m);
      DecimalIsPlain(t);
      DecimalIsPlain(p);
      assert text == CostsOf(Decimal(m), Decimal(t), Decimal(p));
    } else if PlainCosts(text) {
      var a, b, c :| PlainDigits(a) && PlainDigits(b) && PlainDigits(c) && text == CostsOf(a, b, c);
      ScanPlainCosts(a, b, c);
      DecimalOfValue(a);
      DecimalOfValue(b);
      DecimalOfValue(c);
    }
  }

  /** Plain costs scan to the values of their digits, or not at all. */
  lemma ScanPlainCosts(a: string, b: string, c: string)
    requires PlainDigits(a) && PlainDigits(b) && PlainDigits(c) && ScanCosts(CostsOf(a, b, c)).Some?
    ensures ScanCosts(CostsOf(a, b, c)) == Some((Value(a), Value(b), Value(c)))
  {
    ScanFieldDigits("m=", a, ",t=" + (b + (",p=" + (c + ""))), UINT32);
    ScanFieldDigits(",t=", b, ",p=" + (c + ""), UINT32);
    ScanFieldDigits(",p=", c, "", UINT8);
  }

  /** A text is the printed form exactly when its last four parts are. */
  lemma PrintedAs(params: Params, salt: seq<Byte>, key: seq<Byte>, encoded: string, parts: seq<string>)
    requires parts == Split(encoded, '$') && |parts| == 6 && parts[0] == "" && parts[1] == "argon2id"
    ensures Print(params, salt, key) == encoded <==>
              && parts[2] == "v=19"
              && parts[3] == CostsText(params.memory, params.iterations, params.parallelism)
              && parts[4] == Base64.Encode(salt) && parts[5] == Base64.Encode(key)
  {
    PrintParts(params, salt, key);
    SameParts(Print(params, salt, key), encoded);
    SixParts(Split(Print(params, salt, key), '$'), parts);
  }

  lemma BothCanonical(saltText: string, keyText: string)
    requires Base64.Decode(saltText).Some? && Base64.Decode(keyText).Some?
    ensures saltText == Base64.Encode(Base64.Decode(saltText).value) && keyText == Base64.Encode(Base64.Decode(keyText).value)
            <==> forall c :: c in saltText + keyText ==> !Base64.IsLineBreak(c)
  {
    Base64.CanonicalIff(saltText);
    Base64.CanonicalIff(keyText);
    assert forall c :: c in saltText + keyText <==> c in saltText || c in keyText;
  }

  lemma SameParts(a: string, b: string)
    ensures a == b <==> Split(a, '$') == Split(b, '$')
  {
    JoinSplit(a, '$');
    JoinSplit(b, '$');
  }

  lemma SixParts(a: seq<string>, b: seq<string>)
    requires |a| == |b| == 6 && a[0] == b[0] && a[1] == b[1]
    ensures a == b <==> a[2] == b[2] && a[3] == b[3] && a[4] == b[4] && a[5] == b[5]
  {
  }

  /** What an accepted string is made of. */
  lemma DecodedParts(encoded: string)
    requires Decode(encoded).Ok?
    ensures var parts := Split(encoded, '$');
            var d := Decode(encoded).value;
            && |parts| == 6 && parts[0] == "" && parts[1] == "argon2id"
            && Base64.Decode(parts[4]) == Some(d.salt) && Base64.Decode(parts[5]) == Some(d.key)
            && ScanCosts(parts[3]) == Some((d.params.memory, d.params.iterations, d.params.parallelism))
            && 0 < d.params.memory && 0 < d.params.iterations && 0 < d.params.parallelism
  {
  }

  /** The other round trip fails: text after a number is ignored, so every printed hash has a different twin. */
  lemma DecodeForgets(params: Params, salt: seq<Byte>, key: seq<Byte>) returns (twin: string)
    requires Printable(params) && |salt| == params.saltLength && |key| == params.keyLength
    ensures twin != Print(params, salt, key) && Decode(twin) == Decode(Print(params, salt, key))
  {
    var costs := CostsText(params.memory, params.iterations, params.parallelism);
    PrintParts(params, salt, key);
    NoSeparators(params.memory, params.iterations, params.parallelism, salt);
    NoSeparators(params.memory, params.iterations, params.parallelism, key);
    twin := "$" + "argon2id" + "$" + "v=19x" + "$" + costs + "$" + Base64.Encode(salt) + "$" + Base64.Encode(key);
    SplitSix("argon2id", "v=19x", costs, Base64.Encode(salt), Base64.Encode(key));
    assert Split(twin, '$')[2] != Split(Print(params, salt, key), '$')[2];
    TrailingVersion();
    ScanVersionText();
    VersionPasses("v=19", costs, Base64.Encode(salt), Base64.Encode(key));
    VersionPasses("v=19x", costs, Base64.Encode(salt), Base64.Encode(key));
  }

  lemma TrailingVersion()
    ensures ScanVersion("v=19x") == Some(VERSION)
  {
    var text := "19x";
    assert "v=19x"[2..] == text;
    DigitsThen("19", "x");
    assert "19" + "x" == text;
    assert text[..2] == "19" && "19"[..1] == "1" && "1"[..0] == "";
    assert Value("19") == 19;
  }
}
