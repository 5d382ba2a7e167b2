/** The string operations the packages rely on: splitting, white space and decimal numbers. */
module Text {

  // ---- Splitting at a character ----

  /** Go's strings.Split for a one-character separator: always at least one part. */
  function Split(s: string, sep: char): (parts: seq<string>)
    ensures |parts| >= 1
  {
    if s == "" then [""]
    else
      var rest := Split(s[1..], sep);
      if s[0] == sep then [""] + rest else [[s[0]] + rest[0]] + rest[1..]
  }

  function Join(parts: seq<string>, sep: char): string
    requires |parts| >= 1
  {
    if |parts| == 1 then parts[0] else parts[0] + [sep] + Join(parts[1..], sep)
  }

  /** Splitting at a separator splits both sides on their own. */
  lemma {:induction false} SplitAround(a: string, b: string, sep: char)
    ensures Split(a + [sep] + b, sep) == Split(a, sep) + Split(b, sep)
    decreases a
  {
    if a == "" {
      assert a + [sep] + b == [sep] + b;
      assert ([sep] + b)[1..] == b;
    } else {
      assert (a + [sep] + b)[1..] == a[1..] + [sep] + b;
      SplitAround(a[1..], b, sep);
    }
  }

  lemma {:induction false} SplitWhole(s: string, sep: char)
    requires sep !in s
    ensures Split(s, sep) == [s]
    decreases s
  {
    if s != "" {
      assert s[0] in s;
      SplitWhole(s[1..], sep);
      assert [s[0]] + s[1..] == s;
    }
  }

  lemma {:induction false} JoinSplit(s: string, sep: char)
    ensures Join(Split(s, sep), sep) == s
    decreases s
  {
    if s != "" {
      JoinSplit(s[1..], sep);
      var rest := Split(s[1..], sep);
      if s[0] == sep {
        assert Split(s, sep)[1..] == rest;
        assert Join(Split(s, sep), sep) == "" + [sep] + s[1..];
      } else {
        assert Split(s, sep)[1..] == rest[1..];
        assert Split(s, sep)[0] == [s[0]] + rest[0];
      }
    }
  }

  // ---- White space ----

  /** Unicode white space. */
  predicate IsSpace(c: char) {
    var n := c as int;
    || 0x09 <= n <= 0x0D || n == 0x20 || n == 0x85 || n == 0xA0 || n == 0x1680
    || 0x2000 <= n <= 0x200A || n == 0x2028 || n == 0x2029 || n == 0x202F || n == 0x205F || n == 0x3000
  }

  lemma SpacesAre(c: char)
    ensures IsSpace(c) <==>
            c as int in {9, 10, 11, 12, 13, 32, 133, 160, 5760, 8192, 8193, 8194, 8195, 8196, 8197, 8198, 8199, 8200,
                         8201, 8202, 8232, 8233, 8239, 8287, 12288}
  {
  }

  function TrimLeft(s: string): string {
    if s != "" && IsSpace(s[0]) then TrimLeft(s[1..]) else s
  }

  function TrimRight(s: string): string {
    if s != "" && IsSpace(s[|s| - 1]) then TrimRight(s[..|s| - 1]) else s
  }

  function TrimSpace(s: string): string {
    TrimRight(TrimLeft(s))
  }

  predicate AllSpace(s: string) {
    forall i :: 0 <= i < |s| ==> IsSpace(s[i])
  }

  /** No white space at either end. */
  predicate Tight(s: string) {
    s == "" || (!IsSpace(s[0]) && !IsSpace(s[|s| - 1]))
  }

  lemma {:induction false} TrimLeftIs(left: string, text: string)
    requires AllSpace(left) && (text == "" || !IsSpace(text[0]))
    ensures TrimLeft(left + text) == text
    decreases left
  {
    if left == "" {
      assert left + text == text;
    } else {
      assert (left + text)[1..] == left[1..] + text;
      TrimLeftIs(left[1..], text);
    }
  }

  lemma {:induction false} TrimRightIs(text: string, right: string)
    requires AllSpace(right) && (text == "" || !IsSpace(text[|text| - 1]))
    ensures TrimRight(text + right) == text
    decreases right
  {
    if right == "" {
      assert text + right == text;
    } else {
      assert (text + right)[..|text + right| - 1] == text + right[..|right| - 1];
      TrimRightIs(text, right[..|right| - 1]);
    }
  }

  /** What is left of a text is what stands between the white space at its ends. */
  lemma TrimSpaceIs(left: string, text: string, right: string)
    requires AllSpace(left) && AllSpace(right) && Tight(text)
    ensures TrimSpace(left + text + right) == text
  {
    if text == "" {
      assert left + text + right == (left + right) + "";
      TrimLeftIs(left + right, "");
    } else {
      assert left + text + right == left + (text + right);
      TrimLeftIs(left, text + right);
      TrimRightIs(text, right);
    }
  }

  /** Every text is so made up. */
  lemma {:induction false} TrimSpaceSplits(s: string) returns (left: string, right: string)
    ensures AllSpace(left) && AllSpace(right) && Tight(TrimSpace(s)) && s == left + TrimSpace(s) + right
    decreases s
  {
    if s == "" {
      left, right := "", "";
    } else if IsSpace(s[0]) {
      left, right := TrimSpaceSplits(s[1..]);
      left := [s[0]] + left;
    } else {
      left := "";
      right := TrimRightSplits(s);
    }
  }

  lemma {:induction false} TrimRightSplits(s: string) returns (right: string)
    requires s != "" && !IsSpace(s[0])
    ensures AllSpace(right) && Tight(TrimRight(s)) && s == TrimRight(s) + right
    decreases s
  {
    if IsSpace(s[|s| - 1]) {
      right := TrimRightSplits(s[..|s| - 1]);
      right := right + [s[|s| - 1]];
    } else {
      right := "";
    }
  }

  // ---- Decimal numbers ----

  predicate IsDigit(c: char) {
    '0' <= c <= '9'
  }

  function DigitOf(n: nat): (c: char)
    requires n < 10
    ensures IsDigit(c) && c as int - '0' as int == n
  {
    ('0' as int + n) as char
  }

  function Decimal(n: nat): (s: string)
    ensures s != "" && forall i :: 0 <= i < |s| ==> IsDigit(s[i])
  {
    if n < 10 then [DigitOf(n)] else Decimal(n / 10) + [DigitOf(n % 10)]
  }

  /** How many characters at the start are digits. */
  function DigitCount(s: string): (n: nat)
    ensures n <= |s|
    ensures forall i :: 0 <= i < n ==> IsDigit(s[i])
    ensures n < |s| ==> !IsDigit(s[n])
  {
    if s != "" && IsDigit(s[0]) then 1 + DigitCount(s[1..]) else 0
  }

  function Value(digits: string): nat
    requires forall i :: 0 <= i < |digits| ==> IsDigit(digits[i])
  {
    if digits == "" then 0
    else
      var last := digits[|digits| - 1];
      assert IsDigit(last);
      10 * Value(digits[..|digits| - 1]) + (last as int - '0' as int)
  }

  lemma {:induction false} ValueOfDecimal(n: nat)
    ensures Value(Decimal(n)) == n
  {
    if n >= 10 {
      ValueOfDecimal(n / 10);
      assert Decimal(n)[..|Decimal(n)| - 1] == Decimal(n / 10);
    } else {
      assert Decimal(n)[..0] == "";
    }
  }

  /** Digits without a leading zero, at least one. */
  predicate PlainDigits(s: string) {
    s != "" && s[0] != '0' && forall i :: 0 <= i < |s| ==> IsDigit(s[i])
  }

  lemma {:induction false} ValuePositive(s: string)
    requires PlainDigits(s)
    ensures Value(s) > 0
    decreases s
  {
    if |s| > 1 {
      ValuePositive(s[..|s| - 1]);
    }
  }

  lemma OneDigit(c: char)
    requires IsDigit(c)
    ensures Value([c]) == c as int - '0' as int && Decimal(Value([c])) == [c]
  {
    assert [c][..0] == "";
  }

  /** A further digit is printed after the digits before it. */
  lemma OneMoreDigit(init: string, c: char)
    requires PlainDigits(init) && IsDigit(c) && Value(init) > 0
    ensures Value(init + [c]) == 10 * Value(init) + (c as int - '0' as int)
    ensures Decimal(Value(init + [c])) == Decimal(Value(init)) + [c]
  {
    assert (init + [c])[..|init|] == init;
    var n, d := Value(init), c as int - '0' as int;
    assert (10 * n + d) / 10 == n && (10 * n + d) % 10 == d;
  }

  /** Digits without a leading zero are printed back as they are... */
  lemma {:induction false} DecimalOfValue(s: string)
    requires PlainDigits(s)
    ensures Decimal(Value(s)) == s
    decreases s
  {
    var last := |s| - 1;
    if last > 0 {
      var init := s[..last];
      DecimalOfValue(init);
      ValuePositive(init);
      OneMoreDigit(init, s[last]);
      assert s == init + [s[last]];
    } else {
      OneDigit(s[0]);
      assert s == [s[0]];
    }
  }

  /** ... and every positive number is printed so. */
  lemma {:induction false} DecimalIsPlain(n: nat)
    requires n > 0
    ensures PlainDigits(Decimal(n))
  {
    if n >= 10 {
      DecimalIsPlain(n / 10);
    }
  }

  /** A run of digits ends where the text after it starts with something else. */
  lemma {:induction false} DigitsThen(digits: string, rest: string)
    requires forall i :: 0 <= i < |digits| ==> IsDigit(digits[i])
    requires rest == "" || !IsDigit(rest[0])
    ensures DigitCount(digits + rest) == |digits|
    decreases digits
  {
    if digits == "" {
      assert digits + rest == rest;
    } else {
      assert (digits + rest)[1..] == digits[1..] + rest;
      DigitsThen(digits[1..], rest);
    }
  }
}
