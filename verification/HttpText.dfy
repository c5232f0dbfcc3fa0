/** The text of header lines: decimal numbers as `std::stoi` and `std::stoul` read them, words
    compared without regard to case, and the bytes that are stripped. */
module HttpText {
  import opened Messages
  import opened HttpParser

  // ---------------------------------------------------------------------------
  // Numbers
  // ---------------------------------------------------------------------------

  function DigitChar(d: nat): char
    requires d < 10
  {
    "0123456789"[d]
  }

  /** The decimal text of a number. */
  function Decimal(n: nat): (r: string)
    ensures r != ""
  {
    if n < 10 then [DigitChar(n)] else Decimal(n / 10) + [DigitChar(n % 10)]
  }

  function Signed(sign: string, n: nat): int {
    if sign == "-" then 0 - n else n
  }

  function Repeat(c: char, k: nat): (r: string)
    ensures |r| == k && forall i :: 0 <= i < k ==> r[i] == c
  {
    seq(k, _ => c)
  }

  predicate DigitFirst(s: string) {
    s != "" && s[0] in "0123456789"
  }

  /** Space, tab, line feed, vertical tab, form feed or carriage return. */
  predicate Blank(s: string) {
    forall i :: 0 <= i < |s| ==> s[i] as int in {32, 9, 10, 11, 12, 13}
  }

  lemma {:induction false} DigitCharIs(d: nat)
    requires d < 10
    ensures '0' <= DigitChar(d) <= '9' && DigitChar(d) as nat - '0' as nat == d
  {
  }

  lemma {:induction false} DigitFirstIs(s: string)
    ensures DigitFirst(s) <==> s != "" && '0' <= s[0] <= '9'
  {
    if s != "" && '0' <= s[0] <= '9' {
      assert s[0] == "0123456789"[s[0] as nat - '0' as nat];
    }
  }

  lemma {:induction false} DecimalFirst(n: nat)
    ensures '0' <= Decimal(n)[0] <= '9'
  {
    if n < 10 {
      DigitCharIs(n);
    } else {
      DecimalFirst(n / 10);
    }
  }

  lemma {:induction false} DecimalValue(n: nat, rest: string)
    ensures DigitsValue(Decimal(n) + rest, 0) == DigitsValue(rest, n)
    decreases n
  {
    var d := n % 10;
    DigitCharIs(d);
    if n < 10 {
      assert (Decimal(n) + rest)[1..] == rest;
    } else {
      var rest' := [DigitChar(d)] + rest;
      assert Decimal(n) + rest == Decimal(n / 10) + rest';
      DecimalValue(n / 10, rest');
      assert rest'[1..] == rest;
    }
  }

  lemma {:induction false} ZerosValue(k: nat, rest: string)
    ensures DigitsValue(Repeat('0', k) + rest, 0) == DigitsValue(rest, 0)
    decreases k
  {
    var s := Repeat('0', k) + rest;
    if k == 0 {
      assert s == rest;
    } else {
      assert s[1..] == Repeat('0', k - 1) + rest;
      ZerosValue(k - 1, rest);
    }
  }

  lemma {:induction false} IntegerTail(sign: string, k: nat, n: nat, rest: string)
    requires sign in {"", "+", "-"} && !DigitFirst(rest)
    ensures Integer(sign + (Repeat('0', k) + Decimal(n) + rest)) == Some(Signed(sign, n))
  {
    hide DigitsValue, Decimal, IsSpace;
    var digits := Repeat('0', k) + Decimal(n) + rest;
    var s := sign + digits;
    DecimalFirst(n);
    assert digits[0] == if k > 0 then '0' else Decimal(n)[0];
    if sign == "" {
      assert s == digits;
    } else {
      assert s[1..] == digits && s[0] == sign[0];
    }
    assert digits == Repeat('0', k) + (Decimal(n) + rest);
    ZerosValue(k, Decimal(n) + rest);
    DecimalValue(n, rest);
    DigitFirstIs(rest);
    NoSpaceFirst(s[0]);
    NoDigits(rest, n);
    assert sign != "" ==> sign[0] == '+' || sign[0] == '-';
  }

  lemma {:induction false} NoDigits(rest: string, n: nat)
    requires rest == "" || !('0' <= rest[0] <= '9')
    ensures DigitsValue(rest, n) == n
  {
  }

  lemma {:induction false} NoSpaceFirst(c: char)
    ensures IsSpace(c) <==> c as int in {32, 9, 10, 11, 12, 13}
  {
  }

  lemma {:induction false} SkipBlank(blank: string, s: string)
    requires Blank(blank)
    ensures Integer(blank + s) == Integer(s)
    decreases |blank|
  {
    if blank == "" {
      assert blank + s == s;
    } else {
      NoSpaceFirst(blank[0]);
      assert (blank + s)[1..] == blank[1..] + s;
      SkipBlank(blank[1..], s);
    }
  }

  /** Decimal text: space, a sign, zeros and the digits of a number, whatever follows. */
  lemma {:induction false} IntegerIs(blank: string, sign: string, k: nat, n: nat, rest: string)
    requires Blank(blank) && sign in {"", "+", "-"} && !DigitFirst(rest)
    ensures Integer(blank + (sign + (Repeat('0', k) + Decimal(n) + rest))) == Some(Signed(sign, n))
  {
    hide Integer, Decimal;
    SkipBlank(blank, sign + (Repeat('0', k) + Decimal(n) + rest));
    IntegerTail(sign, k, n, rest);
  }

  /** Without a digit behind space and sign there is no number. */
  lemma {:induction false} IntegerNone(blank: string, sign: string, rest: string)
    requires Blank(blank) && sign in {"", "+", "-"} && !DigitFirst(rest)
    requires sign == "" && rest != "" ==> !Blank(rest[..1]) && rest[0] != '+' && rest[0] != '-'
    ensures Integer(blank + (sign + rest)) == None
  {
    hide DigitsValue;
    SkipBlank(blank, sign + rest);
    DigitFirstIs(rest);
    if sign == "" {
      assert sign + rest == rest;
      if rest != "" {
        NoSpaceFirst(rest[0]);
        assert rest[..1][0] == rest[0];
      }
    } else {
      assert (sign + rest)[1..] == rest && (sign + rest)[0] == sign[0];
      assert sign[0] == '+' || sign[0] == '-';
    }
  }

  lemma {:induction false} PlainDecimal(sign: string, n: nat)
    requires sign in {"", "+", "-"}
    ensures Integer(sign + Decimal(n)) == Some(Signed(sign, n))
  {
    hide Integer, Decimal;
    IntegerIs("", sign, 0, n, "");
    assert Repeat('0', 0) + Decimal(n) + "" == Decimal(n);
    assert "" + (sign + Decimal(n)) == sign + Decimal(n);
  }

  /** The text of a number is read as that number, if and only if it fits the width of the
      type: 64 bits for a length, where a minus sign negates modulo 2^64, and 32 for a code. */
  lemma {:induction false} DecimalRead(n: nat)
    ensures Stoul(Decimal(n)) == if n < 0x1_0000_0000_0000_0000 then Some(n) else None
    ensures Stoul("-" + Decimal(n)) == if n == 0 then Some(0) else if n < 0x1_0000_0000_0000_0000 then Some(0x1_0000_0000_0000_0000 - n) else None
    ensures Stoi(Decimal(n)) == if n < 0x8000_0000 then Some(n) else None
    ensures Stoi("-" + Decimal(n)) == if n <= 0x8000_0000 then Some(Signed("-", n)) else None
  {
    hide Integer, Decimal;
    PlainDecimal("", n);
    PlainDecimal("-", n);
    assert "" + Decimal(n) == Decimal(n);
    if 0 < n < 0x1_0000_0000_0000_0000 {
      Negated(n);
    }
  }

  lemma {:induction false} Negated(n: nat)
    requires 0 < n < 0x1_0000_0000_0000_0000
    ensures (0 - n) % 0x1_0000_0000_0000_0000 == 0x1_0000_0000_0000_0000 - n
  {
  }

  // ---------------------------------------------------------------------------
  // Words
  // ---------------------------------------------------------------------------

  /** The same byte, or the two cases of one letter. */
  predicate SameLetter(x: char, y: char) {
    x == y || ('a' <= x <= 'z' && y as int == x as int - 32) || ('A' <= x <= 'Z' && y as int == x as int + 32)
  }

  /** The same word but for the case of its letters. */
  predicate SameWord(a: string, b: string) {
    |a| == |b| && forall i :: 0 <= i < |a| ==> SameLetter(a[i], b[i])
  }

  lemma {:induction false} SameWordStep(a: string, b: string)
    requires a != "" && b != ""
    ensures SameWord(a, b) <==> SameLetter(a[0], b[0]) && SameWord(a[1..], b[1..])
  {
    if SameLetter(a[0], b[0]) && SameWord(a[1..], b[1..]) {
      forall i | 0 <= i < |a| ensures SameLetter(a[i], b[i]) {
        if i > 0 {
          assert a[1..][i - 1] == a[i] && b[1..][i - 1] == b[i];
        }
      }
    }
    if SameWord(a, b) {
      forall i | 0 <= i < |a[1..]| ensures SameLetter(a[1..][i], b[1..][i]) {
        assert SameLetter(a[i + 1], b[i + 1]);
      }
    }
  }

  lemma {:induction false} LowerIs(x: char, y: char)
    ensures Lower(x) == Lower(y) <==> SameLetter(x, y)
  {
  }

  /** Comparing as many bytes as the first word has: the other word may be longer, or end where
      the first has a NUL. */
  lemma {:induction false} StrNCaseEqIs(a: string, b: string)
    requires '\0' !in b
    ensures StrNCaseEq(a, b) <==>
            if |a| <= |b| then SameWord(a, b[..|a|]) else SameWord(a[..|b|], b) && a[|b|] == '\0'
    decreases |a|
  {
    if a == "" {
    } else if b == "" {
      LowerIs(a[0], '\0');
      assert a[..0] == "";
    } else {
      LowerIs(a[0], b[0]);
      StrNCaseEqIs(a[1..], b[1..]);
      if |a| <= |b| {
        SameWordStep(a, b[..|a|]);
        assert b[..|a|][1..] == b[1..][..|a| - 1];
      } else {
        SameWordStep(a[..|b|], b);
        assert a[..|b|][1..] == a[1..][..|b| - 1] && a[1..][|b| - 1] == a[|b|];
      }
    }
  }

  /** Of two words as long as each other: they are the same but for case. */
  lemma {:induction false} SameLength(a: string, b: string)
    requires '\0' !in b && |a| == |b|
    ensures StrNCaseEq(a, b) <==> SameWord(a, b)
  {
    StrNCaseEqIs(a, b);
    assert b[..|a|] == b;
  }

  // ---------------------------------------------------------------------------
  // Stripping
  // ---------------------------------------------------------------------------

  /** All carriage returns at the end of a line are stripped, and nothing else. */
  lemma {:induction false} StripsReturns(line: string, k: nat)
    requires line != "" ==> line[|line| - 1] != '\r'
    ensures StripTrailing(line + Repeat('\r', k)) == line
    decreases k
  {
    var s := line + Repeat('\r', k);
    if k == 0 {
      assert s == line;
    } else {
      assert s[..|s| - 1] == line + Repeat('\r', k - 1);
      StripsReturns(line, k - 1);
    }
  }

  /** All spaces in front of a value are skipped, and nothing else. */
  lemma {:induction false} SkipsSpaces(val: string, k: nat)
    requires val != "" ==> val[0] != ' '
    ensures SkipSpaces(Repeat(' ', k) + val) == val
    decreases k
  {
    var s := Repeat(' ', k) + val;
    if k == 0 {
      assert s == val;
    } else {
      assert s[1..] == Repeat(' ', k - 1) + val;
      SkipsSpaces(val, k - 1);
    }
  }
}
