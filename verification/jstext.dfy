/** The JavaScript string and number primitives the page logic relies on:
    `toLowerCase` (ASCII letters only), `String.prototype.includes`, `parseInt`
    for radixes 2 to 10, and `Number.prototype.toString` on integers. */
module JsText {
  import opened Wrappers

  function LowerChar(c: char): char {
    if 'A' <= c <= 'Z' then (c as int + 32) as char else c
  }

  /** `s.toLowerCase()`, restricted to the ASCII letters. */
  function Lower(s: string): (r: string)
    ensures |r| == |s|
    ensures forall i :: 0 <= i < |s| ==> r[i] == LowerChar(s[i])
  {
    if s == [] then [] else [LowerChar(s[0])] + Lower(s[1..])
  }

  /** Lower-casing twice is lower-casing once. */
  lemma LowerIdempotent(s: string)
    ensures Lower(Lower(s)) == Lower(s)
  {
  }

  /** `t` occurs in `s` starting at index `i`. */
  predicate OccursAt(s: string, t: string, i: int) {
    0 <= i && i + |t| <= |s| && s[i..i + |t|] == t
  }

  /** `s.includes(t)`. */
  function Includes(s: string, t: string): (r: bool)
    ensures r <==> exists i :: OccursAt(s, t, i)
    decreases |s|
  {
    if |t| > |s| then false
    else if s[..|t|] == t then (assert OccursAt(s, t, 0); true)
    else
      var rest := Includes(s[1..], t);
      assert rest ==> exists i :: OccursAt(s, t, i) by {
        if rest {
          var i :| OccursAt(s[1..], t, i);
          assert s[1..][i..i + |t|] == s[i + 1..i + 1 + |t|];
          assert OccursAt(s, t, i + 1);
        }
      }
      assert (exists i :: OccursAt(s, t, i)) ==> rest by {
        if exists i :: OccursAt(s, t, i) {
          var i :| OccursAt(s, t, i);
          assert i != 0;
          assert s[1..][i - 1..i - 1 + |t|] == s[i..i + |t|];
          assert OccursAt(s[1..], t, i - 1);
        }
      }
      rest
  }

  /** Every string includes the empty string. */
  lemma IncludesEmpty(s: string)
    ensures Includes(s, "")
  {
    assert OccursAt(s, "", 0);
  }

  // ---------------------------------------------------------------------------
  // parseInt

  /** The ECMAScript white space and line terminator characters `parseInt` skips. */
  predicate IsJsSpace(c: char) {
    c == ' ' || c == '\t' || c == '\n' || c == '\r' || c == '\U{000B}' || c == '\U{000C}'
    || c == '\U{00A0}' || c == '\U{1680}' || ('\U{2000}' <= c <= '\U{200A}')
    || c == '\U{2028}' || c == '\U{2029}' || c == '\U{202F}' || c == '\U{205F}'
    || c == '\U{3000}' || c == '\U{FEFF}'
  }

  function TrimStart(s: string): (r: string)
    ensures |r| <= |s| && r == s[|s| - |r|..]
    ensures r == [] || !IsJsSpace(r[0])
    ensures forall i :: 0 <= i < |s| - |r| ==> IsJsSpace(s[i])
  {
    if s != [] && IsJsSpace(s[0]) then TrimStart(s[1..]) else s
  }

  predicate IsDigit(c: char, radix: int) {
    '0' <= c <= '9' && (c as int - '0' as int) < radix
  }

  function DigitValue(c: char): int {
    c as int - '0' as int
  }

  /** The longest prefix of `s` made of digits of the radix. */
  function DigitPrefix(s: string, radix: int): (p: string)
    ensures |p| <= |s| && p == s[..|p|]
    ensures forall i :: 0 <= i < |p| ==> IsDigit(p[i], radix)
    ensures |p| < |s| ==> !IsDigit(s[|p|], radix)
  {
    if s != [] && IsDigit(s[0], radix) then [s[0]] + DigitPrefix(s[1..], radix) else []
  }

  /** The number a digit string denotes in the radix (most significant digit first). */
  function DigitsValue(ds: string, radix: int): int
    decreases |ds|
  {
    if ds == [] then 0
    else DigitsValue(ds[..|ds| - 1], radix) * radix + DigitValue(ds[|ds| - 1])
  }

  /** `parseInt(s, radix)`; `None` is `NaN`. A negative zero is the integer 0. */
  function ParseInt(s: string, radix: int): (r: Option<int>)
    requires 2 <= radix <= 10
    ensures r.None? <==> DigitPrefix(UnsignedPart(s), radix) == []
    ensures r.Some? && Negative(s) ==> r.value <= 0
    ensures r.Some? && !Negative(s) ==> r.value >= 0
  {
    var digits := DigitPrefix(UnsignedPart(s), radix);
    if digits == [] then None
    else
      DigitsValueNonNegative(digits, radix);
      var n := DigitsValue(digits, radix);
      Some(if Negative(s) then -n else n)
  }

  /** After leading white space, a `-` sign. */
  predicate Negative(s: string) {
    var t := TrimStart(s);
    t != [] && t[0] == '-'
  }

  /** The text after leading white space and an optional sign. */
  function UnsignedPart(s: string): string {
    var t := TrimStart(s);
    if t != [] && (t[0] == '-' || t[0] == '+') then t[1..] else t
  }

  lemma {:induction false} DigitsValueNonNegative(ds: string, radix: int)
    requires 2 <= radix
    requires forall i :: 0 <= i < |ds| ==> IsDigit(ds[i], radix)
    ensures DigitsValue(ds, radix) >= 0
    decreases |ds|
  {
    if ds != [] {
      DigitsValueNonNegative(ds[..|ds| - 1], radix);
    }
  }

  // ---------------------------------------------------------------------------
  // Number.prototype.toString

  function DigitChar(d: int): (c: char)
    requires 0 <= d < 10
    ensures '0' <= c <= '9' && DigitValue(c) == d
  {
    ('0' as int + d) as char
  }

  /** The digits of a natural number in the radix, without leading zeros. */
  function Digits(n: nat, radix: int): (ds: string)
    requires 2 <= radix <= 10
    ensures |ds| >= 1
    ensures forall i :: 0 <= i < |ds| ==> IsDigit(ds[i], radix)
    ensures n == 0 ==> ds == "0"
    ensures n > 0 ==> ds[0] != '0'
  {
    if n < radix then [DigitChar(n)]
    else
      DivStep(n, radix);
      Digits(n / radix, radix) + [DigitChar(n % radix)]
  }

  /** `n.toString(radix)` for an integer `n`; the page calls it with radix 10. */
  function NumberToString(n: int, radix: int): (s: string)
    requires 2 <= radix <= 10
    ensures |s| >= 1
    ensures n < 0 <==> s[0] == '-'
    ensures n < 0 ==> |s| >= 2
    ensures forall i :: (if n < 0 then 1 else 0) <= i < |s| ==> IsDigit(s[i], radix)
    ensures n == 0 ==> s == "0"
    ensures n != 0 ==> s[if n < 0 then 1 else 0] != '0'
  {
    if n < 0 then "-" + Digits(-n, radix) else Digits(n, radix)
  }

  /** The digits of `n` read back in the same radix are `n`. */
  lemma {:induction false} DigitsValueOfDigits(n: nat, radix: int)
    requires 2 <= radix <= 10
    ensures DigitsValue(Digits(n, radix), radix) == n
  {
    if n >= radix {
      var q, d := n / radix, n % radix;
      DivStep(n, radix);
      DigitsValueOfDigits(q, radix);
      DigitsValueAppend(Digits(q, radix), DigitChar(d), radix);
      assert DigitValue(DigitChar(d)) == d;
      assert Digits(n, radix) == Digits(q, radix) + [DigitChar(d)];
    } else {
      DigitsValueAppend([], DigitChar(n), radix);
      assert [] + [DigitChar(n)] == Digits(n, radix);
    }
  }

  lemma DivStep(n: nat, radix: int)
    requires 2 <= radix <= n
    ensures 0 <= n / radix < n && 0 <= n % radix < radix && n == (n / radix) * radix + n % radix
  {
  }

  /** One more digit at the end multiplies the value by the radix and adds the digit. */
  lemma DigitsValueAppend(front: string, c: char, radix: int)
    ensures DigitsValue(front + [c], radix) == DigitsValue(front, radix) * radix + DigitValue(c)
  {
    assert (front + [c])[..|front|] == front;
  }

  /** A string made only of radix digits is its own digit prefix. */
  lemma {:induction false} DigitPrefixAll(s: string, radix: int)
    requires forall i :: 0 <= i < |s| ==> IsDigit(s[i], radix)
    ensures DigitPrefix(s, radix) == s
  {
    if s != [] {
      DigitPrefixAll(s[1..], radix);
      assert [s[0]] + s[1..] == s;
    }
  }

  /** `parseInt(n.toString(radix), radix) == n`: every radix from 2 to 10 reads back
      every integer it writes. */
  lemma RadixRoundTrip(n: int, radix: int)
    requires 2 <= radix <= 10
    ensures ParseInt(NumberToString(n, radix), radix) == Some(n)
  {
    var m: nat := if n < 0 then -n else n;
    var ds := Digits(m, radix);
    DigitPrefixAll(ds, radix);
    DigitsValueOfDigits(m, radix);
    if n >= 0 {
      assert NumberToString(n, radix) == ds;
      ParseUnsignedDigits(ds, radix);
    } else {
      assert NumberToString(n, radix)[1..] == ds;
      ParseMinus(NumberToString(n, radix), radix);
    }
  }

  /** The digit prefix of a concatenation. */
  lemma {:induction false} DigitPrefixAppend(a: string, b: string, radix: int)
    ensures DigitPrefix(a + b, radix) ==
      if DigitPrefix(a, radix) == a then a + DigitPrefix(b, radix) else DigitPrefix(a, radix)
  {
    if a != [] {
      DigitPrefixAppend(a[1..], b, radix);
      assert (a + b)[0] == a[0];
      assert (a + b)[1..] == a[1..] + b;
      if IsDigit(a[0], radix) {
        assert DigitPrefix(a + b, radix) == [a[0]] + DigitPrefix(a[1..] + b, radix);
        assert DigitPrefix(a, radix) == [a[0]] + DigitPrefix(a[1..], radix);
        assert [a[0]] + a[1..] == a;
        if DigitPrefix(a[1..], radix) == a[1..] {
          assert DigitPrefix(a, radix) == a;
          assert [a[0]] + (a[1..] + DigitPrefix(b, radix)) == a + DigitPrefix(b, radix);
          assert DigitPrefix(a + b, radix) == a + DigitPrefix(b, radix);
        } else {
          assert DigitPrefix(a, radix) != a;
          assert DigitPrefix(a + b, radix) == DigitPrefix(a, radix);
        }
      } else {
        assert DigitPrefix(a + b, radix) == [];
        assert DigitPrefix(a, radix) == [] != a;
      }
    } else {
      assert a + b == b;
    }
  }

  /** Reading the decimal digits of `n` in base 8 never gives more than `n`, and for
      `n >= 8` it gives strictly less or nothing at all. */
  lemma {:induction false} OctalReadingOfDigits(n: nat)
    ensures var p := DigitPrefix(Digits(n, 10), 8);
            DigitsValue(p, 8) <= n && (n >= 8 ==> p == [] || DigitsValue(p, 8) < n)
  {
    if n < 10 {
      if n < 8 {
        assert DigitPrefix(Digits(n, 10), 8) == Digits(n, 10);
      }
    } else {
      var m := n / 10;
      var c := DigitChar(n % 10);
      OctalReadingOfDigits(m);
      DigitPrefixAppend(Digits(m, 10), [c], 8);
      var p := DigitPrefix(Digits(n, 10), 8);
      if DigitPrefix(Digits(m, 10), 8) == Digits(m, 10) && IsDigit(c, 8) {
        assert DigitPrefix([c], 8) == [c];
        assert p[..|p| - 1] == Digits(m, 10);
        assert DigitsValue(p, 8) == DigitsValue(Digits(m, 10), 8) * 8 + n % 10;
      } else if DigitPrefix(Digits(m, 10), 8) == Digits(m, 10) {
        assert DigitPrefix([c], 8) == [];
        assert p == Digits(m, 10);
      }
    }
  }

  /** `parseInt(n.toString(), 8)` gives back `n` exactly when `n` is written with a single
      octal digit, -7 to 7; never when `n >= 8` or `n <= -8`. */
  lemma OctalMisreadsDecimal(n: int)
    ensures -8 < n < 8 ==> ParseInt(NumberToString(n, 10), 8) == Some(n)
    ensures (n >= 8 || n <= -8) ==> ParseInt(NumberToString(n, 10), 8) != Some(n)
  {
    var m: nat := if n < 0 then -n else n;
    var ds := Digits(m, 10);
    if n >= 0 {
      assert NumberToString(n, 10) == ds;
      ParseUnsignedDigits(ds, 8);
    } else {
      assert NumberToString(n, 10)[1..] == ds;
      ParseMinus(NumberToString(n, 10), 8);
    }
    OctalReadingOfDigits(m);
    if m < 8 {
      assert DigitPrefix(ds, 8) == ds;
    }
  }

  /** Text that does not start with white space is read from its first character on. */
  lemma NoSpaceToSkip(s: string)
    requires s != [] && !IsJsSpace(s[0])
    ensures TrimStart(s) == s
    ensures Negative(s) <==> s[0] == '-'
    ensures UnsignedPart(s) == if s[0] == '-' || s[0] == '+' then s[1..] else s
  {
  }

  /** Text that starts with a minus sign is read as the negated digit prefix of the rest. */
  lemma ParseMinus(s: string, radix: int)
    requires 2 <= radix <= 10
    requires s != [] && s[0] == '-'
    ensures var p := DigitPrefix(s[1..], radix);
            ParseInt(s, radix) == if p == [] then None else Some(-DigitsValue(p, radix))
  {
    NoSpaceToSkip(s);
  }

  /** Text that starts with a decimal digit is read from its digit prefix, with no sign
      and no white space to skip. */
  lemma ParseUnsignedDigits(s: string, radix: int)
    requires 2 <= radix <= 10
    requires s != [] && '0' <= s[0] <= '9'
    ensures var p := DigitPrefix(s, radix);
            ParseInt(s, radix) == if p == [] then None else Some(DigitsValue(p, radix))
  {
    NoSpaceToSkip(s);
  }

  /** `parseInt("1", radix)` is 1 in every radix. */
  lemma ParseIntOne(radix: int)
    requires 2 <= radix <= 10
    ensures ParseInt("1", radix) == Some(1)
  {
    ParseUnsignedDigits("1", radix);
    assert DigitPrefix("1", radix) == "1";
    assert DigitsValue("1", radix) == DigitsValue("", radix) * radix + 1;
  }

  /** `parseInt("NaN", radix)`, the text a NaN page is written as, is NaN again. */
  lemma NaNText(radix: int)
    requires 2 <= radix <= 10
    ensures ParseInt("NaN", radix).None?
  {
    NoSpaceToSkip("NaN");
    assert DigitPrefix("NaN", radix) == [];
  }
}
