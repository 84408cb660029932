/**
 * Number handling of the pipeline: `str.strip()`, the comma-to-dot replacement of
 * `parse_finnish_float` and the subset of Python's `float()` that decimal numerals use.
 */
module Locale {
  import opened Wrappers

  /** The characters Python's `str.isspace()` accepts, which `str.strip()` removes. */
  predicate IsSpace(c: char) {
    c == ' ' || '\t' <= c <= '\r' || '\U{1c}' <= c <= '\U{1f}' || c == '\U{85}' || c == '\U{a0}'
    || c == '\U{1680}' || '\U{2000}' <= c <= '\U{200a}' || c == '\U{2028}' || c == '\U{2029}'
    || c == '\U{202f}' || c == '\U{205f}' || c == '\U{3000}'
  }

  /** `str.strip()` with no argument: whitespace is removed from both ends. */
  function Strip(s: string): (r: string)
    ensures StripOffset(s) + |r| <= |s| && r == s[StripOffset(s)..StripOffset(s) + |r|]
    decreases |s|
  {
    if s == [] then []
    else if IsSpace(s[0]) then
      var r := Strip(s[1..]);
      SliceOfDrop(s, StripOffset(s[1..]), StripOffset(s[1..]) + |r|);
      r
    else if IsSpace(s[|s| - 1]) then
      var r := Strip(s[..|s| - 1]);
      SliceOfTake(s, StripOffset(s[..|s| - 1]), StripOffset(s[..|s| - 1]) + |r|);
      r
    else s
  }

  lemma SliceOfDrop(s: string, a: nat, b: nat)
    requires s != [] && a <= b <= |s| - 1
    ensures s[1..][a..b] == s[a + 1..b + 1]
  {
  }

  lemma SliceOfTake(s: string, a: nat, b: nat)
    requires s != [] && a <= b <= |s| - 1
    ensures s[..|s| - 1][a..b] == s[a..b]
  {
  }

  /** How many leading characters `Strip` removes. */
  function StripOffset(s: string): (k: nat)
    ensures k <= |s|
    decreases |s|
  {
    if s == [] then 0
    else if IsSpace(s[0]) then 1 + StripOffset(s[1..])
    else if IsSpace(s[|s| - 1]) then StripOffset(s[..|s| - 1])
    else 0
  }

  /** Everything `Strip` removes is whitespace. */
  lemma {:induction false} StripRemovesOnlySpace(s: string, i: nat)
    requires i < |s| && !(StripOffset(s) <= i < StripOffset(s) + |Strip(s)|)
    ensures IsSpace(s[i])
    decreases |s|
  {
    if s == [] {
    } else if IsSpace(s[0]) {
      if i > 0 {
        assert s[1..][i - 1] == s[i];
        StripRemovesOnlySpace(s[1..], i - 1);
      }
    } else if IsSpace(s[|s| - 1]) {
      if i < |s| - 1 {
        assert s[..|s| - 1][i] == s[i];
        StripRemovesOnlySpace(s[..|s| - 1], i);
      }
    }
  }

  /** `strip()` leaves nothing exactly when the text is all whitespace (the test `if day_consumption:`). */
  lemma {:induction false} StripEmptyIffBlank(s: string)
    ensures Strip(s) == [] <==> forall i :: 0 <= i < |s| ==> IsSpace(s[i])
    decreases |s|
  {
    if Strip(s) == [] {
      forall i | 0 <= i < |s| ensures IsSpace(s[i]) {
        StripRemovesOnlySpace(s, i);
      }
    }
    if s != [] && forall i :: 0 <= i < |s| ==> IsSpace(s[i]) {
      assert IsSpace(s[0]);
      forall i | 0 <= i < |s| - 1 ensures IsSpace(s[1..][i]) {
        assert s[1..][i] == s[i + 1];
      }
      StripEmptyIffBlank(s[1..]);
    }
  }

  /** `value.replace(',', '.')`: every comma becomes a dot, every other character stays. */
  function CommaToDot(s: string): (r: string)
    ensures |r| == |s|
    ensures forall i :: 0 <= i < |s| ==> r[i] == if s[i] == ',' then '.' else s[i]
    ensures ',' !in r
  {
    if s == [] then [] else [if s[0] == ',' then '.' else s[0]] + CommaToDot(s[1..])
  }

  predicate IsDigit(c: char) { '0' <= c <= '9' }

  predicate AllDigits(s: string) { forall i :: 0 <= i < |s| ==> IsDigit(s[i]) }

  function DigitValue(c: char): nat
    requires IsDigit(c)
  {
    c as int - '0' as int
  }

  function DigitChar(n: nat): (c: char)
    requires n < 10
    ensures IsDigit(c) && DigitValue(c) == n
  {
    (n + '0' as int) as char
  }

  /** The value of a string of decimal digits, most significant first. */
  function DigitsValue(s: string): nat
    requires AllDigits(s)
  {
    if s == [] then 0 else 10 * DigitsValue(s[..|s| - 1]) + DigitValue(s[|s| - 1])
  }

  function Pow10(k: nat): (p: nat)
    ensures p >= 1
  {
    if k == 0 then 1 else 10 * Pow10(k - 1)
  }

  /** Index of the first occurrence of `c` in `s`. */
  function FirstIndex(s: string, c: char): (k: nat)
    requires c in s
    ensures k < |s| && s[k] == c && c !in s[..k]
  {
    if s[0] == c then 0 else FirstIndex(s[1..], c) + 1
  }

  /**
   * An unsigned decimal numeral `digits`, `digits.digits`, `digits.` or `.digits`,
   * as `float()` reads it once its sign is taken off.
   */
  function ParseUnsigned(s: string): Option<real> {
    if '.' in s then
      var k := FirstIndex(s, '.');
      var whole, frac := s[..k], s[k + 1..];
      if AllDigits(whole) && AllDigits(frac) && |whole| + |frac| > 0
      then Some(DigitsValue(whole) as real + DigitsValue(frac) as real / Pow10(|frac|) as real)
      else None
    else if s != [] && AllDigits(s) then Some(DigitsValue(s) as real)
    else None
  }

  /**
   * The information separators U+001C to U+001F: `str.isspace()` accepts them, but `float()`,
   * which trims ASCII whitespace after turning every other Unicode space into `' '`, keeps them.
   */
  predicate IsSeparator(c: char) { '\U{1c}' <= c <= '\U{1f}' }

  predicate HasSeparator(s: string) { exists i :: 0 <= i < |s| && IsSeparator(s[i]) }

  /**
   * Python's `float()` on a decimal numeral: surrounding whitespace, an optional sign, the numeral.
   * An information separator is never trimmed and belongs to no numeral, so it makes the
   * conversion fail wherever it stands; without one, `float()` trims what `strip()` trims.
   */
  function ParseFloat(s: string): Option<real> {
    if HasSeparator(s) then None else ParseSigned(Strip(s))
  }

  /** An optional sign followed by an unsigned numeral. */
  function ParseSigned(t: string): Option<real> {
    if t != [] && (t[0] == '-' || t[0] == '+') then
      match ParseUnsigned(t[1..])
      case Some(v) => Some(if t[0] == '-' then -v else v)
      case None => None
    else ParseUnsigned(t)
  }

  /** `parse_finnish_float`: replace the decimal comma by a dot, then read the number. */
  function ParseFinnishFloat(s: string): Option<real> {
    ParseFloat(CommaToDot(s))
  }

  /** What `strip()` leaves is empty or starts and ends with a non-space character. */
  lemma {:induction false} StripEnds(s: string)
    ensures Strip(s) != [] ==> !IsSpace(Strip(s)[0]) && !IsSpace(Strip(s)[|Strip(s)| - 1])
    decreases |s|
  {
    if s != [] && IsSpace(s[0]) {
      StripEnds(s[1..]);
    } else if s != [] && IsSpace(s[|s| - 1]) {
      StripEnds(s[..|s| - 1]);
    }
  }

  /** Stripping twice is stripping once. */
  lemma StripIdempotent(s: string)
    ensures Strip(Strip(s)) == Strip(s)
  {
    StripEnds(s);
  }

  /** Replacing commas and stripping whitespace commute: neither character is whitespace. */
  lemma {:induction false} StripCommaToDot(s: string)
    ensures Strip(CommaToDot(s)) == CommaToDot(Strip(s))
    decreases |s|
  {
    if s == [] {
    } else if IsSpace(s[0]) {
      StripFirst(s);
      StripCommaToDot(s[1..]);
    } else if IsSpace(s[|s| - 1]) {
      StripLast(s);
      StripCommaToDot(s[..|s| - 1]);
    } else {
      var d := CommaToDot(s);
      assert !IsSpace(d[0]) && !IsSpace(d[|d| - 1]);
    }
  }

  lemma StripFirst(s: string)
    requires s != [] && IsSpace(s[0])
    ensures Strip(CommaToDot(s)) == Strip(CommaToDot(s[1..]))
  {
    var d := CommaToDot(s);
    assert d[1..] == CommaToDot(s[1..]);
  }

  lemma StripLast(s: string)
    requires s != [] && !IsSpace(s[0]) && IsSpace(s[|s| - 1])
    ensures Strip(CommaToDot(s)) == Strip(CommaToDot(s[..|s| - 1]))
  {
    var d := CommaToDot(s);
    CommaToDotTake(s);
    assert !IsSpace(d[0]) && IsSpace(d[|d| - 1]);
  }

  lemma {:induction false} CommaToDotTake(s: string)
    requires s != []
    ensures CommaToDot(s[..|s| - 1]) == CommaToDot(s)[..|s| - 1]
  {
    assert s == s[..|s| - 1] + [s[|s| - 1]];
    CommaToDotConcat(s[..|s| - 1], [s[|s| - 1]]);
  }

  /**
   * Reading a column after `strip()` reads the same number as reading it unstripped when
   * it holds no information separator, and a column that strips to nothing reads no number.
   */
  lemma ParseStripped(s: string)
    ensures !HasSeparator(s) ==> ParseFinnishFloat(Strip(s)) == ParseFinnishFloat(s)
    ensures Strip(s) == [] ==> ParseFinnishFloat(s) == None
  {
    StripCommaToDot(s);
    StripCommaToDot(Strip(s));
    StripIdempotent(s);
    if !HasSeparator(s) {
      NoSeparatorAfterCommaToDot(s);
      NoSeparatorAfterCommaToDot(Strip(s));
    }
  }

  /** Neither replacing commas nor stripping brings in an information separator. */
  lemma NoSeparatorAfterCommaToDot(s: string)
    requires !HasSeparator(s)
    ensures !HasSeparator(CommaToDot(s)) && !HasSeparator(Strip(s))
  {
    var d := CommaToDot(s);
    forall i | 0 <= i < |d| ensures !IsSeparator(d[i]) {
      assert !IsSeparator(s[i]);
    }
    var k := StripOffset(s);
    forall i | 0 <= i < |Strip(s)| ensures !IsSeparator(Strip(s)[i]) {
      assert Strip(s)[i] == s[k + i];
    }
  }

  /** An information separator anywhere in a column makes the conversion fail, as it does for `float()`. */
  lemma SeparatorRejected(s: string, i: nat)
    requires i < |s| && IsSeparator(s[i])
    ensures ParseFinnishFloat(s) == None
  {
    assert CommaToDot(s)[i] == s[i];
  }

  // ---------------------------------------------------------------------------------------
  // Formatting, the partner of the parser.

  /** The shortest decimal digits of `n`. */
  function Digits(n: nat): (s: string)
    ensures s != [] && AllDigits(s)
    ensures DigitsValue(s) == n
  {
    if n < 10 then [DigitChar(n)]
    else
      var s := Digits(n / 10) + [DigitChar(n % 10)];
      assert s[..|s| - 1] == Digits(n / 10);
      s
  }

  /** `n` written with exactly `k` decimal digits, zero-padded on the left. */
  function Padded(n: nat, k: nat): (s: string)
    requires n < Pow10(k)
    ensures |s| == k && AllDigits(s)
    ensures DigitsValue(s) == n
  {
    if k == 0 then []
    else
      var s := Padded(n / 10, k - 1) + [DigitChar(n % 10)];
      assert s[..|s| - 1] == Padded(n / 10, k - 1);
      s
  }

  /** Zero-padded formatting gives back any digit string from its value. */
  lemma {:induction false} PaddedOfDigits(x: string)
    requires AllDigits(x)
    ensures DigitsValue(x) < Pow10(|x|) && Padded(DigitsValue(x), |x|) == x
  {
    if x != [] {
      var init := x[..|x| - 1];
      PaddedOfDigits(init);
      var n := DigitsValue(x);
      assert n / 10 == DigitsValue(init) && n % 10 == DigitValue(x[|x| - 1]);
      assert DigitChar(DigitValue(x[|x| - 1])) == x[|x| - 1];
      assert x == init + [x[|x| - 1]];
    }
  }

  /** A digit string with a non-zero first digit has a positive value. */
  lemma {:induction false} LeadingDigitPositive(x: string)
    requires AllDigits(x) && x != [] && x[0] != '0'
    ensures DigitsValue(x) >= 1
    decreases |x|
  {
    if |x| > 1 {
      LeadingDigitPositive(x[..|x| - 1]);
    }
  }

  /** The shortest digits of a value give back any digit string without a leading zero. */
  lemma {:induction false} DigitsOfCanonical(x: string)
    requires AllDigits(x) && x != [] && (|x| == 1 || x[0] != '0')
    ensures Digits(DigitsValue(x)) == x
    decreases |x|
  {
    var n := DigitsValue(x);
    if |x| == 1 {
      assert DigitChar(DigitValue(x[0])) == x[0];
      assert [x[0]] == x;
    } else {
      var init := x[..|x| - 1];
      DigitsOfCanonical(init);
      LeadingDigitPositive(init);
      assert n / 10 == DigitsValue(init) && n % 10 == DigitValue(x[|x| - 1]);
      assert DigitChar(DigitValue(x[|x| - 1])) == x[|x| - 1];
      assert x == init + [x[|x| - 1]];
    }
  }

  /**
   * The Finnish rendering of `n / 10^k` with `k` decimals: a minus sign when negative,
   * the whole part, and for `k > 0` a comma and exactly `k` fraction digits.
   */
  function FormatFinnish(n: int, k: nat): string {
    (if n < 0 then "-" else "") + FormatUnsigned(Magnitude(n), k)
  }

  /** `FormatFinnish` without the sign. */
  function FormatUnsigned(m: nat, k: nat): string {
    var p := Pow10(k);
    DivModBounds(m, p);
    Digits(m / p) + (if k > 0 then "," + Padded(m % p, k) else "")
  }

  // ---------------------------------------------------------------------------------------
  // What the parser accepts.

  lemma {:induction false} CommaToDotKeepsDigits(w: string)
    requires AllDigits(w)
    ensures CommaToDot(w) == w
  {
  }

  /** Once the sign is off, `digits.digits` reads as the whole part plus the scaled fraction. */
  lemma {:induction false} ParseUnsignedParts(whole: string, frac: string)
    requires AllDigits(whole) && AllDigits(frac) && |whole| + |frac| > 0
    ensures ParseUnsigned(whole + "." + frac)
      == Some(DigitsValue(whole) as real + DigitsValue(frac) as real / Pow10(|frac|) as real)
  {
    var s := whole + "." + frac;
    assert s[|whole|] == '.';
    var k := FirstIndex(s, '.');
    assert k == |whole|;
    assert s[..k] == whole && s[k + 1..] == frac;
  }

  /**
   * The grammar of the loaders' numbers: a Finnish numeral `digits,digits` reads as
   * its whole part plus its fraction digits scaled by their count.
   */
  lemma {:induction false} ParseFinnishDigits(whole: string, frac: string)
    requires AllDigits(whole) && AllDigits(frac) && |whole| + |frac| > 0
    ensures ParseFinnishFloat(whole + "," + frac)
      == Some(DigitsValue(whole) as real + DigitsValue(frac) as real / Pow10(|frac|) as real)
  {
    var t := whole + "." + frac;
    CommaToDotJoin(whole, frac);
    ParseUnsignedParts(whole, frac);
    StripNumeral(t);
  }

  lemma {:induction false} CommaToDotJoin(whole: string, frac: string)
    requires AllDigits(whole) && AllDigits(frac)
    ensures CommaToDot(whole + "," + frac) == whole + "." + frac
  {
    var s := whole + "," + frac;
    var t := whole + "." + frac;
    forall i | 0 <= i < |s| ensures CommaToDot(s)[i] == t[i] {
      if i < |whole| { assert s[i] == whole[i]; }
      else if i > |whole| { assert s[i] == frac[i - |whole| - 1]; }
    }
  }

  /** A string that starts with a digit or a dot and ends with one is read unchanged by `float()`. */
  lemma {:induction false} StripNumeral(t: string)
    requires t != []
    requires IsDigit(t[0]) || t[0] == '.'
    requires IsDigit(t[|t| - 1]) || t[|t| - 1] == '.'
    ensures ParseFloat(t) == ParseUnsigned(t)
  {
    StripUnsigned(t);
    UnsignedIsSigned(t);
    if ParseUnsigned(t).Some? {
      NumeralHasNoSeparator(t);
    }
  }

  lemma StripUnsigned(t: string)
    requires t != []
    requires IsDigit(t[0]) || t[0] == '.'
    requires IsDigit(t[|t| - 1]) || t[|t| - 1] == '.'
    ensures Strip(t) == t
  {
  }

  lemma UnsignedIsSigned(t: string)
    requires t != [] && t[0] != '-' && t[0] != '+'
    ensures ParseSigned(t) == ParseUnsigned(t)
  {
  }

  /** Every character of an accepted unsigned numeral is a digit or the dot. */
  lemma {:induction false} NumeralChars(u: string, p: nat)
    requires p < |u| && ParseUnsigned(u).Some?
    ensures IsDigit(u[p]) || u[p] == '.'
  {
    if '.' in u {
      var k := FirstIndex(u, '.');
      if p < k {
        assert u[..k][p] == u[p];
      } else if p > k {
        assert u[k + 1..][p - k - 1] == u[p];
      }
    }
  }

  lemma NumeralHasNoSeparator(u: string)
    requires ParseUnsigned(u).Some?
    ensures !HasSeparator(u)
  {
    forall i | 0 <= i < |u| ensures !IsSeparator(u[i]) {
      NumeralChars(u, i);
    }
  }

  /** A character that no numeral contains makes the parse fail, wherever it stands. */
  lemma {:induction false} NonNumeralRejected(s: string, i: nat)
    requires i < |s|
    requires !IsDigit(s[i]) && !IsSpace(s[i]) && s[i] !in ",.+-"
    ensures ParseFinnishFloat(s) == None
  {
    var d := CommaToDot(s);
    assert d[i] == s[i];
    var j := StripKeeps(d, i);
    SignedRejects(Strip(d), j);
  }

  /** A character that is not whitespace survives `Strip`. */
  lemma {:induction false} StripKeeps(d: string, i: nat) returns (j: nat)
    requires i < |d| && !IsSpace(d[i])
    ensures j < |Strip(d)| && Strip(d)[j] == d[i]
  {
    var k := StripOffset(d);
    if !(k <= i < k + |Strip(d)|) {
      StripRemovesOnlySpace(d, i);
    }
    j := i - k;
  }

  lemma {:induction false} SignedRejects(t: string, j: nat)
    requires j < |t| && !IsDigit(t[j]) && t[j] !in ".+-"
    ensures ParseSigned(t) == None
  {
    if t[0] == '-' || t[0] == '+' {
      assert t[1..][j - 1] == t[j];
      UnsignedRejects(t[1..], j - 1);
    } else {
      UnsignedRejects(t, j);
    }
  }

  lemma {:induction false} UnsignedRejects(u: string, p: nat)
    requires p < |u| && !IsDigit(u[p]) && u[p] != '.'
    ensures ParseUnsigned(u) == None
  {
    if '.' in u {
      var k := FirstIndex(u, '.');
      if p < k {
        assert u[..k][p] == u[p];
      } else {
        assert u[k + 1..][p - k - 1] == u[p];
      }
    }
  }

  // ---------------------------------------------------------------------------------------
  // Round trip: formatting a number with a decimal comma and parsing it back.

  /**
   * The other direction: a numeral `whole,frac` whose whole part has no leading zero is
   * exactly the rendering, with `|frac|` decimals, of the value `ParseFinnishDigits` reads it as.
   */
  lemma {:induction false} FormatFinnishCanonical(whole: string, frac: string)
    requires AllDigits(whole) && AllDigits(frac) && whole != [] && frac != []
    requires |whole| == 1 || whole[0] != '0'
    ensures FormatFinnish(DigitsValue(whole) * Pow10(|frac|) + DigitsValue(frac), |frac|) == whole + "," + frac
  {
    var k, q, r := |frac|, DigitsValue(whole), DigitsValue(frac);
    assert r < Pow10(k) && Padded(r, k) == frac by { PaddedOfDigits(frac); }
    assert Digits(q) == whole by { DigitsOfCanonical(whole); }
    FormatOfQuotRem(q * Pow10(k) + r, q, r, Pow10(k), k, whole, frac);
  }

  /** A number with quotient `q` and remainder `r` by 10^k renders as their two renderings. */
  lemma {:induction false} FormatOfQuotRem(n: int, q: nat, r: nat, p: nat, k: nat, whole: string, frac: string)
    requires k > 0 && p == Pow10(k) && n == q * p + r && r < p
    requires Digits(q) == whole && Padded(r, k) == frac
    ensures FormatFinnish(n, k) == whole + "," + frac
  {
    NatScaled(q, p, r);
    QuotRem(n, q, r, p);
    FormatOfParts(n, k, q, r, whole, frac);
  }

  lemma {:induction false} QuotRem(n: nat, q: nat, r: nat, p: nat)
    requires n == q * p + r && r < p
    ensures n / p == q && n % p == r
  {
    var a, b := DivMod(n, p);
    assert (a - q) * p == r - b;
    ZeroFactor(a - q, p, r - b);
  }

  lemma NatScaled(q: nat, p: nat, r: nat)
    ensures q * p + r >= 0
  {
  }

  /** A multiple of `p` strictly between `-p` and `p` is zero. */
  lemma {:induction false} ZeroFactor(d: int, p: int, e: int)
    requires p >= 1 && d * p == e && -p < e < p
    ensures d == 0
  {
  }

  lemma {:induction false} FormatOfParts(n: nat, k: nat, q: nat, r: nat, whole: string, frac: string)
    requires k > 0 && q == n / Pow10(k) && r == n % Pow10(k)
    requires Digits(q) == whole && r < Pow10(k) && Padded(r, k) == frac
    ensures FormatFinnish(n, k) == whole + "," + frac
  {
    assert FormatUnsigned(n, k) == whole + "," + frac;
  }

  lemma {:induction false} CommaToDotConcat(a: string, b: string)
    ensures CommaToDot(a + b) == CommaToDot(a) + CommaToDot(b)
  {
    if a == [] {
      assert a + b == b;
    } else {
      assert (a + b)[0] == a[0] && (a + b)[1..] == a[1..] + b;
      CommaToDotConcat(a[1..], b);
    }
  }

  lemma {:induction false} FormatUnsignedRoundTrip(m: nat, k: nat)
    ensures var d := CommaToDot(FormatUnsigned(m, k));
      d != [] && IsDigit(d[0]) && IsDigit(d[|d| - 1])
      && ParseUnsigned(d) == Some(m as real / Pow10(k) as real)
  {
    if k == 0 {
      FormatUnsignedWhole(m);
    } else {
      FormatUnsignedFraction(m, k);
    }
  }

  lemma {:induction false} FormatUnsignedWhole(m: nat)
    ensures var d := CommaToDot(FormatUnsigned(m, 0));
      d == Digits(m) && ParseUnsigned(d) == Some(m as real / Pow10(0) as real)
  {
    var w := Digits(m);
    assert FormatUnsigned(m, 0) == w;
    CommaToDotKeepsDigits(w);
    DigitsHaveNoDot(w);
  }

  lemma {:induction false} FormatUnsignedFraction(m: nat, k: nat)
    requires k > 0
    ensures var d := CommaToDot(FormatUnsigned(m, k));
      d == Digits(m / Pow10(k)) + "." + Padded(m % Pow10(k), k)
      && ParseUnsigned(d) == Some(m as real / Pow10(k) as real)
  {
    var p := Pow10(k);
    var q, r := DivMod(m, p);
    var w, f := Digits(q), Padded(r, k);
    assert FormatUnsigned(m, k) == w + "," + f;
    CommaToDotJoin(w, f);
    ParseScaled(m, k, p, q, r);
  }

  lemma {:induction false} ParseScaled(m: nat, k: nat, p: nat, q: nat, r: nat)
    requires k > 0 && p == Pow10(k) && q * p + r == m && r < p
    ensures ParseUnsigned(Digits(q) + "." + Padded(r, k)) == Some(m as real / p as real)
  {
    var w, f := Digits(q), Padded(r, k);
    ParseUnsignedParts(w, f);
    assert DigitsValue(w) == q && DigitsValue(f) == r && |f| == k;
    ScaledSum(m, q, r, p);
  }

  lemma DivModBounds(m: nat, p: nat)
    requires p >= 1
    ensures 0 <= m / p && 0 <= m % p < p
  {
  }

  lemma {:induction false} DivMod(m: nat, p: nat) returns (q: nat, r: nat)
    requires p >= 1
    ensures q == m / p && r == m % p && m == q * p + r && r < p
  {
    q, r := m / p, m % p;
  }

  lemma DigitsHaveNoDot(w: string)
    requires AllDigits(w)
    ensures '.' !in w
  {
  }

  lemma {:induction false} ScaledSum(m: nat, whole: nat, frac: nat, p: nat)
    requires p >= 1 && m == whole * p + frac
    ensures whole as real + frac as real / p as real == m as real / p as real
  {
    assert m as real == whole as real * p as real + frac as real;
  }

  /**
   * Formatting `n / 10^k` the Finnish way and parsing it back gives the same number,
   * for every sign and every count of decimals.
   */
  lemma {:induction false} FormatFinnishRoundTrip(n: int, k: nat)
    ensures ParseFinnishFloat(FormatFinnish(n, k)) == Some(n as real / Pow10(k) as real)
  {
    var m := Magnitude(n);
    var v := m as real / Pow10(k) as real;
    if n < 0 {
      NegativeRoundTrip(n, k, v);
      NegatedReading(n, Pow10(k), ParseFinnishFloat(FormatFinnish(n, k)), v);
    } else {
      assert ParseFinnishFloat(FormatFinnish(n, k)) == Some(v) by {
        var x := FormatFinnish(n, k);
        var d := CommaToDot(FormatUnsigned(m, k));
        assert CommaToDot(x) == d;
        assert ParseFloat(d) == Some(v) by { ParseFormattedMagnitude(m, k, v); }
        ReadsAs(x, d, v);
      }
    }
  }

  lemma {:induction false} NegativeRoundTrip(n: int, k: nat, v: real)
    requires n < 0 && v == Magnitude(n) as real / Pow10(k) as real
    ensures ParseFinnishFloat(FormatFinnish(n, k)) == Some(-v)
  {
    var m := Magnitude(n);
    ParseFormattedMagnitude(m, k, v);
    NegativeFormat(n, k);
    NegativeReadsAs(FormatFinnish(n, k), FormatUnsigned(m, k), v);
  }

  lemma {:induction false} ReadsAs(x: string, normal: string, v: real)
    requires CommaToDot(x) == normal && ParseFloat(normal) == Some(v)
    ensures ParseFinnishFloat(x) == Some(v)
  {
  }

  lemma {:induction false} NegativeReadsAs(x: string, body: string, v: real)
    requires CommaToDot(x) == "-" + CommaToDot(body)
    requires ParseFloat("-" + CommaToDot(body)) == Some(-v)
    ensures ParseFinnishFloat(x) == Some(-v)
  {
  }

  lemma {:induction false} NegativeFormat(n: int, k: nat)
    requires n < 0
    ensures CommaToDot(FormatFinnish(n, k)) == "-" + CommaToDot(FormatUnsigned(Magnitude(n), k))
  {
    var body := FormatUnsigned(Magnitude(n), k);
    assert FormatFinnish(n, k) == "-" + body;
    CommaToDotConcat("-", body);
    assert CommaToDot("-") == "-";
  }

  lemma {:induction false} ParseFormattedMagnitude(m: nat, k: nat, v: real)
    requires v == m as real / Pow10(k) as real
    ensures var d := CommaToDot(FormatUnsigned(m, k));
      ParseFloat(d) == Some(v) && ParseFloat("-" + d) == Some(-v)
  {
    var d := CommaToDot(FormatUnsigned(m, k));
    assert d != [] && IsDigit(d[0]) && IsDigit(d[|d| - 1]) && ParseUnsigned(d) == Some(v) by {
      FormatUnsignedRoundTrip(m, k);
    }
    SignedParse(d, v);
  }

  function Magnitude(n: int): (m: nat)
    ensures m as real == if n < 0 then -(n as real) else n as real
  {
    if n < 0 then -n else n
  }

  lemma {:induction false} NegatedReading(n: int, p: nat, reading: Option<real>, v: real)
    requires n < 0 && p >= 1 && v == Magnitude(n) as real / p as real
    requires reading == Some(-v)
    ensures reading == Some(n as real / p as real)
  {
    NegatedRatio(n, Magnitude(n), p);
  }

  lemma {:induction false} NegatedRatio(n: int, m: nat, p: nat)
    requires n < 0 && m == -n && p >= 1
    ensures -(m as real / p as real) == n as real / p as real
  {
  }

  /** An unsigned numeral that begins and ends with a digit reads the same with or without a minus sign. */
  lemma {:induction false} SignedParse(u: string, v: real)
    requires u != [] && IsDigit(u[0]) && IsDigit(u[|u| - 1]) && ParseUnsigned(u) == Some(v)
    ensures ParseFloat(u) == Some(v) && ParseFloat("-" + u) == Some(-v)
  {
    StripNumeral(u);
    StripSigned(u);
    NegativeParse(u, v);
  }

  lemma {:induction false} StripSigned(u: string)
    requires u != [] && IsDigit(u[0]) && IsDigit(u[|u| - 1])
    ensures Strip("-" + u) == "-" + u
  {
    var t := "-" + u;
    assert t[|t| - 1] == u[|u| - 1];
  }

  lemma {:induction false} NegativeParse(u: string, v: real)
    requires u != [] && Strip("-" + u) == "-" + u && ParseUnsigned(u) == Some(v)
    ensures ParseFloat("-" + u) == Some(-v)
  {
    var t := "-" + u;
    assert t[1..] == u;
    NumeralHasNoSeparator(u);
    forall i | 0 <= i < |t| ensures !IsSeparator(t[i]) {
      if i > 0 {
        assert t[i] == u[i - 1];
      }
    }
  }
}
