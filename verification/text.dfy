/**
 * The few pieces of Go's `strings` and `strconv` packages the server relies on:
 * TrimSpace, HasPrefix, Contains, Split on a one-character separator, decimal
 * formatting of integers and Atoi. Strings are sequences of code points; the
 * UTF-8 byte encoding Go uses underneath is not modelled.
 */
module Text {
  import opened Wrappers

  /** Go's unicode.IsSpace: the characters strings.TrimSpace strips. */
  predicate IsSpace(c: char) {
    || c == '\t' || c == '\n' || c == '\U{0B}' || c == '\U{0C}' || c == '\r' || c == ' '
    || c == '\U{85}' || c == '\U{A0}' || c == '\U{1680}'
    || ('\U{2000}' <= c <= '\U{200A}')
    || c == '\U{2028}' || c == '\U{2029}' || c == '\U{202F}' || c == '\U{205F}' || c == '\U{3000}'
  }

  predicate IsDigit(c: char) {
    '0' <= c <= '9'
  }

  predicate AllDigits(s: string) {
    forall k :: 0 <= k < |s| ==> IsDigit(s[k])
  }

  // ---------------------------------------------------------------- trimming

  /** Drops leading white space: the result is the suffix of `s` that starts at its first non-space. */
  function TrimLeft(s: string): (r: string)
    ensures |r| <= |s| && r == s[|s| - |r|..]
    ensures forall k :: 0 <= k < |s| - |r| ==> IsSpace(s[k])
    ensures r == [] || !IsSpace(r[0])
  {
    if |s| > 0 && IsSpace(s[0]) then TrimLeft(s[1..]) else s
  }

  /** Drops trailing white space: the result is the prefix of `s` that ends at its last non-space. */
  function TrimRight(s: string): (r: string)
    ensures |r| <= |s| && r == s[..|r|]
    ensures forall k :: |r| <= k < |s| ==> IsSpace(s[k])
    ensures r == [] || !IsSpace(r[|r| - 1])
  {
    if |s| > 0 && IsSpace(s[|s| - 1]) then TrimRight(s[..|s| - 1]) else s
  }

  /** strings.TrimSpace: removes white space at both ends and nothing else. */
  function TrimSpace(s: string): (r: string)
    ensures |r| <= |s|
    ensures r == [] <==> forall k :: 0 <= k < |s| ==> IsSpace(s[k])
    ensures r != [] ==> !IsSpace(r[0]) && !IsSpace(r[|r| - 1])
  {
    var l := TrimLeft(s);
    var r := TrimRight(l);
    assert r == [] ==> l == [];
    r
  }

  /** A string with no white space at either end is left alone by TrimSpace. */
  lemma {:induction false} TrimSpaceOfUnpadded(s: string)
    requires s == [] || (!IsSpace(s[0]) && !IsSpace(s[|s| - 1]))
    ensures TrimSpace(s) == s
  {
    assert TrimLeft(s) == s;
    assert TrimRight(s) == s;
  }

  /** Trimming twice is trimming once. */
  lemma TrimSpaceIdempotent(s: string)
    ensures TrimSpace(TrimSpace(s)) == TrimSpace(s)
  {
    TrimSpaceOfUnpadded(TrimSpace(s));
  }

  predicate AllSpace(s: string) {
    forall k :: 0 <= k < |s| ==> IsSpace(s[k])
  }

  /** White space in front of a string that starts with a non-space is exactly what TrimLeft removes. */
  lemma {:induction false} TrimLeftPadded(pre: string, s: string)
    requires AllSpace(pre) && s != [] && !IsSpace(s[0])
    ensures TrimLeft(pre + s) == s
    decreases |pre|
  {
    if |pre| > 0 {
      assert (pre + s)[1..] == pre[1..] + s;
      TrimLeftPadded(pre[1..], s);
    }
  }

  /** White space after a string that ends with a non-space is exactly what TrimRight removes. */
  lemma {:induction false} TrimRightPadded(s: string, post: string)
    requires AllSpace(post) && s != [] && !IsSpace(s[|s| - 1])
    ensures TrimRight(s + post) == s
    decreases |post|
  {
    if |post| > 0 {
      var n := |post| - 1;
      assert (s + post)[..|s + post| - 1] == s + post[..n];
      TrimRightPadded(s, post[..n]);
    } else {
      assert s + post == s;
    }
  }

  /** TrimSpace removes any white-space padding around a string with no white space at its ends. */
  lemma TrimSpacePadded(pre: string, s: string, post: string)
    requires AllSpace(pre) && AllSpace(post)
    requires s != [] && !IsSpace(s[0]) && !IsSpace(s[|s| - 1])
    ensures TrimSpace(pre + s + post) == s
  {
    assert pre + s + post == pre + (s + post);
    TrimLeftPadded(pre, s + post);
    TrimRightPadded(s, post);
  }

  // ------------------------------------------------------ prefix and substring

  predicate HasPrefix(s: string, prefix: string) {
    |prefix| <= |s| && s[..|prefix|] == prefix
  }

  /** strings.Contains: `t` occurs in `s` at some position (the empty string occurs everywhere). */
  predicate Contains(s: string, t: string)
    decreases |s|
  {
    if |t| > |s| then false
    else if s[..|t|] == t then true
    else |s| > 0 && Contains(s[1..], t)
  }

  /** An occurrence at a known position is found by Contains. */
  lemma {:induction false} ContainsAt(s: string, t: string, i: nat)
    requires i + |t| <= |s| && s[i..i + |t|] == t
    ensures Contains(s, t)
    decreases i
  {
    if s[..|t|] != t {
      assert i > 0;
      assert s[1..][i - 1..i - 1 + |t|] == s[i..i + |t|];
      ContainsAt(s[1..], t, i - 1);
    }
  }

  /** A non-empty string whose first character never appears in `s` does not occur in `s`. */
  lemma {:induction false} NotContainsMissingHead(s: string, t: string)
    requires |t| > 0 && t[0] !in s
    ensures !Contains(s, t)
    decreases |s|
  {
    if |t| <= |s| {
      assert s[..|t|][0] == s[0];
      if |s| > 0 {
        assert forall c :: c in s[1..] ==> c in s;
        NotContainsMissingHead(s[1..], t);
      }
    }
  }

  // ---------------------------------------------------------------- splitting

  /** Number of occurrences of `c` in `s`. */
  function CountChar(s: string, c: char): nat
  {
    if |s| == 0 then 0 else (if s[0] == c then 1 else 0) + CountChar(s[1..], c)
  }

  /** Joins non-empty `parts` with `sep` between neighbours; the inverse of Split. */
  function Join(parts: seq<string>, sep: char): string
    requires |parts| >= 1
  {
    if |parts| == 1 then parts[0] else parts[0] + [sep] + Join(parts[1..], sep)
  }

  /**
   * strings.Split with a one-character separator: the pieces between
   * consecutive separators, one more piece than there are separators, none of
   * them holding the separator.
   */
  function Split(s: string, sep: char): (parts: seq<string>)
    ensures |parts| == CountChar(s, sep) + 1
    ensures forall i :: 0 <= i < |parts| ==> sep !in parts[i]
  {
    if |s| == 0 then [""]
    else if s[0] == sep then [""] + Split(s[1..], sep)
    else
      var rest := Split(s[1..], sep);
      [[s[0]] + rest[0]] + rest[1..]
  }

  /** Joining the pieces of a split gives back the original string. */
  lemma {:induction false} JoinSplit(s: string, sep: char)
    ensures Join(Split(s, sep), sep) == s
  {
    if |s| > 0 {
      JoinSplit(s[1..], sep);
      var rest := Split(s[1..], sep);
      if s[0] != sep {
        var parts := Split(s, sep);
        assert parts[1..] == rest[1..];
        if |rest| > 1 {
          assert Join(rest, sep) == rest[0] + [sep] + Join(rest[1..], sep);
        }
      }
    }
  }

  /** A separator at a known position yields at least two pieces. */
  lemma {:induction false} CountCharPositive(s: string, c: char, i: nat)
    requires i < |s| && s[i] == c
    ensures CountChar(s, c) >= 1
    decreases i
  {
    if i > 0 && s[0] != c {
      CountCharPositive(s[1..], c, i - 1);
    }
  }

  /** Splitting `p + [sep] + q` where `p` holds no separator gives `p` first and the pieces of `q` after it. */
  lemma {:induction false} SplitAfterPrefix(p: string, sep: char, q: string)
    requires sep !in p
    ensures Split(p + [sep] + q, sep) == [p] + Split(q, sep)
    decreases |p|
  {
    if |p| == 0 {
      assert p + [sep] + q == [sep] + q;
      assert ([sep] + q)[1..] == q;
    } else {
      assert (p + [sep] + q)[1..] == p[1..] + [sep] + q;
      SplitAfterPrefix(p[1..], sep, q);
      assert [p[0]] + p[1..] == p;
    }
  }

  /** A string without the separator is a single piece. */
  lemma {:induction false} SplitWithoutSeparator(s: string, sep: char)
    requires sep !in s
    ensures Split(s, sep) == [s]
  {
    if |s| > 0 {
      assert sep !in s[1..];
      SplitWithoutSeparator(s[1..], sep);
      assert [s[0]] + s[1..] == s;
    }
  }

  // ----------------------------------------------------------- decimal integers

  function DigitChar(d: nat): char
    requires d < 10
  {
    ['0', '1', '2', '3', '4', '5', '6', '7', '8', '9'][d]
  }

  function CharDigit(c: char): nat
    requires IsDigit(c)
  {
    (c as int - '0' as int) as nat
  }

  /** fmt's %d of a non-negative integer: its decimal digits, without leading zeros. */
  function NatToString(n: nat): (r: string)
    ensures |r| >= 1 && AllDigits(r)
    ensures |r| > 1 ==> r[0] != '0'
    decreases n
  {
    if n < 10 then [DigitChar(n)] else NatToString(n / 10) + [DigitChar(n % 10)]
  }

  /** strconv.Itoa / %d of any integer: a leading '-' for negative values. */
  function IntToString(n: int): (r: string)
    ensures |r| >= 1 && IsDigit(r[|r| - 1])
    ensures r[0] == '-' <==> n < 0
    ensures forall k :: 0 <= k < |r| ==> IsDigit(r[k]) || (k == 0 && r[k] == '-')
  {
    if n < 0 then "-" + NatToString(-n) else NatToString(n)
  }

  /** Value of a string of decimal digits, most significant first. */
  function DigitsValue(s: string): nat
    requires AllDigits(s)
  {
    if |s| == 0 then 0 else DigitsValue(s[..|s| - 1]) * 10 + CharDigit(s[|s| - 1])
  }

  /** An optional '+' or '-' followed by at least one decimal digit, and nothing else. */
  predicate IsSignedDecimal(s: string) {
    && |s| > 0 && IsDigit(s[|s| - 1])
    && forall k :: 0 <= k < |s| ==> IsDigit(s[k]) || (k == 0 && (s[k] == '+' || s[k] == '-'))
  }

  /** A run of `k` zero digits. */
  function Zeros(k: nat): (z: string)
    ensures |z| == k && AllDigits(z)
  {
    seq(k, _ => '0')
  }

  const MinInt64: int := -0x8000_0000_0000_0000
  const MaxInt64: int := 0x7FFF_FFFF_FFFF_FFFF

  /**
   * strconv.Atoi on a 64-bit platform: an optional sign, then at least one
   * decimal digit and nothing else; a value outside the int64 range is an
   * error too. The last two clauses follow from the IsSignedDecimal one;
   * they are kept as shortcuts for callers that only look at the first
   * character.
   */
  function Atoi(s: string): (r: Option<int>)
    ensures r.Some? ==> MinInt64 <= r.value <= MaxInt64
    ensures r.Some? ==> IsSignedDecimal(s)
    ensures r.Some? ==> |s| > 0 && (IsDigit(s[0]) || s[0] == '+' || s[0] == '-')
    ensures |s| > 0 && !IsDigit(s[0]) && s[0] != '+' && s[0] != '-' ==> r.None?
  {
    if |s| == 0 then None
    else
      var neg := s[0] == '-';
      var digits := if s[0] == '+' || s[0] == '-' then s[1..] else s;
      if |digits| == 0 || !AllDigits(digits) then None
      else
        var v: int := if neg then -(DigitsValue(digits) as int) else DigitsValue(digits);
        if MinInt64 <= v <= MaxInt64 then Some(v) else None
  }

  /** Reading back the decimal digits of `n` gives `n`. */
  lemma {:induction false} DigitsValueOfNatToString(n: nat)
    ensures DigitsValue(NatToString(n)) == n
    decreases n
  {
    if n >= 10 {
      DigitsValueOfNatToString(n / 10);
      var s := NatToString(n);
      assert s[..|s| - 1] == NatToString(n / 10);
    }
  }

  /** A run of zeros reads as 0. */
  lemma {:induction false} DigitsValueZeros(k: nat)
    ensures DigitsValue(Zeros(k)) == 0
  {
    if k > 0 {
      assert Zeros(k)[..k - 1] == Zeros(k - 1);
      DigitsValueZeros(k - 1);
    }
  }

  /** Leading zeros do not change the value of a digit string. */
  lemma {:induction false} DigitsValueLeadingZeros(k: nat, t: string)
    requires AllDigits(t)
    ensures AllDigits(Zeros(k) + t) && DigitsValue(Zeros(k) + t) == DigitsValue(t)
    decreases |t|
  {
    var z := Zeros(k) + t;
    if |t| == 0 {
      assert z == Zeros(k);
      DigitsValueZeros(k);
    } else {
      DigitsValueLeadingZeros(k, t[..|t| - 1]);
      assert z[..|z| - 1] == Zeros(k) + t[..|t| - 1];
    }
  }

  /** The value `n` carries after the sign `sign`. */
  function Signed(sign: string, n: nat): int {
    if sign == "-" then -(n as int) else n
  }

  /** Atoi reads an optional sign followed by digits as their value, whenever that value is an int64. */
  lemma AtoiOfSignedDigits(sign: string, d: string)
    requires sign == "" || sign == "+" || sign == "-"
    requires |d| > 0 && AllDigits(d)
    requires MinInt64 <= Signed(sign, DigitsValue(d)) <= MaxInt64
    ensures Atoi(sign + d) == Some(Signed(sign, DigitsValue(d)))
  {
    var s := sign + d;
    if sign == "" {
      assert s == d && IsDigit(s[0]);
    } else {
      assert s[0] == sign[0] && s[1..] == d;
    }
  }

  /** A signed decimal whose value does not fit an int64 is rejected (strconv's ErrRange). */
  lemma AtoiOutOfRange(sign: string, d: string)
    requires sign == "" || sign == "+" || sign == "-"
    requires |d| > 0 && AllDigits(d)
    requires !(MinInt64 <= Signed(sign, DigitsValue(d)) <= MaxInt64)
    ensures Atoi(sign + d) == None
  {
    var s := sign + d;
    if sign == "" {
      assert s == d && IsDigit(s[0]);
    } else {
      assert s[0] == sign[0] && s[1..] == d;
    }
  }

  /** The padded decimal form of a value outside the int64 range is rejected. */
  lemma AtoiOfPaddedOutOfRange(sign: string, k: nat, n: nat)
    requires sign == "" || sign == "+" || sign == "-"
    requires !(MinInt64 <= Signed(sign, n) <= MaxInt64)
    ensures Atoi(sign + (Zeros(k) + NatToString(n))) == None
  {
    DigitsValueOfNatToString(n);
    DigitsValueLeadingZeros(k, NatToString(n));
    AtoiOutOfRange(sign, Zeros(k) + NatToString(n));
  }

  /**
   * Atoi reads an optional sign, any number of leading zeros and the decimal
   * digits of `n` as n (negated after '-'), whenever that value is an int64.
   */
  lemma AtoiOfPaddedDecimal(sign: string, k: nat, n: nat)
    requires sign == "" || sign == "+" || sign == "-"
    requires MinInt64 <= Signed(sign, n) <= MaxInt64
    ensures Atoi(sign + (Zeros(k) + NatToString(n))) == Some(Signed(sign, n))
  {
    DigitsValueOfNatToString(n);
    DigitsValueLeadingZeros(k, NatToString(n));
    AtoiOfSignedDigits(sign, Zeros(k) + NatToString(n));
  }

  /** Atoi inverts IntToString on the whole int64 range. */
  lemma AtoiOfIntToString(n: int)
    requires MinInt64 <= n <= MaxInt64
    ensures Atoi(IntToString(n)) == Some(n)
  {
    var sign := if n < 0 then "-" else "";
    var m: nat := if n < 0 then -n else n;
    assert IntToString(n) == sign + NatToString(m);
    DigitsValueOfNatToString(m);
    AtoiOfSignedDigits(sign, NatToString(m));
  }
}
