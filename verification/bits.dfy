/** Bit-string helpers of the codec: `Convert_speed`, which splits a scan
    speed into two bytes through `"{0:016b}".format`, and
    `High_bin_to_Dec`/`Low_bin_to_Dec`, which split a 32-character bit
    string into four bytes, most significant first. */
module Bits {
  import opened Common

  predicate IsBinDigit(c: char)
  {
    c == '0' || c == '1'
  }

  predicate AllBinDigits(s: string)
  {
    forall i :: 0 <= i < |s| ==> IsBinDigit(s[i])
  }

  function Pow2(n: nat): (r: nat)
    ensures r >= 1
  {
    if n == 0 then 1 else 2 * Pow2(n - 1)
  }

  /** The value of a string of binary digits, most significant first. */
  function BinValue(s: string): (r: nat)
    requires AllBinDigits(s)
  {
    if |s| == 0 then 0
    else 2 * BinValue(s[..|s| - 1]) + (if s[|s| - 1] == '1' then 1 else 0)
  }

  /** `format(n, 'b')`: the binary digits of `n` without leading zeros. */
  function Binary(n: nat): (r: string)
    ensures 1 <= |r| && AllBinDigits(r)
    ensures r[0] == '1' || r == "0"
  {
    if n < 2 then [if n == 1 then '1' else '0']
    else Binary(n / 2) + [if n % 2 == 1 then '1' else '0']
  }

  /** Zero padding to a minimum width, as the `0` flag of a format spec does. */
  function ZeroPad(s: string, width: nat): (r: string)
    ensures |r| == if |s| < width then width else |s|
    ensures AllBinDigits(s) ==> AllBinDigits(r)
  {
    if |s| < width then seq(width - |s|, _ => '0') + s else s
  }

  /** `"{0:016b}".format(n)`: the sign, if any, counts towards the width of 16. */
  function FormatBin16(n: int): (r: string)
    ensures 16 <= |r|
  {
    if n >= 0 then ZeroPad(Binary(n), 16) else "-" + ZeroPad(Binary(-n), 15)
  }

  /** Python's `s[i:j]` for `0 <= i <= j`: out-of-range bounds are clamped. */
  function Slice(s: string, i: nat, j: nat): (r: string)
    requires i <= j
    ensures |r| == (if j <= |s| then j else |s|) - (if i <= |s| then i else |s|)
  {
    var hi := if j <= |s| then j else |s|;
    var lo := if i <= |s| then i else |s|;
    s[lo..hi]
  }

  /** `int(s, 2)` on the strings a binary format produces: an optional sign
      followed by one or more binary digits; anything else is a `ValueError`. */
  function ParseBin(s: string): (r: Result<int>)
    ensures AllBinDigits(s) && |s| > 0 ==> r == Ok(BinValue(s))
    ensures |s| == 0 ==> r == Err(ValueError)
  {
    if |s| > 0 && (s[0] == '-' || s[0] == '+') then
      var digits := s[1..];
      if |digits| > 0 && AllBinDigits(digits) then
        var v: int := BinValue(digits);
        Ok(if s[0] == '-' then -v else v)
      else Err(ValueError)
    else if |s| > 0 && AllBinDigits(s) then Ok(BinValue(s))
    else Err(ValueError)
  }

  /** `Convert_speed(n)`: the `(msbs, lsbs)` pair. It never raises, since
      both slices of the 16-or-more-character format are eight characters long. */
  function ConvertSpeed(n: int): (r: Result<(int, int)>)
    ensures r.Ok?
  {
    var text := FormatBin16(n);
    var msbs := ParseBin(Slice(text, 0, 8));
    var lsbs := ParseBin(Slice(text, 8, 16));
    FormatHasDigitSlices(n);
    Ok((msbs.value, lsbs.value))
  }

  /** Both eight-character slices of the format parse: the first may carry
      the sign, every other character is a binary digit. */
  lemma FormatHasDigitSlices(n: int)
    ensures ParseBin(Slice(FormatBin16(n), 0, 8)).Ok?
    ensures ParseBin(Slice(FormatBin16(n), 8, 16)).Ok?
  {
    var text := FormatBin16(n);
    if n >= 0 {
      assert AllBinDigits(text);
    } else {
      var tail := ZeroPad(Binary(-n), 15);
      assert text == "-" + tail;
      assert Slice(text, 8, 16) == tail[7..15];
      assert Slice(text, 0, 8)[1..] == tail[..7];
    }
  }

  // ---------------------------------------------------------------------
  // Values of concatenations.

  lemma ConcatBinDigits(a: string, b: string)
    requires AllBinDigits(a) && AllBinDigits(b)
    ensures AllBinDigits(a + b)
  {
    forall i | 0 <= i < |a + b| ensures IsBinDigit((a + b)[i]) {
      if i < |a| { assert (a + b)[i] == a[i]; } else { assert (a + b)[i] == b[i - |a|]; }
    }
  }

  lemma DropLastConcat(a: string, b: string)
    requires |b| > 0
    ensures (a + b)[..|a + b| - 1] == a + b[..|b| - 1]
    ensures (a + b)[|a + b| - 1] == b[|b| - 1]
  {
  }

  lemma {:induction false} BinValueConcat(a: string, b: string)
    requires AllBinDigits(a) && AllBinDigits(b)
    ensures AllBinDigits(a + b)
    ensures BinValue(a + b) == BinValue(a) * Pow2(|b|) + BinValue(b)
    decreases |b|, 1
  {
    ConcatBinDigits(a, b);
    if |b| == 0 {
      assert a + b == a;
    } else {
      BinValueConcatStep(a, b);
    }
  }

  lemma {:induction false} BinValueConcatStep(a: string, b: string)
    requires AllBinDigits(a) && AllBinDigits(b) && |b| > 0
    ensures AllBinDigits(a + b)
    ensures BinValue(a + b) == BinValue(a) * Pow2(|b|) + BinValue(b)
    decreases |b|, 0
  {
    var b' := b[..|b| - 1];
    ConcatBinDigits(a, b);
    DropLastConcat(a, b);
    BinValueConcat(a, b');
    Double(BinValue(a), Pow2(|b'|));
  }

  lemma Double(x: nat, y: nat)
    ensures x * (2 * y) == 2 * (x * y)
  {
  }

  lemma {:induction false} BinValueBound(s: string)
    requires AllBinDigits(s)
    ensures BinValue(s) < Pow2(|s|)
    decreases |s|
  {
    if |s| > 0 {
      BinValueBound(s[..|s| - 1]);
    }
  }

  lemma {:induction false} ZerosValue(k: nat)
    ensures AllBinDigits(seq(k, _ => '0'))
    ensures BinValue(seq(k, _ => '0')) == 0
    decreases k
  {
    if k > 0 {
      assert seq(k, _ => '0')[..k - 1] == seq(k - 1, _ => '0');
      ZerosValue(k - 1);
    }
  }

  /** Zero padding does not change the value. */
  lemma ZeroPadValue(s: string, width: nat)
    requires AllBinDigits(s)
    ensures BinValue(ZeroPad(s, width)) == BinValue(s)
  {
    if |s| < width {
      ZerosValue(width - |s|);
      BinValueConcat(seq(width - |s|, _ => '0'), s);
    }
  }

  /** `format(n, 'b')` and `int(_, 2)` are inverse. */
  lemma {:induction false} BinaryValue(n: nat)
    ensures BinValue(Binary(n)) == n
    decreases n
  {
    if n >= 2 {
      BinaryValue(n / 2);
      var d := [if n % 2 == 1 then '1' else '0'];
      assert (Binary(n / 2) + d)[..|Binary(n / 2) + d| - 1] == Binary(n / 2);
    }
  }

  lemma {:induction false} BinaryLength(n: nat, k: nat)
    requires 1 <= k && n < Pow2(k)
    ensures |Binary(n)| <= k
    decreases k
  {
    if n >= 2 {
      BinaryLength(n / 2, k - 1);
    }
  }

  /** Splitting a digit string at `i` splits its value into quotient and
      remainder by `2^(|s| - i)`. */
  lemma SplitValue(s: string, i: nat)
    requires AllBinDigits(s) && i <= |s|
    ensures BinValue(s) == BinValue(s[..i]) * Pow2(|s| - i) + BinValue(s[i..])
    ensures BinValue(s[i..]) < Pow2(|s| - i)
  {
    assert s == s[..i] + s[i..];
    BinValueConcat(s[..i], s[i..]);
    BinValueBound(s[i..]);
  }

  lemma DivModUnique(n: int, q: int, r: int)
    requires 0 <= r < 256 && n == q * 256 + r
    ensures q == n / 256 && r == n % 256
  {
  }

  lemma Pow2Bytes()
    ensures Pow2(8) == 256 && Pow2(16) == 0x10000
  {
  }

  /** The unsigned 16-bit format is sixteen binary digits worth `n`. */
  lemma FormatUnsigned(n: int)
    requires 0 <= n < 0x10000
    ensures |FormatBin16(n)| == 16 && AllBinDigits(FormatBin16(n))
    ensures BinValue(FormatBin16(n)) == n
  {
    Pow2Bytes();
    BinaryLength(n, 16);
    BinaryValue(n);
    ZeroPadValue(Binary(n), 16);
  }

  lemma HalvesAreSlices(text: string)
    requires |text| == 16
    ensures Slice(text, 0, 8) == text[..8] && Slice(text, 8, 16) == text[8..]
  {
  }

  /** For every speed that fits in 16 bits, `Convert_speed` returns its high
      and low byte, so the command-85 payload `[lsbs, msbs]` encodes the speed
      little-endian: `msbs * 256 + lsbs == speed`. */
  lemma ConvertSpeedBytes(n: int)
    requires 0 <= n < 0x10000
    ensures ConvertSpeed(n) == Ok((n / 256, n % 256))
    ensures ConvertSpeed(n).value.0 * 256 + ConvertSpeed(n).value.1 == n
  {
    var text := FormatBin16(n);
    FormatUnsigned(n);
    HalvesAreSlices(text);
    Pow2Bytes();
    SplitValue(text, 8);
    DivModUnique(n, BinValue(text[..8]), BinValue(text[8..]));
  }

  /** `High_bin_to_Dec(s)` (and the identical `Low_bin_to_Dec`): the four
      eight-character slices of `s`, most significant first, each parsed as
      binary. A string shorter than 25 characters leaves a slice empty and
      `int('', 2)` raises `ValueError`. */
  function SplitWord(s: string): (r: Result<(int, int, int, int)>)
    ensures |s| <= 24 ==> r == Err(ValueError)
  {
    var a4 := ParseBin(Slice(s, 0, 8));
    var a3 := ParseBin(Slice(s, 8, 16));
    var a2 := ParseBin(Slice(s, 16, 24));
    var a1 := ParseBin(Slice(s, 24, 32));
    if a4.Err? then Err(a4.error)
    else if a3.Err? then Err(a3.error)
    else if a2.Err? then Err(a2.error)
    else if a1.Err? then Err(a1.error)
    else Ok((a4.value, a3.value, a2.value, a1.value))
  }

  /** On a 32-bit string of binary digits the four bytes recombine to its
      value: `msb * 2^24 + lsb * 2^16 + dk1 * 2^8 + dk2`. */
  lemma SplitWordValue(s: string)
    requires |s| == 32 && AllBinDigits(s)
    ensures SplitWord(s).Ok?
    ensures var (msb, lsb, dk1, dk2) := SplitWord(s).value;
      && 0 <= msb < 256 && 0 <= lsb < 256 && 0 <= dk1 < 256 && 0 <= dk2 < 256
      && msb * 0x100_0000 + lsb * 0x1_0000 + dk1 * 0x100 + dk2 == BinValue(s)
  {
    var q1 := s[..8]; var q2 := s[8..16]; var q3 := s[16..24]; var q4 := s[24..];
    SplitWordBytes(s);
    AppendByte(q1, q2);
    AppendByte(q1 + q2, q3);
    AppendByte(q1 + q2 + q3, q4);
  }

  lemma SplitWordBytes(s: string)
    requires |s| == 32 && AllBinDigits(s)
    ensures AllBinDigits(s[..8]) && AllBinDigits(s[8..16]) && AllBinDigits(s[16..24]) && AllBinDigits(s[24..])
    ensures BinValue(s[..8]) < 256 && BinValue(s[8..16]) < 256 && BinValue(s[16..24]) < 256 && BinValue(s[24..]) < 256
    ensures s == s[..8] + s[8..16] + s[16..24] + s[24..]
    ensures SplitWord(s) == Ok((BinValue(s[..8]), BinValue(s[8..16]), BinValue(s[16..24]), BinValue(s[24..])))
  {
    Quarters(s);
    ByteDigits(s, 0); ByteDigits(s, 8); ByteDigits(s, 16); ByteDigits(s, 24);
  }

  lemma Quarters(s: string)
    requires |s| == 32
    ensures Slice(s, 0, 8) == s[..8] && Slice(s, 8, 16) == s[8..16]
    ensures Slice(s, 16, 24) == s[16..24] && Slice(s, 24, 32) == s[24..]
    ensures s == s[..8] + s[8..16] + s[16..24] + s[24..]
  {
  }

  /** The eight digits from `i` on are a byte. */
  lemma ByteDigits(s: string, i: nat)
    requires AllBinDigits(s) && i + 8 <= |s|
    ensures AllBinDigits(s[i..i + 8]) && BinValue(s[i..i + 8]) < 256
    ensures i + 8 == |s| ==> s[i..] == s[i..i + 8]
  {
    Pow2Bytes();
    BinValueBound(s[i..i + 8]);
  }

  /** Appending eight digits shifts the value up by a byte. */
  lemma AppendByte(a: string, b: string)
    requires AllBinDigits(a) && AllBinDigits(b) && |b| == 8
    ensures AllBinDigits(a + b)
    ensures BinValue(a + b) == BinValue(a) * 256 + BinValue(b)
  {
    Pow2Bytes();
    BinValueConcat(a, b);
  }
}
