/** The three pieces of Python's text handling the rover's main program
    relies on: `str.strip()`, `int(str)` in base 10 and `str(int)`. */
module PyText {
  import opened Common

  /** `c.isspace()` for the characters Python counts as whitespace. */
  predicate IsSpace(c: char)
  {
    || c == ' ' || c == '\t' || c == '\n' || c == '\r' || c == '\U{000B}' || c == '\U{000C}'
    || ('\U{001C}' <= c <= '\U{001F}') || c == '\U{0085}' || c == '\U{00A0}' || c == '\U{1680}'
    || ('\U{2000}' <= c <= '\U{200A}') || c == '\U{2028}' || c == '\U{2029}' || c == '\U{202F}'
    || c == '\U{205F}' || c == '\U{3000}'
  }

  /** The ASCII information separators U+001C to U+001F: `str.isspace()`
      accepts them, but `int()` does not skip them. */
  predicate IsSeparator(c: char)
  {
    '\U{001C}' <= c <= '\U{001F}'
  }

  /** Which whitespace a trim removes. `str.strip()` removes everything
      `str.isspace()` accepts. `int()` turns non-ASCII whitespace into
      spaces and then skips only the ASCII whitespace `" \t\n\v\f\r"`, so
      the four separators are not skipped. */
  datatype Blanks = StripBlanks | IntBlanks

  predicate IsBlank(w: Blanks, c: char)
  {
    IsSpace(c) && (w == IntBlanks ==> !IsSeparator(c))
  }

  predicate AllBlank(w: Blanks, s: string)
  {
    forall k :: 0 <= k < |s| ==> IsBlank(w, s[k])
  }

  /** Neither end of `s` is a blank of kind `w`. */
  predicate TrimmedOf(w: Blanks, s: string)
  {
    |s| > 0 ==> !IsBlank(w, s[0]) && !IsBlank(w, s[|s| - 1])
  }

  /** Every character of `s` is whitespace to `str.isspace()`. */
  predicate AllSpace(s: string)
  {
    AllBlank(StripBlanks, s)
  }

  /** Neither end of `s` is whitespace to `str.isspace()`. */
  predicate Trimmed(s: string)
  {
    TrimmedOf(StripBlanks, s)
  }

  function DropLeading(w: Blanks, s: string): (r: string)
    ensures |r| <= |s| && r == s[|s| - |r|..]
    ensures AllBlank(w, s[..|s| - |r|])
    ensures |r| > 0 ==> !IsBlank(w, r[0])
  {
    if |s| > 0 && IsBlank(w, s[0]) then DropLeading(w, s[1..]) else s
  }

  function DropTrailing(w: Blanks, s: string): (r: string)
    ensures |r| <= |s| && r == s[..|r|]
    ensures AllBlank(w, s[|r|..])
    ensures |r| > 0 ==> !IsBlank(w, r[|r| - 1])
  {
    if |s| > 0 && IsBlank(w, s[|s| - 1]) then DropTrailing(w, s[..|s| - 1]) else s
  }

  /** The blanks of kind `w` removed from both ends of `s`. */
  function Trim(w: Blanks, s: string): (r: string)
    ensures TrimmedOf(w, r)
  {
    DropTrailing(w, DropLeading(w, s))
  }

  /** `s.strip()`. */
  function Strip(s: string): (r: string)
    ensures Trimmed(r)
  {
    Trim(StripBlanks, s)
  }

  /** Trimming removes blanks only: the input is the result with the
      blanks `DropLeading` skipped in front and those `DropTrailing`
      skipped behind. */
  lemma TrimRemovesBlanks(w: Blanks, s: string)
    ensures var t := DropLeading(w, s); var r := Trim(w, s);
      && s == s[..|s| - |t|] + r + t[|r|..]
      && AllBlank(w, s[..|s| - |t|]) && AllBlank(w, t[|r|..])
  {
    var t := DropLeading(w, s);
    var r := DropTrailing(w, t);
    assert Trim(w, s) == r;
    BlanksAround(w, s, t, r);
  }

  /** The pieces `DropLeading` and `DropTrailing` leave, without the
      recursion that produced them. */
  lemma BlanksAround(w: Blanks, s: string, t: string, r: string)
    requires |t| <= |s| && t == s[|s| - |t|..] && AllBlank(w, s[..|s| - |t|])
    requires |r| <= |t| && r == t[..|r|] && AllBlank(w, t[|r|..])
    ensures s == s[..|s| - |t|] + r + t[|r|..]
    ensures AllBlank(w, s[..|s| - |t|]) && AllBlank(w, t[|r|..])
  {
    Split3(s, t, r, |s| - |t|);
  }

  lemma Split3<T>(s: seq<T>, t: seq<T>, r: seq<T>, k: nat)
    requires k <= |s| && t == s[k..] && |r| <= |t| && r == t[..|r|]
    ensures s == s[..k] + r + t[|r|..]
  {
    assert s == s[..k] + t;
    assert t == r + t[|r|..];
  }

  /** Whatever blanks surround a trimmed string, trimming returns exactly
      that string. */
  lemma {:induction false} TrimPadded(w: Blanks, pre: string, core: string, post: string)
    requires AllBlank(w, pre) && AllBlank(w, post) && TrimmedOf(w, core)
    ensures Trim(w, pre + core + post) == core
  {
    if |core| == 0 {
      var s := pre + core + post;
      assert AllBlank(w, s);
      assert DropLeading(w, s) == [];
    } else {
      assert pre + core + post == pre + (core + post);
      LeadingPadded(w, pre, core + post);
      TrailingPadded(w, core, post);
    }
  }

  lemma {:induction false} LeadingPadded(w: Blanks, pre: string, rest: string)
    requires AllBlank(w, pre)
    requires |rest| > 0 ==> !IsBlank(w, rest[0])
    ensures DropLeading(w, pre + rest) == rest
    decreases |pre|
  {
    if |pre| > 0 {
      assert (pre + rest)[1..] == pre[1..] + rest;
      LeadingPadded(w, pre[1..], rest);
    } else {
      assert pre + rest == rest;
    }
  }

  lemma {:induction false} TrailingPadded(w: Blanks, core: string, post: string)
    requires AllBlank(w, post)
    requires |core| > 0 ==> !IsBlank(w, core[|core| - 1])
    ensures DropTrailing(w, core + post) == core
    decreases |post|
  {
    if |post| > 0 {
      var n := |post| - 1;
      assert (core + post)[..|core + post| - 1] == core + post[..n];
      TrailingPadded(w, core, post[..n]);
    } else {
      assert core + post == core;
    }
  }

  /** Stripping twice is stripping once. */
  lemma StripIdempotent(s: string)
    ensures Strip(Strip(s)) == Strip(s)
  {
    var r := Strip(s);
    assert [] + r + [] == r;
    TrimPadded(StripBlanks, [], r, []);
  }

  // ---------------------------------------------------------------------
  // int(str), base 10.

  predicate IsDigit(c: char)
  {
    '0' <= c <= '9'
  }

  /** Python's grammar for the digits of a decimal literal: digits, with
      single underscores allowed between two digits. */
  predicate DigitGroups(s: string)
  {
    && |s| > 0
    && IsDigit(s[0]) && IsDigit(s[|s| - 1])
    && (forall k :: 0 <= k < |s| ==> IsDigit(s[k]) || s[k] == '_')
    && (forall k :: 0 <= k < |s| - 1 ==> !(s[k] == '_' && s[k + 1] == '_'))
  }

  /** The value of a digit string, underscores skipped. */
  function DecValue(s: string): nat
  {
    if |s| == 0 then 0
    else
      var c := s[|s| - 1];
      if IsDigit(c) then 10 * DecValue(s[..|s| - 1]) + (c as int - '0' as int)
      else DecValue(s[..|s| - 1])
  }

  /** The default of `sys.get_int_max_str_digits()` from CPython 3.11 on:
      `int` of a decimal text with more digits than this, and `str` of an
      integer that needs more, raise `ValueError`. */
  const MaxStrDigits := 4300

  /** The number of decimal digits in a text; signs and underscores do
      not count. */
  function DigitCount(s: string): (r: nat)
    ensures r <= |s|
  {
    if |s| == 0 then 0
    else DigitCount(s[..|s| - 1]) + (if IsDigit(s[|s| - 1]) then 1 else 0)
  }

  /** `int(s)`: whitespace other than the four separators around an
      optional sign and at most 4300 digits in digit groups; anything else
      raises `ValueError`. */
  function ParseInt(s: string): (r: Result<int>)
    ensures r.Err? ==> r.error == ValueError
    ensures AllSpace(s) ==> r.Err?
  {
    var t := Trim(IntBlanks, s);
    BlankTextRejected(s);
    ParseStripped(t)
  }

  /** A text of whitespace alone leaves `int` nothing, or a separator, to
      read. */
  lemma BlankTextRejected(s: string)
    ensures AllSpace(s) ==> ParseStripped(Trim(IntBlanks, s)).Err?
  {
    var t := Trim(IntBlanks, s);
    if AllSpace(s) && |t| > 0 {
      assert IsSpace(t[0]) by {
        var d := DropLeading(IntBlanks, s);
        assert t[0] == d[0] == s[|s| - |d|];
      }
    }
  }

  /** What `int` makes of the text once surrounding whitespace is gone:
      the digit groups are read first, then their digit count is held
      against the limit. */
  function ParseStripped(t: string): (r: Result<int>)
    ensures r.Err? ==> r.error == ValueError
    ensures t == [] ==> r.Err?
    ensures |t| > 0 && !IsDigit(t[0]) && t[0] != '-' && t[0] != '+' ==> r.Err?
  {
    if |t| > 0 && (t[0] == '-' || t[0] == '+') then
      var digits := t[1..];
      if DigitGroups(digits) && DigitCount(digits) <= MaxStrDigits then
        var v: int := DecValue(digits);
        Ok(if t[0] == '-' then -v else v)
      else Err(ValueError)
    else if DigitGroups(t) && DigitCount(t) <= MaxStrDigits then Ok(DecValue(t))
    else Err(ValueError)
  }

  /** A sign in front of the digits adds no digit. */
  lemma {:induction false} DigitCountAfterSign(c: char, s: string)
    requires !IsDigit(c)
    ensures DigitCount([c] + s) == DigitCount(s)
    decreases |s|
  {
    if |s| > 0 {
      var s' := s[..|s| - 1];
      assert ([c] + s)[..|[c] + s| - 1] == [c] + s';
      DigitCountAfterSign(c, s');
    }
  }

  /** `int` reads at most 4300 digits, whatever the sign and underscores. */
  lemma DigitLimit(s: string)
    ensures ParseInt(s).Ok? ==> DigitCount(Trim(IntBlanks, s)) <= MaxStrDigits
  {
    if ParseInt(s).Ok? {
      ParseIntUnfold(s);
      StrippedDigitLimit(Trim(IntBlanks, s));
    }
  }

  lemma StrippedDigitLimit(t: string)
    requires ParseStripped(t).Ok?
    ensures DigitCount(t) <= MaxStrDigits
  {
    if t[0] == '-' || t[0] == '+' {
      assert DigitCount(t[1..]) <= MaxStrDigits;
      assert t == [t[0]] + t[1..];
      DigitCountAfterSign(t[0], t[1..]);
    }
  }

  /** A text of digits alone has as many digits as characters. */
  lemma {:induction false} AllDigitsCount(s: string)
    requires forall k :: 0 <= k < |s| ==> IsDigit(s[k])
    ensures DigitCount(s) == |s|
    decreases |s|
  {
    if |s| > 0 {
      AllDigitsCount(s[..|s| - 1]);
    }
  }

  /** `k` zeros. */
  function Zeros(k: nat): (r: string)
    ensures |r| == k && forall i :: 0 <= i < k ==> r[i] == '0'
  {
    if k == 0 then [] else Zeros(k - 1) + ['0']
  }

  lemma {:induction false} ZerosValue(k: nat)
    ensures DecValue(Zeros(k)) == 0
    decreases k
  {
    if k > 0 {
      assert Zeros(k)[..k - 1] == Zeros(k - 1);
      ZerosValue(k - 1);
    }
  }

  /** 4300 zeros and a 1 are digit groups worth 1, yet one digit too many
      for `int`, which raises `ValueError`. */
  lemma OverlongOneRaises()
    ensures DigitGroups(Zeros(MaxStrDigits) + "1") && DecValue(Zeros(MaxStrDigits) + "1") == 1
    ensures ParseInt(Zeros(MaxStrDigits) + "1") == Err(ValueError)
  {
    var t := Zeros(MaxStrDigits) + "1";
    assert t[..|t| - 1] == Zeros(MaxStrDigits);
    ZerosValue(MaxStrDigits);
    AllDigitsCount(t);
    assert TrimmedOf(IntBlanks, t) by {
      assert t[0] == '0' && t[|t| - 1] == '1';
    }
    TrimTrimmed(IntBlanks, t);
    ParseIntUnfold(t);
  }

  // ---------------------------------------------------------------------
  // str(int).

  function DigitChar(d: nat): (c: char)
    requires d < 10
    ensures IsDigit(c) && c as int - '0' as int == d
  {
    ('0' as int + d) as char
  }

  function NatToString(n: nat): (r: string)
    ensures |r| > 0 && forall k :: 0 <= k < |r| ==> IsDigit(r[k])
    ensures DecValue(r) == n
  {
    if n < 10 then [DigitChar(n)]
    else
      var r := NatToString(n / 10) + [DigitChar(n % 10)];
      assert r[..|r| - 1] == NatToString(n / 10);
      r
  }

  /** `str(n)`. */
  function IntToString(n: int): (r: string)
    ensures Trimmed(r) && |r| > 0
  {
    if n < 0 then "-" + NatToString(-n) else NatToString(n)
  }

  function Pow10(k: nat): (r: nat)
    ensures r >= 1
  {
    if k == 0 then 1 else 10 * Pow10(k - 1)
  }

  /** The integers `str` writes, and `int` reads back, within the digit
      limit: those that take at most 4300 digits (`BelowPow10Fits`: every
      `|n| < 10^4300`). */
  predicate FitsStrLimit(n: int)
  {
    |NatToString(if n < 0 then -n else n)| <= MaxStrDigits
  }

  /** Every number of magnitude below `10^4300` is within the limit. */
  lemma BelowPow10Fits(n: int)
    requires -(Pow10(MaxStrDigits) as int) < n < Pow10(MaxStrDigits)
    ensures FitsStrLimit(n)
  {
    NatDigitsBound(if n < 0 then -n else n, MaxStrDigits);
  }

  /** A number below `10^k` takes at most `k` digits. */
  lemma {:induction false} NatDigitsBound(n: nat, k: nat)
    requires k >= 1 && n < Pow10(k)
    ensures |NatToString(n)| <= k
    decreases n
  {
    if n >= 10 {
      assert k >= 2;
      assert n / 10 < Pow10(k - 1);
      NatDigitsBound(n / 10, k - 1);
    }
  }

  /** What `str` writes for a number within the limit has at most 4300
      digits. */
  lemma NatStringFits(n: nat)
    requires FitsStrLimit(n)
    ensures DigitCount(NatToString(n)) <= MaxStrDigits
  {
    AllDigitsCount(NatToString(n));
  }

  /** The digits `str` produces are digit groups without underscores. */
  lemma NatDigitGroups(n: nat)
    ensures DigitGroups(NatToString(n))
  {
  }

  /** Trimming a text whose ends are not blank leaves it alone. */
  lemma TrimTrimmed(w: Blanks, s: string)
    requires TrimmedOf(w, s)
    ensures Trim(w, s) == s
  {
    Unpadded(s);
    TrimPadded(w, [], s, []);
  }

  lemma Unpadded(s: string)
    ensures [] + s + [] == s
  {
  }

  lemma SignedDigits(sign: char, digits: string)
    ensures ([sign] + digits)[0] == sign && ([sign] + digits)[1..] == digits
  {
  }

  lemma ParseNatString(n: nat)
    requires FitsStrLimit(n)
    ensures ParseStripped(NatToString(n)) == Ok(n)
  {
    NatDigitGroups(n);
    NatStringFits(n);
    assert IsDigit(NatToString(n)[0]);
  }

  lemma ParseNegativeString(n: nat)
    requires FitsStrLimit(n)
    ensures ParseStripped("-" + NatToString(n)) == Ok(-(n as int))
  {
    SignedDigits('-', NatToString(n));
    NatDigitGroups(n);
    NatStringFits(n);
  }

  /** `int` reads a trimmed text exactly as `str` wrote it, for every
      number within the digit limit. */
  lemma ParseIntString(n: int)
    requires FitsStrLimit(n)
    ensures ParseInt(IntToString(n)) == Ok(n)
  {
    TrimTrimmed(IntBlanks, IntToString(n));
    if n < 0 {
      ParseNegativeString(-n);
    } else {
      ParseNatString(n);
    }
  }

  /** `int` and `str.strip()` disagree only on the separators: `int(s)` is
      `int(s.strip())` when both remove the same characters, and raises
      `ValueError` otherwise. */
  lemma ParseIntSeesStrip(s: string)
    ensures ParseInt(s) == if Trim(IntBlanks, s) == Strip(s) then ParseStripped(Strip(s)) else Err(ValueError)
  {
    if ParseInt(s).Ok? {
      AcceptedTrimIsStrip(s);
    }
  }

  /** When `int` accepts a text, `str.strip()` would have removed exactly
      what `int` skipped. */
  lemma AcceptedTrimIsStrip(s: string)
    requires ParseStripped(Trim(IntBlanks, s)).Ok?
    ensures Trim(IntBlanks, s) == Strip(s)
  {
    AcceptedIsTrimmed(Trim(IntBlanks, s));
    TrimmedTrimIsStrip(s);
  }

  /** When what `int` keeps has no blank at either end for
      `str.strip()` either, both remove the same characters. */
  lemma TrimmedTrimIsStrip(s: string)
    requires Trimmed(Trim(IntBlanks, s))
    ensures Trim(IntBlanks, s) == Strip(s)
  {
    var d := DropLeading(IntBlanks, s);
    var t := Trim(IntBlanks, s);
    var pre := s[..|s| - |d|];
    var post := d[|t|..];
    assert s == pre + t + post && AllBlank(IntBlanks, pre) && AllBlank(IntBlanks, post) by {
      TrimRemovesBlanks(IntBlanks, s);
    }
    StripPadded(s, pre, t, post);
  }

  /** `str.strip()` removes blanks `int` skips, and stops at a text
      trimmed for both. */
  lemma StripPadded(s: string, pre: string, t: string, post: string)
    requires s == pre + t + post && AllBlank(IntBlanks, pre) && AllBlank(IntBlanks, post) && Trimmed(t)
    ensures Strip(s) == t
  {
    IntBlanksAreSpace(pre);
    IntBlanksAreSpace(post);
    TrimPadded(StripBlanks, pre, t, post);
  }

  lemma IntBlanksAreSpace(s: string)
    requires AllBlank(IntBlanks, s)
    ensures AllSpace(s)
  {
  }

  /** Text `int` accepts starts with a sign or a digit and ends with a
      digit, so `str.strip()` would not shorten it. */
  lemma AcceptedIsTrimmed(t: string)
    requires ParseStripped(t).Ok?
    ensures |t| > 0 && Trimmed(t)
  {
    if t[0] == '-' || t[0] == '+' {
      assert t[|t| - 1] == t[1..][|t[1..]| - 1];
    }
  }

  /** A separator before a number: `str.strip()` removes it, `int` does
      not, and raises. */
  lemma SeparatorRaises(n: int)
    ensures Strip(['\U{001C}'] + IntToString(n)) == IntToString(n)
    ensures ParseInt(['\U{001C}'] + IntToString(n)) == Err(ValueError)
  {
    SeparatorStripped(IntToString(n));
    SeparatorKept('\U{001C}', IntToString(n));
  }

  lemma SeparatorStripped(digits: string)
    requires Trimmed(digits)
    ensures Strip(['\U{001C}'] + digits) == digits
  {
    assert ['\U{001C}'] + digits == ['\U{001C}'] + digits + [];
    TrimPadded(StripBlanks, ['\U{001C}'], digits, []);
  }

  lemma SeparatorKept(c: char, digits: string)
    requires IsSeparator(c) && |digits| > 0 && Trimmed(digits)
    ensures ParseInt([c] + digits) == Err(ValueError)
  {
    var s := [c] + digits;
    SeparatorEnds(c, digits);
    ParseIntUnfold(s);
  }

  /** A separator in front of stripped text is not skipped, and the
      text then does not start like a number. */
  lemma SeparatorEnds(c: char, digits: string)
    requires IsSeparator(c) && |digits| > 0 && Trimmed(digits)
    ensures Trim(IntBlanks, [c] + digits) == [c] + digits
    ensures ParseStripped([c] + digits).Err?
  {
    var s := [c] + digits;
    assert TrimmedOf(IntBlanks, s) by {
      assert s[0] == c && !IsBlank(IntBlanks, c);
      assert s[|s| - 1] == digits[|digits| - 1];
    }
    TrimTrimmed(IntBlanks, s);
    assert s[0] == c && !IsDigit(c);
  }

  lemma ParseIntUnfold(s: string)
    ensures ParseInt(s) == ParseStripped(Trim(IntBlanks, s))
  {
  }

  /** `int(str(n)) == n` within the digit limit, also with whitespace
      other than the separators around the text. */
  lemma ParseIntToString(n: int, pre: string, post: string)
    requires FitsStrLimit(n)
    requires AllBlank(IntBlanks, pre) && AllBlank(IntBlanks, post)
    ensures ParseInt(pre + IntToString(n) + post) == Ok(n)
  {
    var s := IntToString(n);
    TrimPadded(IntBlanks, pre, s, post);
    ParseIntString(n);
    TrimTrimmed(IntBlanks, s);
  }
}
