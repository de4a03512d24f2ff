/**
  The pieces of the .NET runtime the assembler leans on, written out over
  `string` (= `seq<char>`): ASCII-only case folding and white space, `Trim(char)`,
  the hexadecimal formats `X1`/`X2`/`X6` of an `int`, and the decimal and
  hexadecimal parsers behind `Convert.ToInt32` and `int.TryParse`.
*/
module Text {
  import opened Errors

  const Int32Min: int := -0x8000_0000
  const Int32Max: int := 0x7FFF_FFFF
  const Two32: int := 0x1_0000_0000

  /** `char.IsWhiteSpace`, restricted to the ASCII white-space characters. */
  predicate IsWhiteSpace(c: char) {
    c == ' ' || c == '\t' || c == '\n' || c == '\r' || c as int == 11 || c as int == 12
  }

  predicate IsDigitChar(c: char) { '0' <= c <= '9' }

  predicate IsHexDigitChar(c: char) { IsDigitChar(c) || 'A' <= c <= 'F' || 'a' <= c <= 'f' }

  predicate AllDigits(s: string) { forall i | 0 <= i < |s| :: IsDigitChar(s[i]) }

  predicate AllHex(s: string) { forall i | 0 <= i < |s| :: IsHexDigitChar(s[i]) }

  // ---------------------------------------------------------------------------
  // Case folding (`ToUpper`, ASCII letters only)

  function UpperChar(c: char): char {
    if 'a' <= c <= 'z' then (c as int - 32) as char else c
  }

  function Upper(s: string): (r: string)
    ensures |r| == |s|
    ensures forall i | 0 <= i < |s| :: r[i] == UpperChar(s[i])
  {
    if |s| == 0 then [] else [UpperChar(s[0])] + Upper(s[1..])
  }

  /** Upper-casing leaves a string without lower-case letters alone. */
  lemma UpperOfUpper(s: string)
    requires forall i | 0 <= i < |s| :: !('a' <= s[i] <= 'z')
    ensures Upper(s) == s
  {
  }

  lemma UpperIdempotent(s: string)
    ensures Upper(Upper(s)) == Upper(s)
  {
    assert forall i | 0 <= i < |s| :: Upper(Upper(s))[i] == Upper(s)[i];
  }

  // ---------------------------------------------------------------------------
  // `Trim(c)`: drops every leading and every trailing occurrence of `c`

  function TrimStart(s: string, c: char): (r: string)
    ensures |r| <= |s| && r == s[|s| - |r|..]
    ensures forall k | 0 <= k < |s| - |r| :: s[k] == c
    ensures |r| > 0 ==> r[0] != c
    ensures |s| > 0 && s[|s| - 1] != c ==> |r| > 0
  {
    if |s| > 0 && s[0] == c then TrimStart(s[1..], c) else s
  }

  function TrimEnd(s: string, c: char): (r: string)
    ensures |r| <= |s| && r == s[..|r|]
    ensures forall k | |r| <= k < |s| :: s[k] == c
    ensures |r| > 0 ==> r[|r| - 1] != c
    ensures |s| > 0 && s[0] != c ==> |r| > 0
  {
    if |s| > 0 && s[|s| - 1] == c then TrimEnd(s[..|s| - 1], c) else s
  }

  function Trim(s: string, c: char): (r: string)
    ensures |r| <= |s|
    ensures |r| > 0 ==> r[0] != c && r[|r| - 1] != c
  {
    TrimEnd(TrimStart(s, c), c)
  }

  /** `Trim(c)` removes a run of `c` at each end and nothing else: the result is a slice of `s` with only `c` around it. */
  lemma TrimRemovesOnly(s: string, c: char)
    ensures var a := |s| - |TrimStart(s, c)|;
            a + |Trim(s, c)| <= |s| && Trim(s, c) == s[a..a + |Trim(s, c)|] &&
            (forall k | 0 <= k < a :: s[k] == c) && (forall k | a + |Trim(s, c)| <= k < |s| :: s[k] == c)
  {
    var t := TrimStart(s, c);
    var r := TrimEnd(t, c);
    SliceInSlice(s, t, r, |s| - |t|, c);
  }

  /** A prefix `r` of the suffix `t == s[a..]`, with only `c` after `r` in `t`, is the slice `s[a..a + |r|]` with only `c` after it in `s`. */
  lemma SliceInSlice(s: string, t: string, r: string, a: nat, c: char)
    requires a <= |s| && t == s[a..] && |r| <= |t| && r == t[..|r|]
    requires forall k | |r| <= k < |t| :: t[k] == c
    ensures a + |r| <= |s| && r == s[a..a + |r|]
    ensures forall k | a + |r| <= k < |s| :: s[k] == c
  {
    forall k | a + |r| <= k < |s| ensures s[k] == c {
      assert s[k] == t[k - a];
    }
  }

  /** Trimming stops at once at a character other than `c`. */
  lemma TrimUntouched(s: string, c: char)
    requires |s| > 0 && s[0] != c && s[|s| - 1] != c
    ensures TrimStart(s, c) == s && TrimEnd(s, c) == s && Trim(s, c) == s
  {
  }

  /** A first character other than `c` survives `Trim(c)`. */
  lemma TrimKeepsFirst(s: string, c: char)
    requires |s| > 0 && s[0] != c
    ensures |Trim(s, c)| > 0 && Trim(s, c)[0] == s[0]
  {
    assert TrimStart(s, c) == s;
  }

  /** A single leading `c` is trimmed from the start. */
  lemma TrimStartOne(s: string, c: char)
    requires |s| >= 2 && s[0] == c && s[1] != c
    ensures TrimStart(s, c) == s[1..]
  {
  }

  /** A single `c` at the start, and none at the end: only the first character goes. */
  lemma TrimLeading(s: string, c: char)
    requires |s| >= 2 && s[0] == c && s[1] != c && s[|s| - 1] != c
    ensures Trim(s, c) == s[1..]
  {
    TrimStartOne(s, c);
    TrimUntouched(s[1..], c);
  }

  /** A single `c` at each end: exactly those two go. */
  lemma TrimEnclosed(s: string, c: char)
    requires |s| >= 3 && s[0] == c && s[1] != c && s[|s| - 1] == c && s[|s| - 2] != c
    ensures Trim(s, c) == s[1..|s| - 1]
  {
    TrimStartOne(s, c);
    var t := s[1..];
    TrimEndOne(t, c);
    assert t[..|t| - 1] == s[1..|s| - 1];
  }

  /** A single trailing `c` is trimmed from the end. */
  lemma TrimEndOne(s: string, c: char)
    requires |s| >= 2 && s[|s| - 1] == c && s[|s| - 2] != c
    ensures TrimEnd(s, c) == s[..|s| - 1]
  {
  }

  // ---------------------------------------------------------------------------
  // Hexadecimal output: `{v:Xw}` prints upper-case digits, at least w of them

  function HexDigit(d: nat): char
    requires d < 16
  {
    if d < 10 then ('0' as int + d) as char else ('A' as int + d - 10) as char
  }

  function HexValue(c: char): nat
    requires IsHexDigitChar(c)
  {
    if IsDigitChar(c) then c as int - '0' as int
    else if 'A' <= c <= 'F' then c as int - 'A' as int + 10
    else c as int - 'a' as int + 10
  }

  /** The digits of `n` without leading zeros (`"0"` for zero). */
  function HexString(n: nat): string
  {
    if n < 16 then [HexDigit(n)] else HexString(n / 16) + [HexDigit(n % 16)]
  }

  function Zeros(k: nat): (z: string)
    ensures |z| == k && forall i | 0 <= i < k :: z[i] == '0'
  {
    seq(k, _ => '0')
  }

  function PadHex(n: nat, width: nat): string {
    var h := HexString(n);
    if |h| >= width then h else Zeros(width - |h|) + h
  }

  /** `{v:Xw}` of a C# `int`: a negative value prints its 32-bit two's complement. */
  function FormatHex(v: int, width: nat): string {
    PadHex(if v < 0 then v % Two32 else v, width)
  }

  /** C# `int` arithmetic: the value modulo 2^32, read as two's complement. */
  function Wrap32(v: int): (r: int)
    ensures Int32Min <= r <= Int32Max
    ensures (v - r) % Two32 == 0
    ensures Int32Min <= v <= Int32Max ==> r == v
  {
    (v - Int32Min) % Two32 + Int32Min
  }

  function Pow16(k: nat): nat {
    if k == 0 then 1 else 16 * Pow16(k - 1)
  }

  // ---------------------------------------------------------------------------
  // Hexadecimal input: `Convert.ToInt32(s, 16)`

  function HexNat(s: string): nat
    requires AllHex(s)
  {
    if |s| == 0 then 0 else HexNat(s[..|s| - 1]) * 16 + HexValue(s[|s| - 1])
  }

  /** One or more hexadecimal digits whose value fits in 32 bits, read as a two's-complement `int`. */
  function ReadHex(d: string): (r: Option<int>)
    ensures r.Some? <==> |d| > 0 && AllHex(d) && HexNat(d) < Two32
    ensures r.Some? ==> Int32Min <= r.value <= Int32Max && r.value % Two32 == HexNat(d)
  {
    if |d| == 0 || !AllHex(d) then None
    else
      var n := HexNat(d);
      if n >= Two32 then None else if n > Int32Max then Some(n - Two32) else Some(n)
  }

  /**
    The scan of `Convert.ToInt32(s, 16)`: a `+` sign is skipped while
    `sign` allows one, then a `0x` or `0X` prefix, then the digits are read.
  */
  function HexScan(s: string, sign: bool): Option<int>
    decreases |s|
  {
    if sign && |s| > 0 && s[0] == '+' then HexScan(s[1..], false)
    else if |s| >= 2 && s[0] == '0' && (s[1] == 'x' || s[1] == 'X') then ReadHex(s[2..])
    else ReadHex(s)
  }

  /** `Convert.ToInt32(s, 16)` on a non-null string: an optional `+`, an optional `0x`, then the digits. */
  function ParseHex(s: string): (r: Option<int>)
    ensures AllHex(s) ==> r == ReadHex(s)
  {
    HexScan(s, true)
  }

  /**
    The sign and the prefix: `+d`, `0xd` and `0Xd` are read as the digits
    `d` (only one `+` is skipped), and a `-` sign is refused.
  */
  lemma {:induction false} SignAndPrefixRead(d: string)
    ensures |d| == 0 || d[0] != '+' ==> ParseHex("+" + d) == ParseHex(d)
    ensures |d| > 0 && d[0] == '+' ==> ParseHex("+" + d).None?
    ensures ParseHex("0x" + d) == ReadHex(d) && ParseHex("0X" + d) == ReadHex(d)
    ensures ParseHex("-" + d).None?
  {
    assert ("+" + d)[1..] == d;
    assert ParseHex("+" + d) == HexScan(d, false);
    if |d| == 0 || d[0] != '+' {
      assert HexScan(d, true) == HexScan(d, false);
    }
    if |d| > 0 && d[0] == '+' {
      assert !IsHexDigitChar(d[0]) && !AllHex(d);
      assert HexScan(d, false) == ReadHex(d);
    }
    assert ("0x" + d)[2..] == d && ("0X" + d)[2..] == d;
    var m := "-" + d;
    assert m[0] == '-' && !IsHexDigitChar(m[0]);
    assert !AllHex(m);
  }

  /** A leading `+` and a `0x` prefix are both skipped: `+1` and `0x1F` are read as 1 and 31. */
  lemma SignAndPrefixSkipped()
    ensures ParseHex("+1") == Some(1) && ParseHex("0x1F") == Some(31)
    ensures ParseHex("+") == None && ParseHex("0x") == None && ParseHex("-1") == None
  {
    assert "1F"[..1] == "1";
    assert HexNat("1F") == 31;
  }

  // ---------------------------------------------------------------------------
  // Decimal input: `Convert.ToInt32(s, 10)`, `int.Parse(s)` and `int.TryParse(s)`

  function DecNat(s: string): nat
    requires AllDigits(s)
  {
    if |s| == 0 then 0 else DecNat(s[..|s| - 1]) * 10 + (s[|s| - 1] as int - '0' as int)
  }

  /**
    `Convert.ToInt32(s, 10)`, `int.Parse(s)` and `int.TryParse(s)` on a
    token: an optional `+` or `-` sign and one or more decimal digits whose
    value is an `int`.
  */
  function ParseDec(s: string): (r: Option<int>)
    ensures r.Some? ==> Int32Min <= r.value <= Int32Max
    ensures |s| > 0 && AllDigits(s) ==> r == (if DecNat(s) <= Int32Max then Some(DecNat(s)) else None)
    ensures |s| > 1 && s[0] == '+' && AllDigits(s[1..]) ==>
              r == (if DecNat(s[1..]) <= Int32Max then Some(DecNat(s[1..])) else None)
    ensures |s| > 1 && s[0] == '-' && AllDigits(s[1..]) ==>
              r == (if DecNat(s[1..]) <= -Int32Min then Some(0 - DecNat(s[1..])) else None)
    ensures !(|s| > 0 && AllDigits(s)) && !(|s| > 1 && s[0] in "+-" && AllDigits(s[1..])) ==> r == None
  {
    if |s| > 0 && s[0] == '-' then
      var d := s[1..];
      if |d| == 0 || !AllDigits(d) || DecNat(d) > -Int32Min then None
      else Some(0 - DecNat(d) as int)
    else
      var d := if |s| > 0 && s[0] == '+' then s[1..] else s;
      if |d| == 0 || !AllDigits(d) || DecNat(d) > Int32Max then None
      else Some(DecNat(d))
  }

  function DecDigit(d: nat): char
    requires d < 10
  {
    ('0' as int + d) as char
  }

  /** `n.ToString()` for a natural number. */
  function DecString(n: nat): string {
    if n < 10 then [DecDigit(n)] else DecString(n / 10) + [DecDigit(n % 10)]
  }

  // ---------------------------------------------------------------------------
  // Properties of the formats

  lemma {:induction false} HexStringRoundTrip(n: nat)
    ensures AllHex(HexString(n)) && HexNat(HexString(n)) == n
  {
    if n >= 16 {
      HexStringRoundTrip(n / 16);
      var h := HexString(n);
      assert h[..|h| - 1] == HexString(n / 16);
    }
  }

  lemma {:induction false} HexStringLength(n: nat, width: nat)
    requires width >= 1 && n < Pow16(width)
    ensures |HexString(n)| <= width
  {
    if n >= 16 {
      HexStringLength(n / 16, width - 1);
    }
  }

  lemma {:induction false} ZerosPrefix(k: nat, s: string)
    requires AllHex(s)
    ensures AllHex(Zeros(k) + s) && HexNat(Zeros(k) + s) == HexNat(s)
  {
    var t := Zeros(k) + s;
    if |s| == 0 {
      assert t == Zeros(k);
      if k > 0 {
        assert t[..|t| - 1] == Zeros(k - 1) + s;
        ZerosPrefix(k - 1, s);
      }
    } else {
      assert t[..|t| - 1] == Zeros(k) + s[..|s| - 1];
      ZerosPrefix(k, s[..|s| - 1]);
    }
  }

  /** What `{n:Xw}` prints, the hexadecimal parser reads back. */
  lemma PadHexRoundTrip(n: nat, width: nat)
    requires n <= Int32Max
    ensures ParseHex(PadHex(n, width)) == Some(n)
  {
    HexStringRoundTrip(n);
    var h := HexString(n);
    if |h| < width {
      ZerosPrefix(width - |h|, h);
    }
  }

  /** `{n:Xw}` has exactly w digits when n fits in w digits. */
  lemma PadHexWidth(n: nat, width: nat)
    requires width >= 1 && n < Pow16(width)
    ensures |PadHex(n, width)| == width
    ensures AllHex(PadHex(n, width))
  {
    HexStringLength(n, width);
    HexStringRoundTrip(n);
    if |HexString(n)| < width {
      ZerosPrefix(width - |HexString(n)|, HexString(n));
    }
  }

  /**
    A negative `int` prints as its 32-bit two's complement: eight digits, at
    any width up to eight, which the hexadecimal parser reads back as the
    negative value.
  */
  lemma FormatHexNegative(v: int, width: nat)
    requires Int32Min <= v < 0 && width <= 8
    ensures |FormatHex(v, width)| == 8
    ensures ParseHex(FormatHex(v, width)) == Some(v)
  {
    var n := v % Two32;
    assert n == v + Two32;
    assert Pow16(7) == 0x1000_0000 && Pow16(8) == Two32 by {
      assert Pow16(2) == 256;
      assert Pow16(4) == 65536;
    }
    HexStringLength(n, 8);
    HexStringLonger(n, 7);
    HexStringRoundTrip(n);
    assert FormatHex(v, width) == HexString(n);
  }

  lemma {:induction false} DecStringRoundTrip(n: nat)
    ensures |DecString(n)| > 0 && AllDigits(DecString(n)) && DecNat(DecString(n)) == n
  {
    if n >= 10 {
      DecStringRoundTrip(n / 10);
      var d := DecString(n);
      assert d[..|d| - 1] == DecString(n / 10);
    }
  }

  /** `int.Parse(n.ToString())` gives back `n`. */
  lemma DecimalRoundTrip(n: nat)
    requires n <= Int32Max
    ensures ParseDec(DecString(n)) == Some(n)
  {
    DecStringRoundTrip(n);
  }

  /** Upper-case digits only: the formats are unchanged by `ToUpper`. */
  lemma {:induction false} HexStringUpper(n: nat)
    ensures forall i | 0 <= i < |HexString(n)| :: IsDigitChar(HexString(n)[i]) || 'A' <= HexString(n)[i] <= 'F'
  {
    if n >= 16 {
      HexStringUpper(n / 16);
    }
  }

  lemma PadHexUpper(n: nat, width: nat)
    ensures Upper(PadHex(n, width)) == PadHex(n, width)
  {
    HexStringUpper(n);
    var p := PadHex(n, width);
    assert forall i | 0 <= i < |p| :: IsDigitChar(p[i]) || 'A' <= p[i] <= 'F';
    UpperOfUpper(p);
  }

  /** `X2` is a minimum width: a value of 16^k or more takes more than k digits. */
  lemma {:induction false} HexStringLonger(n: nat, k: nat)
    requires n >= Pow16(k)
    ensures |HexString(n)| > k
  {
    if k > 0 {
      HexStringLonger(n / 16, k - 1);
    }
  }
}
