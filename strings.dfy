/** The handful of Python string operations the training code relies on:
    `startswith`, `endswith`, `split(c)[-1]`, `os.path.splitext`, decimal
    formatting with `str`/`format` and decimal parsing with `int`. */
module Strings {
  import opened Wrappers

  predicate StartsWith(s: string, prefix: string) {
    |prefix| <= |s| && s[..|prefix|] == prefix
  }

  predicate EndsWith(s: string, suffix: string) {
    |suffix| <= |s| && s[|s| - |suffix|..] == suffix
  }

  /** Python's `s.split(c)[-1]`: the text after the last occurrence of `c`,
      or all of `s` when `c` does not occur. */
  function AfterLast(s: string, c: char): (r: string)
    ensures c !in r
    ensures EndsWith(s, r)
    ensures c !in s ==> r == s
    ensures |r| < |s| ==> s[|s| - |r| - 1] == c
  {
    match LastIndexOf(s, c)
    case None => s
    case Some(i) => s[i + 1..]
  }

  /** The position of the last occurrence of `c` in `s`, if any. */
  function LastIndexOf(s: string, c: char): (r: Option<nat>)
    ensures r.None? <==> c !in s
    ensures r.Some? ==> r.value < |s| && s[r.value] == c && c !in s[r.value + 1..]
  {
    if s == [] then None
    else if s[|s| - 1] == c then Some(|s| - 1)
    else
      var r := LastIndexOf(s[..|s| - 1], c);
      assert r.Some? ==> s[r.value + 1..] == s[..|s| - 1][r.value + 1..] + [s[|s| - 1]];
      r
  }

  /** The root part of `os.path.splitext(name)` for a bare file name (one
      without a directory separator): everything before the last dot, unless
      that dot is preceded only by dots, in which case there is no extension. */
  function SplitExtRoot(name: string): (r: string)
    ensures StartsWith(name, r)
    ensures '.' !in name ==> r == name
    ensures |r| < |name| ==> name[|r|] == '.' && '.' !in name[|r| + 1..] && exists i :: 0 <= i < |r| && name[i] != '.'
  {
    match LastIndexOf(name, '.')
    case None => name
    case Some(d) =>
      if exists i :: 0 <= i < d && name[i] != '.' then name[..d] else name
  }

  /** The extension after the last dot is stripped when something other
      than a dot precedes that dot. */
  lemma ExtensionStripped(stem: string, ext: string)
    requires '.' !in ext
    requires exists i :: 0 <= i < |stem| && stem[i] != '.'
    ensures SplitExtRoot(stem + "." + ext) == stem
  {
    var name := stem + "." + ext;
    assert name[|stem|] == '.';
    assert name[|stem| + 1..] == ext;
    var d := LastIndexOf(name, '.');
    assert d.Some?;
    assert d.value == |stem|;
    assert name[..|stem|] == stem;
    var i :| 0 <= i < |stem| && stem[i] != '.';
    assert name[i] != '.';
  }

  predicate IsDigit(c: char) {
    '0' <= c <= '9'
  }

  predicate AllDigits(s: string) {
    forall i :: 0 <= i < |s| ==> IsDigit(s[i])
  }

  function DigitValue(c: char): (d: nat)
    requires IsDigit(c)
    ensures d < 10
  {
    c as int - '0' as int
  }

  function DigitChar(d: nat): (c: char)
    requires d < 10
    ensures IsDigit(c) && DigitValue(c) == d
  {
    ('0' as int + d) as char
  }

  /** Python's `str(n)` for a non-negative integer. */
  function NatToDecimal(n: nat): (r: string)
    ensures |r| >= 1 && AllDigits(r)
    decreases n
  {
    if n < 10 then [DigitChar(n)]
    else NatToDecimal(n / 10) + [DigitChar(n % 10)]
  }

  /** The number a string of decimal digits denotes, leading zeros allowed. */
  function DecimalValue(s: string): nat
    requires AllDigits(s)
  {
    if s == [] then 0
    else DecimalValue(s[..|s| - 1]) * 10 + DigitValue(s[|s| - 1])
  }

  /** Python's `int(s)` restricted to plain ASCII decimal digits: `None`
      stands for the `ValueError` it raises on anything else. */
  function ParseDecimal(s: string): (r: Option<nat>)
    ensures r.Some? <==> s != [] && AllDigits(s)
  {
    if s != [] && AllDigits(s) then Some(DecimalValue(s)) else None
  }

  /** Python's `f"{s:0>w}"`: right-align `s` in a field of width `w`,
      filling on the left with '0'. */
  function ZeroPad(s: string, width: nat): (r: string)
    ensures |r| == if |s| >= width then |s| else width
    ensures EndsWith(r, s)
    ensures forall i :: 0 <= i < |r| - |s| ==> r[i] == '0'
  {
    if |s| >= width then s else seq(width - |s|, _ => '0') + s
  }

  lemma {:induction false} DecimalOfNatToDecimal(n: nat)
    ensures DecimalValue(NatToDecimal(n)) == n
    decreases n
  {
    if n >= 10 {
      var s := NatToDecimal(n / 10) + [DigitChar(n % 10)];
      assert s[..|s| - 1] == NatToDecimal(n / 10);
      DecimalOfNatToDecimal(n / 10);
    }
  }

  lemma {:induction false} ZerosHaveNoValue(z: string)
    requires forall i :: 0 <= i < |z| ==> z[i] == '0'
    ensures AllDigits(z) && DecimalValue(z) == 0
  {
    if z != [] {
      ZerosHaveNoValue(z[..|z| - 1]);
    }
  }

  lemma {:induction false} LeadingZerosKeepValue(z: string, s: string)
    requires forall i :: 0 <= i < |z| ==> z[i] == '0'
    requires AllDigits(s)
    ensures AllDigits(z + s) && DecimalValue(z + s) == DecimalValue(s)
  {
    if s == [] {
      assert z + s == z;
      ZerosHaveNoValue(z);
    } else {
      var t := z + s;
      assert t[..|t| - 1] == z + s[..|s| - 1];
      LeadingZerosKeepValue(z, s[..|s| - 1]);
    }
  }

  /** Formatting a number zero-padded to any width and parsing it back with
      `int` gives the number again. */
  lemma PaddedDecimalRoundTrip(n: nat, width: nat)
    ensures ParseDecimal(ZeroPad(NatToDecimal(n), width)) == Some(n)
  {
    var s := NatToDecimal(n);
    var p := ZeroPad(s, width);
    DecimalOfNatToDecimal(n);
    if |s| < width {
      LeadingZerosKeepValue(seq(width - |s|, _ => '0'), s);
    }
  }
  /** When `a` ends with `c` and `b` holds no `c`, `(a + b).split(c)[-1]` is `b`. */
  lemma {:induction false} AfterLastOfJoin(a: string, b: string, c: char)
    requires a != [] && a[|a| - 1] == c
    requires c !in b
    ensures AfterLast(a + b, c) == b
  {
    if b == [] {
      assert a + b == a;
    } else {
      var t := a + b;
      assert t[..|t| - 1] == a + b[..|b| - 1];
      AfterLastOfJoin(a, b[..|b| - 1], c);
      assert b == b[..|b| - 1] + [b[|b| - 1]];
    }
  }
}
