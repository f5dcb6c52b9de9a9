/**
 * The small subset of Python's `str` behaviour the modelled code relies on:
 * character classes, `strip`, `lower`, `in`, `split`, `join`, `str(n)`,
 * zero-padded formatting, and the `int()` / `float()` conversions of
 * decimal text. Character classes cover ASCII (and the Latin-1 spaces for
 * `strip`); the wider Unicode tables are not modelled.
 */
module Text {
  import opened Base

  // ---------------------------------------------------------------------------
  // Character classes

  /** `c.isspace()` for the characters `str.strip()` removes in ASCII/Latin-1. */
  predicate IsSpace(c: char)
  {
    c == ' ' || c == '\t' || c == '\n' || c == '\r'
    || c as int == 0x0b || c as int == 0x0c
    || (0x1c <= c as int <= 0x1f) || c as int == 0x85 || c as int == 0xa0
  }

  /** `c.isdigit()` restricted to ASCII digits. */
  predicate IsDigit(c: char)
  {
    '0' <= c <= '9'
  }

  /** `c.isupper()` restricted to ASCII letters. */
  predicate IsUpper(c: char)
  {
    'A' <= c <= 'Z'
  }

  /** ASCII `c.lower()`. */
  function LowerChar(c: char): char
  {
    if 'A' <= c <= 'Z' then (c as int + 32) as char else c
  }

  /** ASCII `s.lower()`. */
  function Lower(s: string): (r: string)
    ensures |r| == |s|
    ensures forall i :: 0 <= i < |s| ==> r[i] == LowerChar(s[i])
  {
    if s == [] then [] else [LowerChar(s[0])] + Lower(s[1..])
  }

  lemma {:induction false} LowerIdempotent(s: string)
    ensures Lower(Lower(s)) == Lower(s)
  {
    if s != [] {
      LowerIdempotent(s[1..]);
    }
  }

  // ---------------------------------------------------------------------------
  // strip

  function LStrip(s: string): string
  {
    if s != [] && IsSpace(s[0]) then LStrip(s[1..]) else s
  }

  function RStrip(s: string): string
  {
    if s != [] && IsSpace(s[|s| - 1]) then RStrip(s[..|s| - 1]) else s
  }

  /** `lstrip` keeps a suffix that does not start with whitespace. */
  lemma {:induction false} LStripSuffix(s: string)
    ensures |LStrip(s)| <= |s| && LStrip(s) == s[|s| - |LStrip(s)|..]
    ensures LStrip(s) == [] || !IsSpace(LStrip(s)[0])
    decreases |s|
  {
    if s != [] && IsSpace(s[0]) {
      LStripSuffix(s[1..]);
      assert s[1..][|s| - 1 - |LStrip(s)|..] == s[|s| - |LStrip(s)|..];
    }
  }

  /** `rstrip` keeps a prefix that does not end with whitespace. */
  lemma {:induction false} RStripPrefix(s: string)
    ensures |RStrip(s)| <= |s| && RStrip(s) == s[..|RStrip(s)|]
    ensures RStrip(s) == [] || !IsSpace(RStrip(s)[|RStrip(s)| - 1])
    decreases |s|
  {
    if s != [] && IsSpace(s[|s| - 1]) {
      RStripPrefix(s[..|s| - 1]);
      assert s[..|s| - 1][..|RStrip(s)|] == s[..|RStrip(s)|];
    }
  }

  /** `s.strip()`: whitespace removed at both ends. */
  function Strip(s: string): string
  {
    RStrip(LStrip(s))
  }

  /** No whitespace at either end, so `strip` leaves the string alone. */
  predicate Trimmed(s: string)
  {
    s == [] || (!IsSpace(s[0]) && !IsSpace(s[|s| - 1]))
  }

  lemma StripTrimmed(s: string)
    requires Trimmed(s)
    ensures Strip(s) == s
  {
  }

  /** `s.strip()` is blank exactly when every character of `s` is whitespace. */
  lemma {:induction false} StripEmptyIffBlank(s: string)
    ensures Strip(s) == [] <==> forall i :: 0 <= i < |s| ==> IsSpace(s[i])
  {
    if s != [] && IsSpace(s[0]) {
      StripEmptyIffBlank(s[1..]);
      assert forall i :: 1 <= i < |s| ==> s[i] == s[1..][i - 1];
    } else if s != [] {
      assert LStrip(s) == s;
      assert RStrip(s) != [] by {
        assert |RStrip(s)| >= 1 || RStrip(s) == [];
        if RStrip(s) == [] {
          RStripEmpty(s);
        }
      }
    }
  }

  lemma {:induction false} RStripEmpty(s: string)
    requires RStrip(s) == []
    ensures forall i :: 0 <= i < |s| ==> IsSpace(s[i])
  {
    if s != [] {
      assert IsSpace(s[|s| - 1]);
      RStripEmpty(s[..|s| - 1]);
      assert forall i :: 0 <= i < |s| - 1 ==> s[i] == s[..|s| - 1][i];
    }
  }

  // ---------------------------------------------------------------------------
  // Substrings: `sub in s`, `s.split(sep)`, `sep.join(parts)`

  /** `sub` occurs in `s` starting at position `i`. */
  predicate OccursAt(s: string, sub: string, i: int)
  {
    0 <= i && i + |sub| <= |s| && s[i..i + |sub|] == sub
  }

  /** `s.find(sub)`: the first position where `sub` occurs, if any. */
  function IndexOf(s: string, sub: string): (r: Option<nat>)
    ensures r.Some? ==> OccursAt(s, sub, r.value)
    ensures r.Some? ==> forall k :: 0 <= k < r.value ==> !OccursAt(s, sub, k)
    ensures r.None? ==> forall k :: !OccursAt(s, sub, k)
    decreases |s|
  {
    if |s| < |sub| then None
    else if s[..|sub|] == sub then Some(0)
    else
      match IndexOf(s[1..], sub)
      case None =>
        assert forall k :: OccursAt(s, sub, k) && k >= 1 ==> OccursAt(s[1..], sub, k - 1) by {
          forall k | OccursAt(s, sub, k) && k >= 1 ensures OccursAt(s[1..], sub, k - 1) {
            assert s[1..][k - 1..k - 1 + |sub|] == s[k..k + |sub|];
          }
        }
        None
      case Some(i) =>
        assert s[1..][i..i + |sub|] == s[i + 1..i + 1 + |sub|];
        assert forall k :: 1 <= k < i + 1 && OccursAt(s, sub, k) ==> OccursAt(s[1..], sub, k - 1) by {
          forall k | 1 <= k < i + 1 && OccursAt(s, sub, k) ensures OccursAt(s[1..], sub, k - 1) {
            assert s[1..][k - 1..k - 1 + |sub|] == s[k..k + |sub|];
          }
        }
        Some(i + 1)
  }

  /** Python's `sub in s`. */
  predicate Contains(s: string, sub: string)
  {
    IndexOf(s, sub).Some?
  }

  lemma ContainsIff(s: string, sub: string)
    ensures Contains(s, sub) <==> exists k :: OccursAt(s, sub, k)
  {
  }

  /** `s.find(c)` for a single character: its first position, if any. */
  function FindChar(s: string, c: char): (r: Option<nat>)
    ensures r.None? <==> c !in s
    ensures r.Some? ==> r.value < |s| && s[r.value] == c && c !in s[..r.value]
  {
    if s == [] then None
    else if s[0] == c then Some(0)
    else
      match FindChar(s[1..], c)
      case None => None
      case Some(i) =>
        assert s[..i + 1] == [s[0]] + s[1..][..i];
        Some(i + 1)
  }

  /** The first `c` of `a + [c] + b` is the one after `a` when `a` holds none. */
  lemma {:induction false} FindCharAfter(a: string, c: char, b: string)
    requires c !in a
    ensures FindChar(a + [c] + b, c) == Some(|a|)
    decreases |a|
  {
    var s := a + [c] + b;
    if a != [] {
      assert s[0] == a[0] && a[0] in a;
      assert s[1..] == a[1..] + [c] + b;
      assert c !in a[1..] by {
        forall j | 0 <= j < |a[1..]| ensures a[1..][j] != c {
          assert a[1..][j] == a[j + 1];
        }
      }
      FindCharAfter(a[1..], c, b);
    }
  }

  /** `strip` only removes characters. */
  lemma StripNoNewChars(s: string, c: char)
    requires c !in s
    ensures c !in Strip(s)
  {
    var l := LStrip(s);
    LStripSuffix(s);
    RStripPrefix(l);
    assert forall k :: 0 <= k < |l| ==> l[k] == s[|s| - |l| + k];
    assert forall k :: 0 <= k < |RStrip(l)| ==> RStrip(l)[k] == l[k];
  }

  /** `strip` ignores one extra leading space. */
  lemma StripSpaceBefore(t: string)
    ensures Strip(" " + t) == Strip(t)
  {
    assert (" " + t)[1..] == t;
  }

  /** `s.replace(a, b)` leaves a string without `a` alone. */
  lemma ReplaceCharAbsent(s: string, a: char, b: char)
    requires a !in s
    ensures ReplaceChar(s, a, b) == s
  {
  }

  /** Python's `s.split(sep)` for a non-empty separator. */
  function SplitOn(s: string, sep: string): (parts: seq<string>)
    requires sep != []
    ensures |parts| >= 1
    decreases |s|
  {
    match IndexOf(s, sep)
    case None => [s]
    case Some(i) => [s[..i]] + SplitOn(s[i + |sep|..], sep)
  }

  /** Python's `sep.join(parts)`. */
  function Join(parts: seq<string>, sep: string): string
  {
    if parts == [] then []
    else if |parts| == 1 then parts[0]
    else parts[0] + sep + Join(parts[1..], sep)
  }

  /** Joining one more part appends the separator and the part. */
  lemma {:induction false} JoinSnoc(parts: seq<string>, sep: string, p: string)
    requires parts != []
    ensures Join(parts + [p], sep) == Join(parts, sep) + sep + p
    decreases |parts|
  {
    if |parts| > 1 {
      assert (parts + [p])[1..] == parts[1..] + [p];
      JoinSnoc(parts[1..], sep, p);
    }
  }

  /** Splitting and re-joining on the same separator gives the string back. */
  lemma {:induction false} JoinSplit(s: string, sep: string)
    requires sep != []
    ensures Join(SplitOn(s, sep), sep) == s
    decreases |s|
  {
    match IndexOf(s, sep)
    case None =>
    case Some(i) =>
      var rest := SplitOn(s[i + |sep|..], sep);
      assert SplitOn(s, sep) == [s[..i]] + rest;
      JoinSplit(s[i + |sep|..], sep);
      assert ([s[..i]] + rest)[1..] == rest;
      assert s == s[..i] + sep + s[i + |sep|..];
  }

  /** No occurrence of `sub` starts before position `k` in `s`. */
  predicate NoOccurrenceBefore(s: string, sub: string, k: int)
  {
    forall i :: 0 <= i < k ==> !OccursAt(s, sub, i)
  }

  lemma IndexOfAt(s: string, sub: string, k: nat)
    requires OccursAt(s, sub, k) && NoOccurrenceBefore(s, sub, k)
    ensures IndexOf(s, sub) == Some(k)
  {
  }

  /** If the first character of `sep` never occurs in `a`, the first occurrence
      of `sep` in `a + sep + b` is the one right after `a`. */
  lemma IndexOfAfterPrefix(a: string, sep: string, b: string)
    requires sep != [] && sep[0] !in a
    ensures IndexOf(a + sep + b, sep) == Some(|a|)
  {
    var s := a + sep + b;
    assert s[|a|..|a| + |sep|] == sep;
    forall i | 0 <= i < |a| ensures !OccursAt(s, sep, i) {
      assert s[i] == a[i] != sep[0];
      if i + |sep| <= |s| {
        assert s[i..i + |sep|][0] == s[i];
      }
    }
    IndexOfAt(s, sep, |a|);
  }

  /** `(a + sep + b).split(sep)` when `sep` cannot start inside `a`. */
  lemma SplitAfterPrefix(a: string, sep: string, b: string)
    requires sep != [] && sep[0] !in a
    ensures SplitOn(a + sep + b, sep) == [a] + SplitOn(b, sep)
  {
    var s := a + sep + b;
    IndexOfAfterPrefix(a, sep, b);
    assert s[..|a|] == a;
    assert s[|a| + |sep|..] == b;
  }

  /** A string in which the first character of `sep` never occurs splits to itself. */
  lemma SplitNone(s: string, sep: string)
    requires sep != [] && sep[0] !in s
    ensures SplitOn(s, sep) == [s]
  {
    forall k | 0 <= k && k + |sep| <= |s| ensures !OccursAt(s, sep, k) {
      assert s[k] in s;
      assert s[k..k + |sep|][0] == s[k];
    }
  }

  /** `s.replace(a, b)` for single characters. */
  function ReplaceChar(s: string, a: char, b: char): (r: string)
    ensures |r| == |s|
    ensures forall i :: 0 <= i < |s| ==> r[i] == (if s[i] == a then b else s[i])
  {
    if s == [] then [] else [if s[0] == a then b else s[0]] + ReplaceChar(s[1..], a, b)
  }

  // ---------------------------------------------------------------------------
  // Decimal digits

  /** `s.replace(pat, with)` for a non-empty `pat`: every occurrence, taken
      from the left without overlaps, is replaced. */
  function Replace(s: string, pat: string, with: string): string
    requires pat != []
    decreases |s|
  {
    if |s| < |pat| then s
    else if s[..|pat|] == pat then with + Replace(s[|pat|..], pat, with)
    else [s[0]] + Replace(s[1..], pat, with)
  }

  function DigitChar(d: nat): char
    requires d < 10
  {
    ('0' as int + d) as char
  }

  function DigitValue(c: char): nat
    requires IsDigit(c)
  {
    c as int - '0' as int
  }

  predicate AllDigits(s: string)
  {
    forall i :: 0 <= i < |s| ==> IsDigit(s[i])
  }

  /** The value of a string of decimal digits (leading zeros allowed). */
  function DigitsValue(s: string): nat
    requires AllDigits(s)
  {
    if s == [] then 0 else DigitsValue(s[..|s| - 1]) * 10 + DigitValue(s[|s| - 1])
  }

  /** `str(n)` for a natural number. */
  function NatToString(n: nat): (s: string)
    ensures |s| >= 1 && AllDigits(s)
  {
    if n < 10 then [DigitChar(n)] else NatToString(n / 10) + [DigitChar(n % 10)]
  }

  lemma {:induction false} NatToStringValue(n: nat)
    ensures DigitsValue(NatToString(n)) == n
  {
    if n >= 10 {
      var s := NatToString(n);
      assert s[..|s| - 1] == NatToString(n / 10);
      NatToStringValue(n / 10);
    }
  }

  /** Distinct numbers print differently, so `f"face_{n}"` ids are never reused. */
  lemma NatToStringInjective(a: nat, b: nat)
    requires NatToString(a) == NatToString(b)
    ensures a == b
  {
    NatToStringValue(a);
    NatToStringValue(b);
  }

  function Zeros(k: nat): (s: string)
    ensures |s| == k && AllDigits(s)
    ensures forall i :: 0 <= i < k ==> s[i] == '0'
  {
    if k == 0 then [] else Zeros(k - 1) + ['0']
  }

  /** `f"{n:0{width}d}"` for a natural number. */
  function ZeroPad(n: nat, width: nat): (s: string)
    ensures AllDigits(s) && |s| >= width && |s| >= 1
  {
    var d := NatToString(n);
    if |d| >= width then d else Zeros(width - |d|) + d
  }

  /** `f"{n:0{width}d}"` for any integer: the sign comes before the zero padding. */
  function PadInt(n: int, width: nat): string
  {
    if n < 0 then "-" + ZeroPad(-n, if width == 0 then 0 else width - 1) else ZeroPad(n, width)
  }

  lemma {:induction false} ZerosPrefixValue(k: nat, s: string)
    requires AllDigits(s)
    ensures AllDigits(Zeros(k) + s) && DigitsValue(Zeros(k) + s) == DigitsValue(s)
    decreases |s|, k
  {
    var z := Zeros(k) + s;
    if s == [] {
      if k > 0 {
        assert z == Zeros(k - 1) + ['0'];
        assert z[..|z| - 1] == Zeros(k - 1) + [];
        ZerosPrefixValue(k - 1, []);
      }
    } else {
      var p := s[..|s| - 1];
      assert z[..|z| - 1] == Zeros(k) + p;
      ZerosPrefixValue(k, p);
    }
  }

  lemma ZeroPadValue(n: nat, width: nat)
    ensures DigitsValue(ZeroPad(n, width)) == n
  {
    NatToStringValue(n);
    var d := NatToString(n);
    if |d| < width {
      ZerosPrefixValue(width - |d|, d);
    }
  }

  function Pow10(k: nat): (p: nat)
    ensures p >= 1
  {
    if k == 0 then 1 else 10 * Pow10(k - 1)
  }

  // ---------------------------------------------------------------------------
  // int() and float() of decimal text

  /** Splits an optional leading sign off `s`: (negative?, rest). */
  function SignOf(s: string): (bool, string)
  {
    if s != [] && (s[0] == '-' || s[0] == '+') then (s[0] == '-', s[1..]) else (false, s)
  }

  /** Python's `int(s)` for base-10 text: surrounding whitespace, an optional
      sign, then one or more digits; anything else raises ValueError. */
  function ParseInt(s: string): (r: Result<int>)
  {
    var (neg, body) := SignOf(Strip(s));
    if body == [] || !AllDigits(body) then Err(ValueError)
    else
      var v: int := DigitsValue(body);
      Ok(if neg then -v else v)
  }

  /** The value of unsigned decimal text: digits with at most one '.', and at
      least one digit on either side of it. */
  function ParseDecimal(body: string): (r: Result<real>)
  {
    match FindChar(body, '.')
    case None =>
      if body == [] || !AllDigits(body) then Err(ValueError)
      else Ok(DigitsValue(body) as real)
    case Some(p) => PointParts(body[..p], body[p + 1..])
  }

  /** The value of the digits `ip` before and `fp` after a decimal point. */
  function PointParts(ip: string, fp: string): (r: Result<real>)
  {
    if |ip| + |fp| == 0 || !AllDigits(ip) || !AllDigits(fp) then Err(ValueError)
    else Ok(DigitsValue(ip) as real + FractionValue(fp))
  }

  /** The value of the digits after a decimal point: 0.d1d2... */
  function FractionValue(fp: string): (v: real)
    requires AllDigits(fp)
    ensures 0.0 <= v <= 1.0
  {
    if fp == [] then 0.0 else (DigitValue(fp[0]) as real + FractionValue(fp[1..])) / 10.0
  }

  /** Python's `float(s)` for plain decimal text: surrounding whitespace, an
      optional sign, then unsigned decimal text. */
  function ParseFloat(s: string): (r: Result<real>)
  {
    var (neg, body) := SignOf(Strip(s));
    match ParseDecimal(body)
    case Err(e) => Err(e)
    case Ok(v) => Ok(if neg then -v else v)
  }

  lemma AllDigitsNoSpace(s: string)
    requires AllDigits(s)
    ensures Trimmed(s)
  {
  }

  /** `int()` reads back a zero-padded number. */
  lemma ParseIntZeroPad(n: nat, width: nat)
    ensures ParseInt(ZeroPad(n, width)) == Ok(n)
  {
    var d := ZeroPad(n, width);
    ZeroPadValue(n, width);
    ParseIntDigits(d);
  }

  /** `int()` of a non-empty digit string is its value. */
  lemma ParseIntDigits(d: string)
    requires AllDigits(d) && d != []
    ensures ParseInt(d) == Ok(DigitsValue(d))
  {
    assert IsDigit(d[0]) && IsDigit(d[|d| - 1]);
    StripTrimmed(d);
  }

  lemma DecimalTextTrimmed(ip: string, fp: string)
    requires AllDigits(ip) && AllDigits(fp) && |ip| >= 1
    ensures Strip(ip + "." + fp) == ip + "." + fp
    ensures SignOf(ip + "." + fp) == (false, ip + "." + fp)
  {
    var s := ip + "." + fp;
    assert s[0] == ip[0];
    assert s[|s| - 1] == '.' || s[|s| - 1] == fp[|fp| - 1];
    StripTrimmed(s);
  }

  lemma ParseDecimalParts(ip: string, fp: string)
    requires AllDigits(ip) && AllDigits(fp) && |ip| >= 1
    ensures ParseDecimal(ip + "." + fp)
            == Ok(DigitsValue(ip) as real + FractionValue(fp))
  {
    DecimalPoint(ip, fp);
    PointPartsDigits(ip, fp);
  }

  lemma PointPartsDigits(ip: string, fp: string)
    requires AllDigits(ip) && AllDigits(fp) && |ip| >= 1
    ensures PointParts(ip, fp) == Ok(DigitsValue(ip) as real + FractionValue(fp))
  {
  }

  /** Text with one '.' after a digit string splits at that point. */
  lemma DecimalPoint(ip: string, fp: string)
    requires AllDigits(ip)
    ensures ParseDecimal(ip + "." + fp) == PointParts(ip, fp)
  {
    var s := ip + "." + fp;
    assert '.' !in ip by {
      forall i | 0 <= i < |ip| ensures ip[i] != '.' {
        assert IsDigit(ip[i]);
      }
    }
    FindCharAfter(ip, '.', fp);
    assert s[..|ip|] == ip && s[|ip| + 1..] == fp;
  }

  /** `float()` reads back "`ip`.`fp`" printed from two digit strings. */
  lemma ParseFloatDecimal(ip: string, fp: string)
    requires AllDigits(ip) && AllDigits(fp) && |ip| >= 1
    ensures ParseFloat(ip + "." + fp)
            == Ok(DigitsValue(ip) as real + FractionValue(fp))
  {
    DecimalTextTrimmed(ip, fp);
    ParseDecimalParts(ip, fp);
  }

  // ---------------------------------------------------------------------------
  // Ordering

  /** Python's `a < b` on strings: lexicographic by code point, a proper
      prefix coming first. */
  predicate LexLess(a: string, b: string)
  {
    b != [] && (a == [] || a[0] < b[0] || (a[0] == b[0] && LexLess(a[1..], b[1..])))
  }

  lemma {:induction false} LexIrreflexive(a: string)
    ensures !LexLess(a, a)
  {
    if a != [] {
      LexIrreflexive(a[1..]);
    }
  }

  lemma {:induction false} LexTransitive(a: string, b: string, c: string)
    requires LexLess(a, b) && LexLess(b, c)
    ensures LexLess(a, c)
  {
    if a != [] && a[0] == b[0] && b[0] == c[0] {
      LexTransitive(a[1..], b[1..], c[1..]);
    }
  }

  lemma {:induction false} LexTotal(a: string, b: string)
    requires a != b
    ensures LexLess(a, b) || LexLess(b, a)
  {
    if a != [] && b != [] && a[0] == b[0] {
      assert a == [a[0]] + a[1..] && b == [b[0]] + b[1..];
      LexTotal(a[1..], b[1..]);
    }
  }

  /** Strictly ascending, as `sorted` leaves the members of a set. */
  predicate LexSorted(s: seq<string>)
  {
    forall i, j :: 0 <= i < j < |s| ==> LexLess(s[i], s[j])
  }
}
