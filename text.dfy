/** The java.lang.String and java.lang.Integer behaviour the services rely on:
    trim, blank tests, prefix and substring tests, the line terminators of
    java.util.regex, split on a space, decimal printing and parsing, and
    32-bit wrap-around. Strings are sequences of characters; Java counts
    UTF-16 units, which agrees with this for every character of the Basic
    Multilingual Plane. */
module Text {
  import opened Wrappers

  // ---------------------------------------------------------------------
  // trim and blank tests
  // ---------------------------------------------------------------------

  /** String.trim() removes every leading and trailing character whose code
      is at most U+0020. */
  predicate IsTrimmed(c: char)
  {
    c <= ' '
  }

  function TrimStart(s: string): (r: string)
    ensures |r| <= |s| && r == s[|s| - |r|..]
    ensures forall i :: 0 <= i < |s| - |r| ==> IsTrimmed(s[i])
    ensures r == [] || !IsTrimmed(r[0])
  {
    if s != [] && IsTrimmed(s[0]) then TrimStart(s[1..]) else s
  }

  function TrimEnd(s: string): (r: string)
    ensures |r| <= |s| && r == s[..|r|]
    ensures forall i :: |r| <= i < |s| ==> IsTrimmed(s[i])
    ensures r == [] || !IsTrimmed(r[|r| - 1])
  {
    if s != [] && IsTrimmed(s[|s| - 1]) then TrimEnd(s[..|s| - 1]) else s
  }

  /** String.trim(). */
  function Trim(s: string): string
  {
    TrimEnd(TrimStart(s))
  }

  /** `s.trim().isEmpty()`. */
  predicate IsBlank(s: string)
  {
    Trim(s) == ""
  }

  /** `s == null || s.trim().isEmpty()`. */
  predicate IsNullOrBlank(s: Option<string>)
  {
    s.None? || IsBlank(s.value)
  }

  /** `s == null || s.isEmpty()`. */
  predicate IsNullOrEmpty(s: Option<string>)
  {
    s.None? || s.value == ""
  }

  /** A string is blank exactly when every one of its characters is one that
      trim removes. */
  lemma BlankIffAllTrimmed(s: string)
    ensures IsBlank(s) <==> forall i :: 0 <= i < |s| ==> IsTrimmed(s[i])
  {
    var t := TrimStart(s);
    assert t != [] ==> t[0] == s[|s| - |t|];
    assert t != [] ==> TrimEnd(t) != [] by {
      assert t != [] ==> !IsTrimmed(t[0]);
    }
  }

  /** Trimming never leaves a character that trim would remove at either end. */
  lemma TrimIsTrimmed(s: string)
    ensures var r := Trim(s); r == [] || (!IsTrimmed(r[0]) && !IsTrimmed(r[|r| - 1]))
  {
    var t := TrimStart(s);
    var r := TrimEnd(t);
    if r != [] {
      assert r[0] == t[0];
    }
  }

  /** Trimming a trimmed string changes nothing. */
  lemma TrimTwice(s: string)
    ensures Trim(Trim(s)) == Trim(s)
  {
    TrimIsTrimmed(s);
  }

  lemma {:induction false} TrimStartOfPadded(pad: string, s: string)
    requires forall i :: 0 <= i < |pad| ==> IsTrimmed(pad[i])
    requires s == [] || !IsTrimmed(s[0])
    ensures TrimStart(pad + s) == s
    decreases |pad|
  {
    if pad == [] {
      assert pad + s == s;
    } else {
      assert (pad + s)[1..] == pad[1..] + s;
      TrimStartOfPadded(pad[1..], s);
    }
  }

  lemma {:induction false} TrimEndOfPadded(s: string, pad: string)
    requires forall i :: 0 <= i < |pad| ==> IsTrimmed(pad[i])
    requires s == [] || !IsTrimmed(s[|s| - 1])
    ensures TrimEnd(s + pad) == s
    decreases |pad|
  {
    if pad == [] {
      assert s + pad == s;
    } else {
      assert (s + pad)[..|s + pad| - 1] == s + pad[..|pad| - 1];
      TrimEndOfPadded(s, pad[..|pad| - 1]);
    }
  }

  /** A string with no trimmable character at either end is its own trim. */
  lemma TrimOfUntrimmedEnds(s: string)
    requires s != [] && !IsTrimmed(s[0]) && !IsTrimmed(s[|s| - 1])
    ensures Trim(s) == s
  {
    assert TrimStart(s) == s;
  }

  /** Characters that trim removes, put around a trimmed string, are exactly
      what trim takes away again. */
  lemma TrimOfPadded(front: string, s: string, back: string)
    requires forall i :: 0 <= i < |front| ==> IsTrimmed(front[i])
    requires forall i :: 0 <= i < |back| ==> IsTrimmed(back[i])
    requires Trim(s) == s
    ensures Trim(front + s + back) == s
  {
    TrimIsTrimmed(s);
    if s == [] {
      BlankIffAllTrimmed(front + s + back);
    } else {
      assert front + s + back == front + (s + back);
      TrimStartOfPadded(front, s + back);
      TrimEndOfPadded(s, back);
    }
  }

  // ---------------------------------------------------------------------
  // prefix, suffix and substring tests
  // ---------------------------------------------------------------------

  predicate StartsWith(s: string, prefix: string)
  {
    |prefix| <= |s| && s[..|prefix|] == prefix
  }

  predicate EndsWith(s: string, suffix: string)
  {
    |suffix| <= |s| && s[|s| - |suffix|..] == suffix
  }

  /** `if (s.startsWith(p)) s = s.substring(p.length())`. */
  function DropPrefix(s: string, p: string): string
  {
    if StartsWith(s, p) then s[|p|..] else s
  }

  /** `if (s.endsWith(p)) s = s.substring(0, s.length() - p.length())`. */
  function DropSuffix(s: string, p: string): string
  {
    if EndsWith(s, p) then s[..|s| - |p|] else s
  }

  lemma DropPrefixOfConcat(p: string, t: string)
    ensures DropPrefix(p + t, p) == t
  {
    assert (p + t)[..|p|] == p;
  }

  lemma DropSuffixOfConcat(t: string, p: string)
    ensures DropSuffix(t + p, p) == t
  {
    assert (t + p)[|t|..] == p;
  }

  /** `sub` occurs in `s` starting at index `i`. */
  predicate OccursAt(s: string, sub: string, i: nat)
  {
    i + |sub| <= |s| && s[i..i + |sub|] == sub
  }

  /** String.contains. */
  predicate Contains(s: string, sub: string)
  {
    exists i: nat :: i <= |s| && OccursAt(s, sub, i)
  }

  /** Some keyword of the list occurs in `s`. */
  predicate ContainsAny(s: string, keywords: seq<string>)
  {
    exists k :: 0 <= k < |keywords| && Contains(s, keywords[k])
  }

  /** A string contains every part of itself. */
  lemma ContainsSlice(s: string, i: nat, j: nat)
    requires i <= j <= |s|
    ensures Contains(s, s[i..j])
  {
    assert OccursAt(s, s[i..j], i);
  }

  // ---------------------------------------------------------------------
  // java.util.regex line terminators and the ASCII classes
  // ---------------------------------------------------------------------

  /** The characters that `.` of java.util.regex does not match (no flags). */
  predicate IsLineTerminator(c: char)
  {
    c == '\n' || c == '\r' || c == '\U{0085}' || c == '\U{2028}' || c == '\U{2029}'
  }

  predicate HasNoLineTerminator(s: string)
  {
    forall i :: 0 <= i < |s| ==> !IsLineTerminator(s[i])
  }

  /** `\d` of java.util.regex without UNICODE_CHARACTER_CLASS: ASCII digits only. */
  predicate IsAsciiDigit(c: char)
  {
    '0' <= c <= '9'
  }

  /** `s.matches(".*(k1|k2|...).*")`: the pattern must cover all of `s`, so it
      holds when some keyword occurs and no character of `s` is a line
      terminator (no keyword holds one). */
  predicate MatchesAnyKeyword(s: string, keywords: seq<string>)
  {
    HasNoLineTerminator(s) && ContainsAny(s, keywords)
  }

  /** `s.matches("^\\d+.*")`: one or more ASCII digits, then anything up to the
      end that holds no line terminator. */
  predicate StartsWithDigits(s: string)
  {
    |s| > 0 && IsAsciiDigit(s[0]) && HasNoLineTerminator(s[1..])
  }

  /** The definition above is the regular expression read literally: some
      non-empty run of digits followed by a line-terminator-free rest. */
  lemma StartsWithDigitsIsRegex(s: string)
    ensures StartsWithDigits(s) <==>
      exists k :: 1 <= k <= |s| && (forall i :: 0 <= i < k ==> IsAsciiDigit(s[i]))
                                && HasNoLineTerminator(s[k..])
  {
    if StartsWithDigits(s) {
      assert forall i :: 0 <= i < 1 ==> IsAsciiDigit(s[i]);
      assert HasNoLineTerminator(s[1..]);
    }
    if exists k :: 1 <= k <= |s| && (forall i :: 0 <= i < k ==> IsAsciiDigit(s[i]))
                                 && HasNoLineTerminator(s[k..]) {
      var k :| 1 <= k <= |s| && (forall i :: 0 <= i < k ==> IsAsciiDigit(s[i]))
                             && HasNoLineTerminator(s[k..]);
      forall i | 1 <= i < |s| ensures !IsLineTerminator(s[i]) {
        if i >= k {
          assert s[k..][i - k] == s[i];
        }
      }
    }
  }

  /** String.toLowerCase() on ASCII letters; every other character is left as is. */
  function LowerChar(c: char): char
  {
    if 'A' <= c <= 'Z' then (c as int + 32) as char else c
  }

  function ToLower(s: string): (r: string)
    ensures |r| == |s|
    ensures forall i :: 0 <= i < |s| ==> r[i] == LowerChar(s[i])
  {
    seq(|s|, i requires 0 <= i < |s| => LowerChar(s[i]))
  }

  /** Lowering keeps line terminators where they are. */
  lemma LowerKeepsLineTerminators(s: string)
    ensures HasNoLineTerminator(ToLower(s)) <==> HasNoLineTerminator(s)
  {
    var r := ToLower(s);
    forall i | 0 <= i < |s|
      ensures IsLineTerminator(r[i]) <==> IsLineTerminator(s[i])
    {
    }
  }

  // ---------------------------------------------------------------------
  // split(" ")[0], truncation, join
  // ---------------------------------------------------------------------

  /** The characters of `s` before its first space (all of `s` if it has none). */
  function BeforeSpace(s: string): (r: string)
    ensures |r| <= |s| && r == s[..|r|]
    ensures forall i :: 0 <= i < |r| ==> r[i] != ' '
    ensures |r| == |s| || s[|r|] == ' '
  {
    if s == [] || s[0] == ' ' then [] else [s[0]] + BeforeSpace(s[1..])
  }

  predicate AllSpaces(s: string)
  {
    forall i :: 0 <= i < |s| ==> s[i] == ' '
  }

  /** `s.split(" ")[0]`. Splitting drops trailing empty pieces, so a non-empty
      string of spaces alone splits into no pieces at all and indexing the
      result throws (None); otherwise the first piece is what precedes the
      first space (the empty string when `s` starts with one). */
  function FirstToken(s: string): (r: Option<string>)
    ensures r.None? <==> |s| > 0 && AllSpaces(s)
    ensures r.Some? ==> StartsWith(s, r.value) && !Contains(r.value, " ")
    ensures r.Some? && |r.value| < |s| ==> s[|r.value|] == ' '
  {
    if |s| > 0 && AllSpaces(s) then None
    else
      var t := BeforeSpace(s);
      assert !Contains(t, " ") by {
        forall i: nat | i <= |t| ensures !OccursAt(t, " ", i) {
          if i + 1 <= |t| {
            assert t[i..i + 1] == [t[i]];
          }
        }
      }
      Some(t)
  }

  /** `s.substring(0, Math.min(n, s.length())) + "..."`. */
  function Abbreviate(s: string, n: nat): (r: string)
    ensures |r| == (if |s| < n then |s| else n) + 3
    ensures EndsWith(r, "...")
    ensures StartsWith(r, s[..if |s| < n then |s| else n])
  {
    s[..if |s| < n then |s| else n] + "..."
  }

  /** String.join(sep, parts). */
  function Join(parts: seq<string>, sep: string): (r: string)
    ensures parts == [] ==> r == ""
    ensures |parts| == 1 ==> r == parts[0]
    ensures |parts| >= 1 ==> StartsWith(r, parts[0])
  {
    if parts == [] then ""
    else if |parts| == 1 then parts[0]
    else parts[0] + sep + Join(parts[1..], sep)
  }

  // ---------------------------------------------------------------------
  // 32-bit integers, decimal printing and parsing
  // ---------------------------------------------------------------------

  const IntMin: int := -0x8000_0000
  const IntMax: int := 0x7fff_ffff

  predicate IsInt32(n: int)
  {
    IntMin <= n <= IntMax
  }

  /** Java `int` arithmetic: the result taken modulo 2^32 into [IntMin, IntMax]. */
  function Wrap32(n: int): (r: int)
    ensures IsInt32(r)
    ensures (r - n) % 0x1_0000_0000 == 0
    ensures IsInt32(n) ==> r == n
  {
    (n - IntMin) % 0x1_0000_0000 + IntMin
  }

  function DigitChar(d: nat): char
    requires d < 10
  {
    ('0' as int + d) as char
  }

  function DigitValue(c: char): nat
    requires IsAsciiDigit(c)
  {
    c as int - '0' as int
  }

  predicate AllDigits(s: string)
  {
    forall i :: 0 <= i < |s| ==> IsAsciiDigit(s[i])
  }

  /** The value of a string of decimal digits, most significant first. */
  function DigitsValue(s: string): nat
    requires AllDigits(s)
  {
    if s == [] then 0 else DigitsValue(s[..|s| - 1]) * 10 + DigitValue(s[|s| - 1])
  }

  /** The decimal digits of `n`, as Long.toString prints them. */
  function NatToString(n: nat): (r: string)
    ensures |r| > 0 && AllDigits(r)
    ensures DigitsValue(r) == n
  {
    if n < 10 then [DigitChar(n)]
    else
      var r := NatToString(n / 10) + [DigitChar(n % 10)];
      assert r[..|r| - 1] == NatToString(n / 10);
      r
  }

  /** Integer.toString / Long.toString. */
  function IntToString(n: int): string
  {
    if n < 0 then "-" + NatToString(-n) else NatToString(n)
  }

  /** The part of org.json's reading of a string as a number that is
      modelled: an optional '-' followed by one or more ASCII digits (no
      bound on the value). Decimal and exponent notation are not read. */
  function ParseSignedDigits(s: string): (r: Option<int>)
    ensures r.Some? ==> (if |s| > 0 && s[0] == '-' then r.value <= 0 else r.value >= 0)
  {
    if |s| > 0 && s[0] == '-' then
      if |s| > 1 && AllDigits(s[1..]) then Some(-(DigitsValue(s[1..]) as int)) else None
    else if |s| > 0 && AllDigits(s) then Some(DigitsValue(s))
    else None
  }

  /** Integer.parseInt over ASCII digits: an optional '+' or '-', one or
      more digits '0'..'9', and a value that fits in 32 bits, and None (the
      NumberFormatException) for anything else. Java also accepts the decimal
      digits of other scripts; this model does not. */
  function ParseInt(s: string): (r: Option<int>)
    ensures r.Some? ==> IsInt32(r.value)
    ensures r.Some? ==> |s| > 0
  {
    var v :=
      if |s| > 0 && s[0] == '+' then
        if |s| > 1 && AllDigits(s[1..]) then Some(DigitsValue(s[1..])) else None
      else ParseSignedDigits(s);
    if v.Some? && IsInt32(v.value) then v else None
  }

  /** Printing an int and parsing it back gives the int again. */
  lemma {:induction false} ParseIntOfToString(n: int)
    requires IsInt32(n)
    ensures ParseInt(IntToString(n)) == Some(n)
  {
    if n < 0 {
      var d := NatToString(-n);
      assert ("-" + d)[1..] == d;
    } else {
      var d := NatToString(n);
      assert d[0] != '-' && d[0] != '+';
    }
  }

  /** The '-'-or-digits reading agrees with printing, for every integer. */
  lemma {:induction false} ParseSignedDigitsOfToString(n: int)
    ensures ParseSignedDigits(IntToString(n)) == Some(n)
  {
    if n < 0 {
      var d := NatToString(-n);
      assert ("-" + d)[1..] == d;
    } else {
      var d := NatToString(n);
      assert d[0] != '-';
    }
  }

  /** A string that does not start with a sign or a digit never parses. */
  lemma ParseIntNeedsDigit(s: string)
    requires |s| > 0 && s[0] != '+' && s[0] != '-' && !IsAsciiDigit(s[0])
    ensures ParseInt(s).None?
  {
  }
}
