/** The JavaScript string primitives the application relies on, on `seq<char>`:
    `Number.prototype.toString(radix)`, `padStart`, `trim`, `split`, `startsWith`
    and the relational string order. */
module Strings {

  // ---------------------------------------------------------------------------
  // Number rendering
  // ---------------------------------------------------------------------------

  /** The digit `d` as `toString(radix)` writes it: `0`-`9`, then lower-case letters. */
  function DigitChar(d: nat): (c: char)
    requires d < 36
    ensures d < 10 ==> '0' <= c <= '9'
    ensures 10 <= d ==> 'a' <= c <= 'z'
  {
    if d < 10 then ('0' as int + d) as char else ('a' as int + d - 10) as char
  }

  /** The value of a digit character; the inverse of `DigitChar`. */
  function DigitValue(c: char): nat
  {
    if '0' <= c <= '9' then c as int - '0' as int
    else if 'a' <= c <= 'z' then c as int - 'a' as int + 10
    else 0
  }

  /** A character that `toString(radix)` may write as a digit. */
  predicate IsRadixDigit(c: char, radix: nat)
  {
    ('0' <= c <= '9' && (c as int - '0' as int) < radix)
    || ('a' <= c <= 'z' && (c as int - 'a' as int + 10) < radix)
  }

  lemma DivStep(n: nat, radix: nat)
    requires 2 <= radix <= n
    ensures 1 <= n / radix < n
    ensures n % radix < radix
  {
  }

  lemma DivMod(n: nat, radix: nat)
    requires 2 <= radix
    ensures (n / radix) * radix + n % radix == n
  {
  }

  /** `n.toString(radix)` for a non-negative integer: most significant digit first,
      no leading zeros. */
  function NatToRadix(n: nat, radix: nat): (s: string)
    requires 2 <= radix <= 36
    ensures 1 <= |s|
    ensures forall i :: 0 <= i < |s| ==> IsRadixDigit(s[i], radix)
    ensures n < radix <==> |s| == 1
    decreases n
  {
    if n < radix then [DigitChar(n)]
    else
      DivStep(n, radix);
      NatToRadix(n / radix, radix) + [DigitChar(n % radix)]
  }

  /** Reads a string of digits back as a number, most significant digit first. */
  function RadixValue(s: string, radix: nat): nat
  {
    if |s| == 0 then 0
    else RadixValue(s[..|s| - 1], radix) * radix + DigitValue(s[|s| - 1])
  }

  lemma DigitRoundTrip(d: nat)
    requires d < 36
    ensures DigitValue(DigitChar(d)) == d
  {
  }

  /** Rendering a number in a radix and reading it back gives the number. */
  lemma {:induction false} NatToRadixRoundTrip(n: nat, radix: nat)
    requires 2 <= radix <= 36
    ensures RadixValue(NatToRadix(n, radix), radix) == n
    decreases n
  {
    var s := NatToRadix(n, radix);
    if n < radix {
      DigitRoundTrip(n);
    } else {
      var q, d := n / radix, n % radix;
      DivStep(n, radix);
      NatToRadixRoundTrip(q, radix);
      DigitRoundTrip(d);
      assert s[..|s| - 1] == NatToRadix(q, radix);
      assert s[|s| - 1] == DigitChar(d);
      var pre := s[..|s| - 1];
      assert RadixValue(s, radix) == RadixValue(pre, radix) * radix + DigitValue(s[|s| - 1]);
      assert RadixValue(pre, radix) == q;
      DivMod(n, radix);
    }
  }

  /** Template-literal rendering `${i}` of an integer. */
  function IntToString(i: int): (s: string)
    ensures 1 <= |s|
    ensures i < 0 <==> s[0] == '-'
  {
    if i < 0 then "-" + NatToRadix(-i, 10) else NatToRadix(i, 10)
  }

  // ---------------------------------------------------------------------------
  // padStart
  // ---------------------------------------------------------------------------

  /** `s.padStart(width, fill)` with a one-character filler. */
  function PadStart(s: string, width: nat, fill: char): (r: string)
    ensures |r| == if |s| >= width then |s| else width
    ensures r[|r| - |s|..] == s
    ensures forall i :: 0 <= i < |r| - |s| ==> r[i] == fill
  {
    if |s| >= width then s else seq(width - |s|, _ => fill) + s
  }

  /** `b.toString(16).padStart(2, '0')` for a byte is its two hexadecimal digits,
      high nibble first. */
  lemma HexByteDigits(b: nat)
    requires b < 256
    ensures PadStart(NatToRadix(b, 16), 2, '0') == [DigitChar(b / 16), DigitChar(b % 16)]
  {
    if b < 16 {
      assert b / 16 == 0 && b % 16 == b;
    } else {
      assert NatToRadix(b, 16) == NatToRadix(b / 16, 16) + [DigitChar(b % 16)];
    }
  }

  // ---------------------------------------------------------------------------
  // Whitespace and trim
  // ---------------------------------------------------------------------------

  /** The characters of the regular-expression class `\s` and of `String.prototype.trim`:
      ECMAScript WhiteSpace plus LineTerminator. */
  predicate IsWhitespace(c: char)
  {
    c == '\t' || c == '\n' || c == '\U{000B}' || c == '\U{000C}' || c == '\r' || c == ' '
    || c == '\U{00A0}' || c == '\U{1680}' || ('\U{2000}' <= c <= '\U{200A}')
    || c == '\U{2028}' || c == '\U{2029}' || c == '\U{202F}' || c == '\U{205F}'
    || c == '\U{3000}' || c == '\U{FEFF}'
  }

  /** `s.trimStart()`: drops the leading whitespace and nothing else. */
  function TrimStart(s: string): (r: string)
    ensures |r| <= |s| && r == s[|s| - |r|..]
    ensures |r| == 0 || !IsWhitespace(r[0])
    ensures forall i :: 0 <= i < |s| - |r| ==> IsWhitespace(s[i])
  {
    if |s| > 0 && IsWhitespace(s[0]) then TrimStart(s[1..]) else s
  }

  /** `s.trimEnd()`: drops the trailing whitespace and nothing else. */
  function TrimEnd(s: string): (r: string)
    ensures |r| <= |s| && r == s[..|r|]
    ensures |r| == 0 || !IsWhitespace(r[|r| - 1])
    ensures forall i :: |r| <= i < |s| ==> IsWhitespace(s[i])
  {
    if |s| > 0 && IsWhitespace(s[|s| - 1]) then TrimEnd(s[..|s| - 1]) else s
  }

  /** `s.trim()`. */
  function Trim(s: string): (r: string)
  {
    TrimEnd(TrimStart(s))
  }

  /** Where `Trim(s)` starts inside `s`. */
  function TrimOffset(s: string): nat
  {
    |s| - |TrimStart(s)|
  }

  /** A string that neither starts nor ends with whitespace. */
  predicate Trimmed(s: string)
  {
    |s| == 0 || (!IsWhitespace(s[0]) && !IsWhitespace(s[|s| - 1]))
  }

  /** `trim` leaves the part of its input between the first offset and its length. */
  lemma TrimSlice(s: string)
    ensures TrimOffset(s) + |Trim(s)| <= |s| && Trim(s) == s[TrimOffset(s)..TrimOffset(s) + |Trim(s)|]
  {
    var a := TrimStart(s);
    var k := |s| - |a|;
    assert a == s[k..];
    var r := TrimEnd(a);
    assert r == a[..|r|];
    assert a[..|r|] == s[k..k + |r|];
  }

  /** The result of `trim` neither starts nor ends with whitespace. */
  lemma TrimTrimmed(s: string)
    ensures Trimmed(Trim(s))
  {
    var a := TrimStart(s);
    var r := TrimEnd(a);
    if |r| > 0 {
      assert r[0] == a[0];
    }
  }

  /** `trim` removes only whitespace, so a string with other characters stays non-empty. */
  lemma TrimKeepsText(s: string, i: int)
    requires 0 <= i < |s| && !IsWhitespace(s[i])
    ensures |Trim(s)| > 0
  {
    var a := TrimStart(s);
    var k := |s| - |a|;
    assert a == s[k..];
    assert i >= k;
    assert a[i - k] == s[i];
  }

  /** Trim yields a trimmed slice of its input that keeps every non-whitespace
      character, so trimming a trimmed string changes nothing. */
  lemma TrimSpec(s: string)
    ensures Trimmed(Trim(s))
    ensures TrimOffset(s) + |Trim(s)| <= |s| && Trim(s) == s[TrimOffset(s)..TrimOffset(s) + |Trim(s)|]
    ensures (exists i :: 0 <= i < |s| && !IsWhitespace(s[i])) ==> |Trim(s)| > 0
    ensures Trimmed(s) ==> Trim(s) == s
  {
    TrimTrimmed(s);
    TrimSlice(s);
    if exists i :: 0 <= i < |s| && !IsWhitespace(s[i]) {
      var i :| 0 <= i < |s| && !IsWhitespace(s[i]);
      TrimKeepsText(s, i);
    }
  }

  /** Leading whitespace in front of a string that starts otherwise is exactly what
      `trimStart` removes. */
  lemma {:induction false} TrimStartPadded(w: string, t: string)
    requires forall i :: 0 <= i < |w| ==> IsWhitespace(w[i])
    requires |t| > 0 && !IsWhitespace(t[0])
    ensures TrimStart(w + t) == t
  {
    if |w| > 0 {
      assert (w + t)[1..] == w[1..] + t;
      TrimStartPadded(w[1..], t);
    } else {
      assert w + t == t;
    }
  }

  /** Trailing whitespace behind a string that ends otherwise is exactly what
      `trimEnd` removes. */
  lemma {:induction false} TrimEndPadded(t: string, w: string)
    requires forall i :: 0 <= i < |w| ==> IsWhitespace(w[i])
    requires |t| > 0 && !IsWhitespace(t[|t| - 1])
    ensures TrimEnd(t + w) == t
  {
    if |w| > 0 {
      assert (t + w)[..|t + w| - 1] == t + w[..|w| - 1];
      TrimEndPadded(t, w[..|w| - 1]);
    } else {
      assert t + w == t;
    }
  }

  lemma TrimIdempotent(s: string)
    ensures Trim(Trim(s)) == Trim(s)
  {
    TrimSpec(s);
    TrimSpec(Trim(s));
  }

  // ---------------------------------------------------------------------------
  // split and join
  // ---------------------------------------------------------------------------

  /** `s.split(sep)` for a one-character separator: every part, including empty ones. */
  function Split(s: string, sep: char): (parts: seq<string>)
    ensures 1 <= |parts|
    ensures forall i :: 0 <= i < |parts| ==> sep !in parts[i]
  {
    if |s| == 0 then [""]
    else
      var rest := Split(s[1..], sep);
      if s[0] == sep then [""] + rest
      else [[s[0]] + rest[0]] + rest[1..]
  }

  /** `parts.join(sep)`. */
  function Join(parts: seq<string>, sep: char): string
  {
    if |parts| == 0 then ""
    else if |parts| == 1 then parts[0]
    else parts[0] + [sep] + Join(parts[1..], sep)
  }

  /** Splitting and re-joining gives back the string. */
  lemma {:induction false} SplitJoin(s: string, sep: char)
    ensures Join(Split(s, sep), sep) == s
  {
    if |s| > 0 {
      var rest := Split(s[1..], sep);
      SplitJoin(s[1..], sep);
      if s[0] == sep {
        assert Split(s, sep)[1..] == rest;
      } else {
        var parts := Split(s, sep);
        assert parts[1..] == rest[1..];
        if |rest| > 1 {
          assert Join(rest, sep) == rest[0] + [sep] + Join(rest[1..], sep);
        }
      }
    }
  }

  /** A string without the separator splits into itself alone. */
  lemma {:induction false} SplitNoSep(s: string, sep: char)
    requires sep !in s
    ensures Split(s, sep) == [s]
  {
    if |s| > 0 {
      SplitNoSep(s[1..], sep);
      assert [s[0]] + s[1..] == s;
    }
  }

  /** Joining two separator-free parts and splitting again recovers exactly the two parts. */
  lemma {:induction false} SplitPair(a: string, b: string, sep: char)
    requires sep !in a && sep !in b
    ensures Split(a + [sep] + b, sep) == [a, b]
  {
    if |a| == 0 {
      assert a + [sep] + b == [sep] + b;
      assert ([sep] + b)[1..] == b;
      SplitNoSep(b, sep);
    } else {
      SplitPair(a[1..], b, sep);
      assert (a + [sep] + b)[1..] == a[1..] + [sep] + b;
      assert [a[0]] + a[1..] == a;
    }
  }

  // ---------------------------------------------------------------------------
  // Prefixes and order
  // ---------------------------------------------------------------------------

  /** `s.startsWith(p)`. */
  predicate StartsWith(s: string, p: string)
  {
    |p| <= |s| && s[..|p|] == p
  }

  /** The relational string order `a <= b` of JavaScript, by character codes. */
  predicate LexLe(a: string, b: string)
  {
    |a| == 0 || (|b| > 0 && (a[0] < b[0] || (a[0] == b[0] && LexLe(a[1..], b[1..]))))
  }

  /** A common prefix does not change the order. */
  lemma {:induction false} LexLePrefix(p: string, a: string, b: string)
    ensures LexLe(p + a, p + b) == LexLe(a, b)
  {
    if |p| > 0 {
      assert (p + a)[1..] == p[1..] + a;
      assert (p + b)[1..] == p[1..] + b;
      LexLePrefix(p[1..], a, b);
    } else {
      assert p + a == a && p + b == b;
    }
  }
}
