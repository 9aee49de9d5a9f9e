/** String operations the application relies on: Python's `str.split` on one
    character, `str.join`, `str.lower` (ASCII letters only) and the decimal
    rendering of a natural number that f-strings perform. */
module Text {

  /** `sep.join(parts)`. */
  function Join(parts: seq<string>, sep: string): (r: string)
    ensures parts == [] ==> r == []
    decreases |parts|
  {
    if |parts| == 0 then []
    else if |parts| == 1 then parts[0]
    else Join(parts[..|parts| - 1], sep) + sep + parts[|parts| - 1]
  }

  /** Sum of the lengths of `parts`. */
  function TotalLength(parts: seq<string>): nat
  {
    if parts == [] then 0 else TotalLength(parts[..|parts| - 1]) + |parts[|parts| - 1]|
  }

  /** The index at which `parts[i]` starts inside `Join(parts, sep)`. */
  function JoinOffset(parts: seq<string>, sep: string, i: nat): nat
    requires i <= |parts|
  {
    TotalLength(parts[..i]) + i * |sep|
  }

  lemma {:induction false} JoinLength(parts: seq<string>, sep: string)
    requires parts != []
    ensures |Join(parts, sep)| == TotalLength(parts) + (|parts| - 1) * |sep|
    decreases |parts|
  {
    if |parts| > 1 {
      JoinLength(parts[..|parts| - 1], sep);
    }
  }

  /** Every joined part appears verbatim in the result, at a known offset. */
  lemma {:induction false} JoinContainsPart(parts: seq<string>, sep: string, i: nat)
    requires i < |parts|
    ensures JoinOffset(parts, sep, i) + |parts[i]| <= |Join(parts, sep)|
    ensures Join(parts, sep)[JoinOffset(parts, sep, i)..JoinOffset(parts, sep, i) + |parts[i]|] == parts[i]
    decreases |parts|
  {
    var n := |parts|;
    var init := parts[..n - 1];
    if i == n - 1 {
      if n > 1 {
        JoinLength(init, sep);
        assert parts[..i] == init;
      }
    } else {
      JoinContainsPart(init, sep, i);
      assert init[..i] == parts[..i];
    }
  }

  lemma SliceRight(a: string, b: string, i: nat, j: nat)
    requires i <= j <= |b|
    ensures (a + b)[|a| + i..|a| + j] == b[i..j]
  {
  }

  lemma SliceLeft(a: string, b: string, i: nat, j: nat)
    requires i <= j <= |a|
    ensures (a + b)[i..j] == a[i..j]
  {
  }

  /** Python's `s.split(sep)` for a one-character separator: never empty,
      and an empty part wherever two separators meet or `s` starts or ends
      with one. */
  function Split(s: string, sep: char): (parts: seq<string>)
    ensures |parts| >= 1
    decreases |s|
  {
    if |s| == 0 then [""]
    else if s[0] == sep then [""] + Split(s[1..], sep)
    else
      var rest := Split(s[1..], sep);
      [[s[0]] + rest[0]] + rest[1..]
  }

  lemma {:induction false} JoinPrepend(x: string, parts: seq<string>, sep: string)
    requires parts != []
    ensures Join([x] + parts, sep) == x + sep + Join(parts, sep)
    decreases |parts|
  {
    var n := |parts|;
    if n > 1 {
      JoinPrepend(x, parts[..n - 1], sep);
      assert ([x] + parts)[..n] == [x] + parts[..n - 1];
    } else {
      assert ([x] + parts)[..1] == [x];
    }
  }

  lemma {:induction false} JoinExtendFirst(c: char, parts: seq<string>, sep: string)
    requires parts != []
    ensures Join([[c] + parts[0]] + parts[1..], sep) == [c] + Join(parts, sep)
    decreases |parts|
  {
    var n := |parts|;
    if n == 1 {
    } else {
      var init := parts[..n - 1];
      JoinExtendFirst(c, init, sep);
      var q := [[c] + parts[0]] + parts[1..];
      assert q[..n - 1] == [[c] + init[0]] + init[1..];
    }
  }

  /** Joining the parts of a split with the separator gives back the string. */
  lemma {:induction false} JoinSplit(s: string, sep: char)
    ensures Join(Split(s, sep), [sep]) == s
    decreases |s|
  {
    if |s| == 0 {
    } else if s[0] == sep {
      var rest := Split(s[1..], sep);
      assert Split(s, sep) == [""] + rest;
      JoinSplit(s[1..], sep);
      JoinPrepend("", rest, [sep]);
      assert s == [sep] + s[1..];
    } else {
      var rest := Split(s[1..], sep);
      assert Split(s, sep) == [[s[0]] + rest[0]] + rest[1..];
      JoinSplit(s[1..], sep);
      JoinExtendFirst(s[0], rest, [sep]);
      assert s == [s[0]] + s[1..];
    }
  }

  /** No part of a split contains the separator; there is one part exactly
      when the string has no separator. */
  lemma {:induction false} SplitParts(s: string, sep: char)
    ensures forall k :: 0 <= k < |Split(s, sep)| ==> sep !in Split(s, sep)[k]
    ensures |Split(s, sep)| == 1 <==> sep !in s
    decreases |s|
  {
    if |s| > 0 {
      SplitParts(s[1..], sep);
      assert s == [s[0]] + s[1..];
    }
  }

  /** The last part of `Split(s, sep)` (Python's `s.split(sep)[-1]`) is the
      suffix of `s` after its last separator, or all of `s` if it has none. */
  lemma {:induction false} SplitLast(s: string, sep: char)
    ensures var last := Split(s, sep)[|Split(s, sep)| - 1];
      && |last| <= |s|
      && s[|s| - |last|..] == last
      && sep !in last
      && (sep in s ==> |last| < |s| && s[|s| - |last| - 1] == sep)
      && (sep !in s ==> last == s)
    decreases |s|
  {
    SplitParts(s, sep);
    if |s| > 0 {
      SplitLast(s[1..], sep);
      SplitParts(s[1..], sep);
      assert s == [s[0]] + s[1..];
    }
  }

  /** Python's `c.lower()` restricted to ASCII: `A`..`Z` become `a`..`z`. */
  function LowerChar(c: char): char
  {
    if 'A' <= c <= 'Z' then (c as int + 32) as char else c
  }

  /** `s.lower()` character by character. */
  function Lower(s: string): (r: string)
    ensures |r| == |s|
    ensures forall i :: 0 <= i < |s| ==> r[i] == LowerChar(s[i])
  {
    seq(|s|, i requires 0 <= i < |s| => LowerChar(s[i]))
  }

  /** Lower-casing leaves no upper-case ASCII letter, changes nothing else,
      and a second application changes nothing. */
  lemma LowerProperties(s: string)
    ensures forall i :: 0 <= i < |s| ==> !('A' <= Lower(s)[i] <= 'Z')
    ensures forall i :: 0 <= i < |s| && !('A' <= s[i] <= 'Z') ==> Lower(s)[i] == s[i]
    ensures Lower(Lower(s)) == Lower(s)
  {
  }

  lemma LowerSuffix(s: string, i: nat)
    requires i <= |s|
    ensures Lower(s[i..]) == Lower(s)[i..]
  {
  }

  /** A character that is not a letter stays where it was after lower-casing. */
  lemma LowerKeepsChar(s: string, c: char)
    requires !('A' <= c <= 'Z') && !('a' <= c <= 'z')
    ensures c in Lower(s) <==> c in s
  {
    if c in s {
      var i :| 0 <= i < |s| && s[i] == c;
      assert Lower(s)[i] == c;
    }
    if c in Lower(s) {
      var i :| 0 <= i < |s| && Lower(s)[i] == c;
      assert s[i] == c;
    }
  }

  function DigitChar(d: nat): char
    requires d < 10
  {
    ('0' as int + d) as char
  }

  predicate IsDigit(c: char)
  {
    '0' <= c <= '9'
  }

  /** `str(n)`: the shortest decimal rendering of `n`. */
  function Decimal(n: nat): (r: string)
    ensures |r| >= 1
    ensures forall i :: 0 <= i < |r| ==> IsDigit(r[i])
    ensures r[0] == '0' ==> n == 0
    decreases n
  {
    if n < 10 then [DigitChar(n)] else Decimal(n / 10) + [DigitChar(n % 10)]
  }

  function DigitValue(c: char): nat
    requires IsDigit(c)
  {
    c as int - '0' as int
  }

  /** The value of a string of decimal digits, most significant first. */
  function DigitsValue(s: string): nat
    requires forall i :: 0 <= i < |s| ==> IsDigit(s[i])
  {
    if s == [] then 0
    else DigitsValue(s[..|s| - 1]) * 10 + DigitValue(s[|s| - 1])
  }

  /** Reading back a rendered number gives the number, so two different
      numbers never render the same. */
  lemma {:induction false} DecimalRoundTrip(n: nat)
    ensures DigitsValue(Decimal(n)) == n
    decreases n
  {
    if n >= 10 {
      DecimalRoundTrip(n / 10);
      var d := Decimal(n);
      assert d[..|d| - 1] == Decimal(n / 10);
    }
  }

  lemma DecimalInjective(m: nat, n: nat)
    requires Decimal(m) == Decimal(n)
    ensures m == n
  {
    DecimalRoundTrip(m);
    DecimalRoundTrip(n);
  }
}
