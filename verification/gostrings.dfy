/**
  The few Go standard-library string operations the scheduler relies on:
  strings.TrimSpace, strings.Split and strings.Join with a one-character
  separator, and strconv.Itoa. Go strings are UTF-8 bytes; here a string is
  the sequence of its code points, so invalid UTF-8 is not represented.
 */
module GoStrings {
  import opened Wrappers

  /** unicode.IsSpace: the Latin-1 spaces plus the other White_Space code points. */
  predicate IsSpace(c: char) {
    || c == ' ' || c == '\t' || c == '\n' || c == '\U{0B}' || c == '\U{0C}' || c == '\r'
    || c == '\U{85}' || c == '\U{A0}' || c == '\U{1680}'
    || ('\U{2000}' <= c <= '\U{200A}')
    || c == '\U{2028}' || c == '\U{2029}' || c == '\U{202F}' || c == '\U{205F}' || c == '\U{3000}'
  }

  predicate AllSpace(s: string) {
    forall k :: 0 <= k < |s| ==> IsSpace(s[k])
  }

  /** Drops leading white space. */
  function TrimLeft(s: string): string {
    if |s| > 0 && IsSpace(s[0]) then TrimLeft(s[1..]) else s
  }

  /** Drops trailing white space. */
  function TrimRight(s: string): string {
    if |s| > 0 && IsSpace(s[|s| - 1]) then TrimRight(s[..|s| - 1]) else s
  }

  /** strings.TrimSpace. */
  function TrimSpace(s: string): string {
    TrimRight(TrimLeft(s))
  }

  /** TrimLeft removes exactly the maximal run of leading white space. */
  lemma {:induction false} TrimLeftSpec(s: string)
    ensures var r := TrimLeft(s);
      && |r| <= |s| && r == s[|s| - |r|..]
      && AllSpace(s[..|s| - |r|])
      && (r != [] ==> !IsSpace(r[0]))
  {
    if |s| > 0 && IsSpace(s[0]) {
      TrimLeftSpec(s[1..]);
      var r := TrimLeft(s[1..]);
      assert s[..|s| - |r|] == [s[0]] + s[1..][..|s| - 1 - |r|];
    }
  }

  /** TrimRight removes exactly the maximal run of trailing white space. */
  lemma {:induction false} TrimRightSpec(s: string)
    ensures var r := TrimRight(s);
      && |r| <= |s| && r == s[..|r|]
      && AllSpace(s[|r|..])
      && (r != [] ==> !IsSpace(r[|r| - 1]))
  {
    if |s| > 0 && IsSpace(s[|s| - 1]) {
      var t := s[..|s| - 1];
      TrimRightSpec(t);
      var r := TrimRight(t);
      assert s[|r|..] == t[|r|..] + [s[|s| - 1]];
      assert t[..|r|] == s[..|r|];
    }
  }

  /**
    TrimSpace returns the slice of `s` left after removing all leading and
    trailing white space: what is removed is white space, and the result
    neither starts nor ends with white space.
   */
  lemma TrimSpaceSpec(s: string)
    ensures var r := TrimSpace(s);
      && (exists i :: 0 <= i && i + |r| <= |s| && r == s[i..i + |r|] && AllSpace(s[..i]) && AllSpace(s[i + |r|..]))
      && (r != [] ==> !IsSpace(r[0]) && !IsSpace(r[|r| - 1]))
      && (r == [] <==> AllSpace(s))
  {
    var l := TrimLeft(s);
    TrimLeftSpec(s);
    var r := TrimRight(l);
    TrimRightSpec(l);
    var i := |s| - |l|;
    assert s[i..i + |r|] == l[..|r|];
    assert s[i + |r|..] == l[|r|..];
    if r != [] {
      assert r[0] == l[0];
    }
    if r == [] {
      assert s == s[..i] + l;
    }
  }

  lemma TrimSpaceIdempotent(s: string)
    ensures TrimSpace(TrimSpace(s)) == TrimSpace(s)
  {
    var r := TrimSpace(s);
    TrimSpaceSpec(s);
    if r != [] {
      assert TrimLeft(r) == r;
      assert TrimRight(r) == r;
    }
  }

  /** Number of occurrences of `c` in `s` (strings.Count with a one-character separator). */
  function Count(s: string, c: char): nat {
    if s == [] then 0 else (if s[0] == c then 1 else 0) + Count(s[1..], c)
  }

  /**
    strings.Split(s, [sep]): the pieces of `s` between occurrences of `sep`.
    There is one more piece than there are separators, so even the empty
    string yields one (empty) piece.
   */
  function Split(s: string, sep: char): (parts: seq<string>)
    ensures |parts| == Count(s, sep) + 1
    ensures forall k :: 0 <= k < |parts| ==> sep !in parts[k]
  {
    if s == [] then [""]
    else
      var rest := Split(s[1..], sep);
      if s[0] == sep then [""] + rest
      else [[s[0]] + rest[0]] + rest[1..]
  }

  /** strings.Join(parts, [sep]). */
  function Join(parts: seq<string>, sep: char): string {
    if |parts| == 0 then ""
    else if |parts| == 1 then parts[0]
    else parts[0] + [sep] + Join(parts[1..], sep)
  }

  /** Joining the pieces of a split gives back the original string. */
  lemma {:induction false} JoinSplit(s: string, sep: char)
    ensures Join(Split(s, sep), sep) == s
  {
    if s != [] {
      var rest := Split(s[1..], sep);
      JoinSplit(s[1..], sep);
      assert s == [s[0]] + s[1..];
      if s[0] == sep {
        JoinCons("", rest, sep);
      } else {
        JoinExtendFirst(s[0], rest, sep);
      }
    }
  }

  lemma JoinCons(p: string, rest: seq<string>, sep: char)
    requires |rest| >= 1
    ensures Join([p] + rest, sep) == p + [sep] + Join(rest, sep)
  {
    assert ([p] + rest)[1..] == rest;
  }

  lemma JoinExtendFirst(c: char, parts: seq<string>, sep: char)
    requires |parts| >= 1
    ensures Join([[c] + parts[0]] + parts[1..], sep) == [c] + Join(parts, sep)
  {
    var ps := [[c] + parts[0]] + parts[1..];
    if |parts| > 1 {
      assert ps[1..] == parts[1..];
    }
  }

  lemma {:induction false} SplitWithoutSeparator(p: string, sep: char)
    requires sep !in p
    ensures Split(p, sep) == [p]
  {
    if p != [] {
      assert sep !in p[1..];
      SplitWithoutSeparator(p[1..], sep);
      assert p == [p[0]] + p[1..];
    }
  }

  lemma {:induction false} SplitAfterPiece(p: string, t: string, sep: char)
    requires sep !in p
    ensures Split(p + [sep] + t, sep) == [p] + Split(t, sep)
  {
    var s := p + [sep] + t;
    if p == [] {
      assert s[1..] == t;
    } else {
      assert s[1..] == p[1..] + [sep] + t;
      assert sep !in p[1..];
      SplitAfterPiece(p[1..], t, sep);
      assert p == [p[0]] + p[1..];
    }
  }

  /** Splitting a join of separator-free pieces gives back the pieces. */
  lemma {:induction false} SplitJoin(parts: seq<string>, sep: char)
    requires |parts| >= 1
    requires forall k :: 0 <= k < |parts| ==> sep !in parts[k]
    ensures Split(Join(parts, sep), sep) == parts
  {
    if |parts| == 1 {
      SplitWithoutSeparator(parts[0], sep);
    } else {
      SplitJoin(parts[1..], sep);
      SplitAfterPiece(parts[0], Join(parts[1..], sep), sep);
      assert parts == [parts[0]] + parts[1..];
    }
  }

  predicate IsDigit(c: char) {
    '0' <= c <= '9'
  }

  predicate AllDigits(s: string) {
    forall k :: 0 <= k < |s| ==> IsDigit(s[k])
  }

  function DigitChar(d: nat): (c: char)
    requires d < 10
  {
    "0123456789"[d]
  }

  function DigitValue(c: char): nat
    requires IsDigit(c)
  {
    (c as int) - ('0' as int)
  }

  /** Decimal digits of a natural number, without leading zeros. */
  function NatToDecimal(n: nat): (s: string)
    ensures |s| >= 1 && AllDigits(s)
    ensures (s[0] == '0') == (n == 0)
    decreases n
  {
    if n < 10 then [DigitChar(n)] else NatToDecimal(n / 10) + [DigitChar(n % 10)]
  }

  /** strconv.Itoa: decimal text with a leading '-' for negative numbers. */
  function Itoa(i: int): (s: string)
    ensures |s| >= 1
    ensures s[0] == '-' <==> i < 0
  {
    if i < 0 then "-" + NatToDecimal(-i) else NatToDecimal(i)
  }

  /** The value of a string of decimal digits. */
  function DecimalValue(s: string): nat
    requires AllDigits(s)
  {
    if s == [] then 0 else 10 * DecimalValue(s[..|s| - 1]) + DigitValue(s[|s| - 1])
  }

  /** Reads an optional '-' followed by at least one decimal digit. */
  function ParseDecimal(s: string): Option<int> {
    if |s| >= 2 && s[0] == '-' && AllDigits(s[1..]) then Some(0 - DecimalValue(s[1..]))
    else if |s| >= 1 && AllDigits(s) then Some(DecimalValue(s))
    else None
  }

  lemma {:induction false} DecimalValueOfNat(n: nat)
    ensures DecimalValue(NatToDecimal(n)) == n
    decreases n
  {
    var s := NatToDecimal(n);
    if n >= 10 {
      DecimalValueOfNat(n / 10);
      assert s[..|s| - 1] == NatToDecimal(n / 10);
    }
  }

  /** Itoa and ParseDecimal are inverse: the decimal text determines the number. */
  lemma ItoaRoundTrip(i: int)
    ensures ParseDecimal(Itoa(i)) == Some(i)
  {
    var s := Itoa(i);
    if i < 0 {
      var digits := NatToDecimal(-i);
      DecimalValueOfNat(-i);
      assert s[1..] == digits;
      assert |s| >= 2 && s[0] == '-' && AllDigits(s[1..]);
      assert ParseDecimal(s) == Some(0 - DecimalValue(digits));
    } else {
      DecimalValueOfNat(i);
      assert s == NatToDecimal(i) && s[0] != '-';
      assert ParseDecimal(s) == Some(DecimalValue(s));
    }
  }
}
