/** String primitives the components rely on, restricted to ASCII:
    `toLowerCase`, `includes`, `trim`, `split` / `join` on a single
    character, number-to-text and a simplified `parseInt`. */
module Text {
  import opened Wrappers

  // ---------------------------------------------------------------------
  // Case

  /** ASCII lowercase of one character; every other character is kept. */
  function LowerChar(c: char): (l: char) {
    if 'A' <= c <= 'Z' then (c as int + 32) as char else c
  }

  /** `s.toLowerCase()` restricted to ASCII letters. */
  function ToLower(s: string): (r: string)
    ensures |r| == |s|
    ensures forall i :: 0 <= i < |s| ==> r[i] == LowerChar(s[i])
  {
    seq(|s|, i requires 0 <= i < |s| => LowerChar(s[i]))
  }

  // ---------------------------------------------------------------------
  // Substrings

  /** `q` occurs in `s` starting at offset `k`. */
  predicate OccursAt(s: string, q: string, k: int) {
    0 <= k && k + |q| <= |s| && s[k..k + |q|] == q
  }

  /** `s.includes(q)`, computed by trying every start position in turn. */
  function Includes(s: string, q: string): (b: bool)
    ensures b <==> exists k :: OccursAt(s, q, k)
    decreases |s|
  {
    if |q| <= |s| && s[..|q|] == q then
      assert OccursAt(s, q, 0);
      true
    else if |s| == 0 then
      assert forall k :: !OccursAt(s, q, k);
      false
    else
      var b := Includes(s[1..], q);
      assert forall k :: 1 <= k ==> (OccursAt(s, q, k) <==> OccursAt(s[1..], q, k - 1));
      assert b ==> OccursAt(s, q, (var k :| OccursAt(s[1..], q, k); k) + 1);
      b
  }

  /** Every string includes the empty string. */
  lemma IncludesEmpty(s: string)
    ensures Includes(s, "")
  {
    assert OccursAt(s, "", 0);
  }

  // ---------------------------------------------------------------------
  // Whitespace and trimming

  /** ASCII whitespace as `String.prototype.trim` sees it: space, tab,
      line feed, vertical tab, form feed and carriage return. */
  predicate IsSpace(c: char) {
    c == ' ' || '\t' <= c <= '\r'
  }

  predicate AllSpace(s: string) {
    forall i :: 0 <= i < |s| ==> IsSpace(s[i])
  }

  /** Number of whitespace characters at the start of `s`. */
  function LeadingSpaces(s: string): (n: nat)
    ensures n <= |s|
    ensures AllSpace(s[..n])
    ensures n < |s| ==> !IsSpace(s[n])
    decreases |s|
  {
    if |s| > 0 && IsSpace(s[0]) then
      var m := LeadingSpaces(s[1..]);
      assert s[..m + 1] == [s[0]] + s[1..][..m];
      1 + m
    else 0
  }

  /** Number of whitespace characters at the end of `s`. */
  function TrailingSpaces(s: string): (n: nat)
    ensures n <= |s|
    ensures AllSpace(s[|s| - n..])
    ensures n < |s| ==> !IsSpace(s[|s| - n - 1])
    decreases |s|
  {
    if |s| > 0 && IsSpace(s[|s| - 1]) then
      var m := TrailingSpaces(s[..|s| - 1]);
      TrailingStep(s, m);
      1 + m
    else 0
  }

  /** One more trailing space: the count for `s` from the count for `s`
      without its last character, which is whitespace. */
  lemma TrailingStep(s: string, m: nat)
    requires |s| > 0 && IsSpace(s[|s| - 1]) && m <= |s| - 1
    requires AllSpace(s[..|s| - 1][|s| - 1 - m..])
    requires m < |s| - 1 ==> !IsSpace(s[..|s| - 1][|s| - 1 - m - 1])
    ensures AllSpace(s[|s| - (m + 1)..])
    ensures m + 1 < |s| ==> !IsSpace(s[|s| - (m + 1) - 1])
  {
    var init := s[..|s| - 1];
    assert s[|s| - (m + 1)..] == init[|init| - m..] + [s[|s| - 1]];
  }

  /** The slice between the leading and the trailing whitespace, when the
      string has a non-space character at `a`. */
  lemma TrimSlice(s: string, a: nat, b: nat)
    requires a < |s| && b <= |s|
    requires AllSpace(s[..a]) && !IsSpace(s[a])
    requires AllSpace(s[|s| - b..]) && (b < |s| ==> !IsSpace(s[|s| - b - 1]))
    ensures a < |s| - b
    ensures var r := s[a..|s| - b];
      && r != "" && !IsSpace(r[0]) && !IsSpace(r[|r| - 1])
      && OccursAt(s, r, a) && AllSpace(s[a + |r|..])
      && !AllSpace(s)
      && (forall c :: c in r ==> c in s)
  {
    var r := s[a..|s| - b];
    assert r[0] == s[a];
    assert r[|r| - 1] == s[|s| - b - 1];
    assert s[a + |r|..] == s[|s| - b..];
  }

  /** `s.trim()`: `s` without its leading and trailing whitespace. */
  function Trim(s: string): (r: string)
    ensures r == "" <==> AllSpace(s)
    ensures r != "" ==> !IsSpace(r[0]) && !IsSpace(r[|r| - 1])
    ensures OccursAt(s, r, LeadingSpaces(s))
    ensures AllSpace(s[..LeadingSpaces(s)]) && AllSpace(s[LeadingSpaces(s) + |r|..])
    ensures forall c :: c in r ==> c in s
  {
    var a := LeadingSpaces(s);
    if a == |s| then
      assert s[..a] == s;
      ""
    else
      var b := TrailingSpaces(s);
      TrimSlice(s, a, b);
      s[a..|s| - b]
  }

  /** A string without surrounding whitespace is its own trim. */
  lemma TrimTrimmed(s: string)
    requires s != "" ==> !IsSpace(s[0]) && !IsSpace(s[|s| - 1])
    ensures Trim(s) == s
  {
  }

  // ---------------------------------------------------------------------
  // Split and join on one separator character

  /** Total length of the strings in `parts`. */
  function TotalLength(parts: seq<string>): (n: nat)
    decreases |parts|
  {
    if |parts| == 0 then 0 else |parts[0]| + TotalLength(parts[1..])
  }

  /** `parts.join(sep)`: the pieces in order, with one `sep` between each
      neighbouring pair and none at either end. */
  function Join(parts: seq<string>, sep: string): (r: string)
    decreases |parts|
  {
    if |parts| == 0 then ""
    else if |parts| == 1 then parts[0]
    else parts[0] + sep + Join(parts[1..], sep)
  }

  /** `s.endsWith(t)`. */
  predicate EndsWith(s: string, t: string) {
    |t| <= |s| && s[|s| - |t|..] == t
  }

  /** A join starts with the first piece, ends with the last, and is as
      long as the pieces plus one separator per gap. */
  lemma {:induction false} JoinShape(parts: seq<string>, sep: string)
    requires |parts| >= 1
    ensures |Join(parts, sep)| == TotalLength(parts) + (|parts| - 1) * |sep|
    ensures parts[0] <= Join(parts, sep)
    ensures EndsWith(Join(parts, sep), parts[|parts| - 1])
    decreases |parts|
  {
    if |parts| > 1 {
      var n := |parts|;
      var tail := Join(parts[1..], sep);
      JoinShape(parts[1..], sep);
      assert Join(parts, sep) == parts[0] + sep + tail;
      assert (n - 1) * |sep| == (n - 2) * |sep| + |sep|;
      assert parts[1..][n - 2] == parts[n - 1];
      assert (parts[0] + sep + tail)[|parts[0]| + |sep|..] == tail;
    }
  }

  /** `s.split(sep)` for a one-character separator: the maximal pieces of
      `s` between occurrences of `sep`, always at least one (`"".split(sep)`
      is `[""]`). Joining the pieces with `sep` gives `s` back. */
  function Split(s: string, sep: char): (parts: seq<string>)
    ensures |parts| >= 1
    ensures forall i :: 0 <= i < |parts| ==> sep !in parts[i]
    ensures Join(parts, [sep]) == s
    decreases |s|
  {
    if |s| == 0 then [""]
    else
      var rest := Split(s[1..], sep);
      if s[0] == sep then
        assert Join([""] + rest, [sep]) == [sep] + Join(rest, [sep]);
        [""] + rest
      else
        var parts := [[s[0]] + rest[0]] + rest[1..];
        assert forall i :: 1 <= i < |parts| ==> parts[i] == rest[i];
        assert Join(parts, [sep]) == [s[0]] + Join(rest, [sep]) by {
          if |rest| > 1 {
            assert parts[1..] == rest[1..];
          }
        }
        parts
  }

  /** A string without the separator splits into itself alone. */
  lemma {:induction false} SplitNoSep(s: string, sep: char)
    requires sep !in s
    ensures Split(s, sep) == [s]
    decreases |s|
  {
    if |s| > 0 {
      SplitNoSep(s[1..], sep);
      assert [s[0]] + s[1..] == s;
    }
  }

  /** Splitting `p + sep + t` where `p` has no separator yields `p` first. */
  lemma {:induction false} SplitCons(p: string, t: string, sep: char)
    requires sep !in p
    ensures Split(p + [sep] + t, sep) == [p] + Split(t, sep)
    decreases |p|
  {
    var s := p + [sep] + t;
    if |p| == 0 {
      assert s[1..] == t;
    } else {
      assert s[1..] == p[1..] + [sep] + t;
      SplitCons(p[1..], t, sep);
      assert [p[0]] + p[1..] == p;
    }
  }

  /** Splitting undoes joining, provided no piece holds the separator. */
  lemma {:induction false} SplitJoin(parts: seq<string>, sep: char)
    requires |parts| >= 1
    requires forall i :: 0 <= i < |parts| ==> sep !in parts[i]
    ensures Split(Join(parts, [sep]), sep) == parts
    decreases |parts|
  {
    if |parts| == 1 {
      SplitNoSep(parts[0], sep);
    } else {
      SplitJoin(parts[1..], sep);
      SplitCons(parts[0], Join(parts[1..], [sep]), sep);
      assert [parts[0]] + parts[1..] == parts;
    }
  }

  /** Joining pieces that avoid a character, with a separator that avoids
      it too, gives a string that avoids it. */
  lemma {:induction false} JoinAvoids(parts: seq<string>, sep: string, c: char)
    requires forall i :: 0 <= i < |parts| ==> c !in parts[i]
    requires c !in sep
    ensures c !in Join(parts, sep)
    decreases |parts|
  {
    if |parts| > 1 {
      JoinAvoids(parts[1..], sep, c);
    }
  }

  /** Joining one more piece onto a non-empty list appends separator and piece. */
  lemma {:induction false} JoinSnoc(parts: seq<string>, last: string, sep: string)
    requires |parts| >= 1
    ensures Join(parts + [last], sep) == Join(parts, sep) + sep + last
    decreases |parts|
  {
    if |parts| > 1 {
      assert (parts + [last])[1..] == parts[1..] + [last];
      JoinSnoc(parts[1..], last, sep);
    }
  }

  /** Number of occurrences of `c` in `s`. */
  function Count(s: string, c: char): (n: nat)
    decreases |s|
  {
    if |s| == 0 then 0 else (if s[0] == c then 1 else 0) + Count(s[1..], c)
  }

  lemma {:induction false} CountAppend(a: string, b: string, c: char)
    ensures Count(a + b, c) == Count(a, c) + Count(b, c)
    decreases |a|
  {
    if |a| == 0 {
      assert a + b == b;
    } else {
      assert (a + b)[1..] == a[1..] + b;
      CountAppend(a[1..], b, c);
    }
  }

  // ---------------------------------------------------------------------
  // Decimal numbers

  predicate IsDigit(c: char) {
    '0' <= c <= '9'
  }

  predicate AllDigits(s: string) {
    forall i :: 0 <= i < |s| ==> IsDigit(s[i])
  }

  function DigitChar(d: nat): (c: char)
    requires d < 10
    ensures IsDigit(c)
  {
    ('0' as int + d) as char
  }

  function DigitValue(c: char): (d: nat)
    requires IsDigit(c)
    ensures d < 10
  {
    c as int - '0' as int
  }

  /** The value of a string of decimal digits, most significant first. */
  function DigitsValue(s: string): (v: nat)
    requires AllDigits(s)
    decreases |s|
  {
    if |s| == 0 then 0 else DigitsValue(s[..|s| - 1]) * 10 + DigitValue(s[|s| - 1])
  }

  /** At least one decimal digit, and no leading zero unless the digit
      is alone: the only way a number prints. */
  predicate CanonicalDigits(d: string) {
    |d| >= 1 && AllDigits(d) && (|d| > 1 ==> d[0] != '0')
  }

  /** Decimal text of a natural number, without leading zeros. */
  function NatToDecimal(n: nat): (r: string)
    ensures CanonicalDigits(r)
    ensures |r| == 1 <==> n < 10
    ensures DigitsValue(r) == n
    decreases n
  {
    if n < 10 then [DigitChar(n)]
    else
      var r := NatToDecimal(n / 10) + [DigitChar(n % 10)];
      assert r[..|r| - 1] == NatToDecimal(n / 10);
      r
  }

  /** How an integral JavaScript number prints in a template literal. */
  function IntToDecimal(n: int): (r: string)
    ensures |r| >= 1
    ensures n < 0 <==> r[0] == '-'
    ensures CanonicalDigits(if n < 0 then r[1..] else r)
  {
    if n < 0 then "-" + NatToDecimal(-n) else NatToDecimal(n)
  }

  /** Length of the run of decimal digits at the start of `s`. */
  function LeadingDigits(s: string): (n: nat)
    ensures n <= |s|
    ensures AllDigits(s[..n])
    ensures n < |s| ==> !IsDigit(s[n])
    decreases |s|
  {
    if |s| > 0 && IsDigit(s[0]) then
      var n := 1 + LeadingDigits(s[1..]);
      assert forall i :: 1 <= i < n ==> s[..n][i] == s[1..][..n - 1][i - 1];
      n
    else 0
  }

  /** `parseInt(s)` in base ten: leading whitespace is skipped, one optional
      sign is read, then the longest run of digits; `None` stands for `NaN`
      when no digit follows. */
  function ParseInt(s: string): (r: Option<int>)
    ensures r.None? <==> LeadingDigits(SkipSign(s[LeadingSpaces(s)..])) == 0
  {
    var t := s[LeadingSpaces(s)..];
    var body := SkipSign(t);
    var n := LeadingDigits(body);
    if n == 0 then None
    else
      var v: int := DigitsValue(body[..n]);
      if |t| > 0 && t[0] == '-' then Some(-v) else Some(v)
  }

  /** `t` without one leading `+` or `-`. */
  function SkipSign(t: string): (u: string)
    ensures |t| > 0 && (t[0] == '-' || t[0] == '+') ==> u == t[1..]
    ensures !(|t| > 0 && (t[0] == '-' || t[0] == '+')) ==> u == t
  {
    if |t| > 0 && (t[0] == '-' || t[0] == '+') then t[1..] else t
  }

  /** The digit run of `d + t` is exactly `d` when `t` does not go on
      with a digit. */
  lemma {:induction false} LeadingDigitsPrefix(d: string, t: string)
    requires AllDigits(d)
    requires t == [] || !IsDigit(t[0])
    ensures LeadingDigits(d + t) == |d|
    decreases |d|
  {
    if |d| > 0 {
      assert (d + t)[1..] == d[1..] + t;
      LeadingDigitsPrefix(d[1..], t);
    } else {
      assert d + t == t;
    }
  }

  /** A string that opens with the digit run `d` reads as the value of
      `d`. */
  lemma ParseIntDigits(s: string, d: string)
    requires |d| > 0 && LeadingDigits(s) == |d| && s[..|d|] == d
    ensures ParseInt(s) == Some(DigitsValue(d))
  {
    assert !IsSpace(s[0]) && s[0] != '-' && s[0] != '+';
    assert LeadingSpaces(s) == 0;
    assert s[0..] == s;
  }

  /** Digits followed by text that does not go on with a digit read as
      the digits' value. */
  lemma ParseIntUnsigned(d: string, t: string)
    requires |d| >= 1 && AllDigits(d)
    requires t == [] || !IsDigit(t[0])
    ensures ParseInt(d + t) == Some(DigitsValue(d))
  {
    assert LeadingDigits(d + t) == |d| && (d + t)[..|d|] == d by {
      LeadingDigitsPrefix(d, t);
    }
    ParseIntDigits(d + t, d);
  }

  /** A minus sign followed by the digit run `d` reads as minus the
      value of `d`. */
  lemma ParseIntMinus(s: string, d: string)
    requires |s| > 0 && s[0] == '-' && |d| > 0
    requires LeadingDigits(s[1..]) == |d| && s[1..][..|d|] == d
    ensures ParseInt(s) == Some(-(DigitsValue(d) as int))
  {
    assert LeadingSpaces(s) == 0;
    assert s[0..] == s;
  }

  /** A minus sign, then digits, then text that does not go on with a
      digit, reads as minus the digits' value. */
  lemma ParseIntNegative(d: string, t: string)
    requires |d| >= 1 && AllDigits(d)
    requires t == [] || !IsDigit(t[0])
    ensures ParseInt(['-'] + d + t) == Some(-(DigitsValue(d) as int))
  {
    var s := ['-'] + d + t;
    assert s[0] == '-' && LeadingDigits(s[1..]) == |d| && s[1..][..|d|] == d by {
      var u := d + t;
      assert s == ['-'] + u;
      assert s[1..] == u;
      LeadingDigitsPrefix(d, t);
      assert u[..|d|] == d;
    }
    ParseIntMinus(s, d);
  }

  /** The decimal `parseInt` reads a printed integer back as that integer
      even when other text follows it, as long as that text does not start
      with a digit: "2019 - 2021" reads as 2019. */
  lemma ParseIntPrefix(n: int, t: string)
    requires t == [] || !IsDigit(t[0])
    ensures ParseInt(IntToDecimal(n) + t) == Some(n)
  {
    if n < 0 {
      var d := NatToDecimal(-n);
      ParseIntNegative(d, t);
      assert IntToDecimal(n) == ['-'] + d;
    } else {
      ParseIntUnsigned(NatToDecimal(n), t);
    }
  }

  /** Reading back the printed form of an integer gives the integer. */
  lemma ParseIntToDecimal(n: int)
    ensures ParseInt(IntToDecimal(n)) == Some(n)
  {
    ParseIntPrefix(n, []);
    assert IntToDecimal(n) + [] == IntToDecimal(n);
  }
}
