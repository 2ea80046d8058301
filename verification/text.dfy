/** The pieces of Python's string handling the parsers and the progress
    counter rely on: `str.split` with a one-character separator, the
    substring test `sub in s`, `str(n)` of a natural number and `int(s)`. */
module Text {
  import opened Outcome

  /** `sep.join(parts)`. */
  function Join(parts: seq<string>, sep: char): string
    requires |parts| >= 1
  {
    if |parts| == 1 then parts[0] else parts[0] + [sep] + Join(parts[1..], sep)
  }

  /** `s.split(sep)`: the maximal separator-free pieces of `s`, so that
      gluing them back with `sep` gives `s` again; there is always at least
      one piece, and exactly one iff `sep` does not occur in `s`. */
  function Split(s: string, sep: char): (parts: seq<string>)
    ensures |parts| >= 1
    ensures forall i :: 0 <= i < |parts| ==> sep !in parts[i]
    ensures Join(parts, sep) == s
    ensures |parts| == 1 <==> sep !in s
    decreases |s|
  {
    if |s| == 0 then [""]
    else
      var rest := Split(s[1..], sep);
      if s[0] == sep then
        assert s == [sep] + s[1..];
        [""] + rest
      else
        var parts := [[s[0]] + rest[0]] + rest[1..];
        assert parts[1..] == rest[1..];
        assert s == [s[0]] + s[1..];
        parts
  }

  lemma {:induction false} SplitWithoutSeparator(s: string, sep: char)
    requires sep !in s
    ensures Split(s, sep) == [s]
  {
  }

  lemma {:induction false} SplitAfterPiece(a: string, b: string, sep: char)
    requires sep !in a
    ensures Split(a + [sep] + b, sep) == [a] + Split(b, sep)
    decreases |a|
  {
    var s := a + [sep] + b;
    if |a| == 0 {
      assert s[1..] == b;
    } else {
      assert s[1..] == a[1..] + [sep] + b;
      SplitAfterPiece(a[1..], b, sep);
      var rest := Split(s[1..], sep);
      assert rest[0] == a[1..] && rest[1..] == Split(b, sep);
      assert s[0] == a[0] != sep;
      assert Split(s, sep) == [[a[0]] + rest[0]] + rest[1..];
      assert [a[0]] + a[1..] == a;
    }
  }

  /** Splitting undoes joining, as long as no piece holds the separator. */
  lemma {:induction false} SplitJoin(parts: seq<string>, sep: char)
    requires |parts| >= 1
    requires forall i :: 0 <= i < |parts| ==> sep !in parts[i]
    ensures Split(Join(parts, sep), sep) == parts
    decreases |parts|
  {
    if |parts| == 1 {
      SplitWithoutSeparator(parts[0], sep);
    } else {
      SplitJoin(parts[1..], sep);
      SplitAfterPiece(parts[0], Join(parts[1..], sep), sep);
      assert [parts[0]] + parts[1..] == parts;
    }
  }

  /** Python's `sub in s` on strings. */
  predicate Contains(s: string, sub: string) {
    exists i :: 0 <= i <= |s| - |sub| && OccursAt(s, sub, i)
  }

  predicate OccursAt(s: string, sub: string, i: int) {
    0 <= i <= |s| - |sub| && s[i..i + |sub|] == sub
  }

  predicate IsDigit(c: char) {
    '0' <= c <= '9'
  }

  predicate AllDigits(s: string) {
    forall i :: 0 <= i < |s| ==> IsDigit(s[i])
  }

  /** The characters `int()` strips from both ends: those `str.isspace`
      accepts, the ASCII ones (tab to carriage return, the four separators
      0x1C to 0x1F and the space) and the Unicode spaces and line breaks. */
  predicate IsSpace(c: char) {
    var n := c as int;
    || 0x09 <= n <= 0x0D || 0x1C <= n <= 0x20
    || n == 0x85 || n == 0xA0 || n == 0x1680 || 0x2000 <= n <= 0x200A
    || n == 0x2028 || n == 0x2029 || n == 0x202F || n == 0x205F || n == 0x3000
  }

  function DigitChar(d: nat): (c: char)
    requires d < 10
    ensures IsDigit(c) && c as int - '0' as int == d
  {
    (d + '0' as int) as char
  }

  /** The number a nonempty all-digit string denotes in base 10. */
  function DigitsValue(s: string): nat
    requires forall i :: 0 <= i < |s| ==> IsDigit(s[i])
  {
    if |s| == 0 then 0
    else
      assert IsDigit(s[|s| - 1]);
      DigitsValue(s[..|s| - 1]) * 10 + (s[|s| - 1] as int - '0' as int)
  }

  /** `str(n)` for a natural number: its decimal digits. */
  function ToDecimal(n: nat): (s: string)
    ensures |s| >= 1
    ensures forall i :: 0 <= i < |s| ==> IsDigit(s[i])
    ensures DigitsValue(s) == n
    ensures s[0] == '0' <==> n == 0
    decreases n
  {
    if n < 10 then [DigitChar(n)]
    else
      var s := ToDecimal(n / 10) + [DigitChar(n % 10)];
      assert s[..|s| - 1] == ToDecimal(n / 10);
      s
  }

  function TrimStart(s: string): (t: string)
    ensures |t| <= |s|
  {
    if |s| > 0 && IsSpace(s[0]) then TrimStart(s[1..]) else s
  }

  function TrimEnd(s: string): (t: string)
    ensures |t| <= |s|
  {
    if |s| > 0 && IsSpace(s[|s| - 1]) then TrimEnd(s[..|s| - 1]) else s
  }

  /** `int(s)` for a string: surrounding whitespace is ignored, then an
      optional sign and at least one decimal digit; anything else is a
      `ValueError`. */
  function ParseInt(s: string): (r: Result<int>)
    ensures r.Err? ==> r.error == ValueError
    ensures |s| > 0 && AllDigits(s) ==> r == Ok(DigitsValue(s))
    ensures (forall i :: 0 <= i < |s| ==> IsSpace(s[i])) ==> r == Err(ValueError)
  {
    TrimFacts(s);
    var t := TrimEnd(TrimStart(s));
    var negative := |t| > 0 && t[0] == '-';
    var digits := if |t| > 0 && (t[0] == '-' || t[0] == '+') then t[1..] else t;
    if |digits| == 0 || !AllDigits(digits) then Err(ValueError)
    else
      var magnitude: int := DigitsValue(digits);
      Ok(if negative then -magnitude else magnitude)
  }

  /** `int(str(n)) == n`. */
  lemma DecimalRoundTrip(n: nat)
    ensures ParseInt(ToDecimal(n)) == Ok(n)
  {
    var s := ToDecimal(n);
    assert !IsSpace(s[0]) && !IsSpace(s[|s| - 1]);
    assert TrimStart(s) == s;
    assert TrimEnd(s) == s;
  }

  /** Digits alone trim to themselves; whitespace alone trims to nothing. */
  lemma TrimFacts(s: string)
    ensures |s| > 0 && AllDigits(s) ==> TrimEnd(TrimStart(s)) == s
    ensures (forall i :: 0 <= i < |s| ==> IsSpace(s[i])) ==> TrimStart(s) == []
  {
    if |s| > 0 && AllDigits(s) {
      assert !IsSpace(s[0]) && !IsSpace(s[|s| - 1]);
    }
    if forall i :: 0 <= i < |s| ==> IsSpace(s[i]) {
      TrimBlank(s);
    }
  }

  /** A string of whitespace only trims to nothing. */
  lemma {:induction false} TrimBlank(s: string)
    requires forall i :: 0 <= i < |s| ==> IsSpace(s[i])
    ensures TrimStart(s) == []
  {
    if |s| > 0 {
      TrimBlank(s[1..]);
    }
  }

  /** `int()` ignores one more whitespace character on either side. */
  lemma ParseIntIgnoresSpace(s: string, c: char)
    requires IsSpace(c)
    ensures ParseInt([c] + s) == ParseInt(s)
    ensures ParseInt(s + [c]) == ParseInt(s)
  {
    ParseIntLeadingSpace(s, c);
    ParseIntTrailingSpace(s, c);
  }

  lemma ParseIntLeadingSpace(s: string, c: char)
    requires IsSpace(c)
    ensures ParseInt([c] + s) == ParseInt(s)
  {
    LeadingSpace(s, c);
    assert TrimEnd(TrimStart([c] + s)) == TrimEnd(TrimStart(s));
  }

  lemma ParseIntTrailingSpace(s: string, c: char)
    requires IsSpace(c)
    ensures ParseInt(s + [c]) == ParseInt(s)
  {
    TrimSpaceEnd(s, c);
  }

  lemma LeadingSpace(s: string, c: char)
    requires IsSpace(c)
    ensures TrimStart([c] + s) == TrimStart(s)
  {
    assert ([c] + s)[1..] == s;
  }

  /** Trimming the start of `s + [c]` for a whitespace `c` and then its end
      gives what trimming `s` gives. */
  lemma {:induction false} TrimSpaceEnd(s: string, c: char)
    requires IsSpace(c)
    ensures TrimEnd(TrimStart(s + [c])) == TrimEnd(TrimStart(s))
    decreases |s|
  {
    if |s| == 0 {
      assert TrimStart([c]) == TrimStart([c][1..]);
    } else if IsSpace(s[0]) {
      assert (s + [c])[1..] == s[1..] + [c];
      TrimSpaceEnd(s[1..], c);
    } else {
      var t := s + [c];
      assert TrimStart(t) == t && TrimStart(s) == s;
      assert t[..|t| - 1] == s;
    }
  }

  /** `int("-" + str(n)) == -n`. */
  lemma NegativeRoundTrip(n: nat)
    ensures ParseInt(['-'] + ToDecimal(n)) == Ok(-(n as int))
  {
    var d := ToDecimal(n);
    var s := ['-'] + d;
    assert TrimEnd(TrimStart(s)) == s by {
      assert !IsSpace(s[0]);
      assert TrimStart(s) == s;
      assert s[|s| - 1] == d[|d| - 1];
      assert !IsSpace(s[|s| - 1]);
    }
    assert s[1..] == d;
  }
}
