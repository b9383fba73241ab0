/** The Python string operations the record layer relies on, restricted to ASCII:
    `upper`, `lower`, `title`, `strip`, `split` with an explicit separator,
    the `in` substring test, and `int(...)` applied to a string. */
module Text {
  import opened Results

  predicate IsUpper(c: char) { 'A' <= c <= 'Z' }

  predicate IsLower(c: char) { 'a' <= c <= 'z' }

  /** ASCII letters are the only cased characters of this model. */
  predicate IsAlpha(c: char) { IsUpper(c) || IsLower(c) }

  predicate IsDigit(c: char) { '0' <= c <= '9' }

  /** The ASCII characters for which Python's `str.isspace` holds. */
  predicate IsSpace(c: char) {
    c == ' ' || 9 <= c as int <= 13 || 28 <= c as int <= 31
  }

  predicate AllUpper(s: string) { forall i :: 0 <= i < |s| ==> IsUpper(s[i]) }

  predicate AllDigits(s: string) { forall i :: 0 <= i < |s| ==> IsDigit(s[i]) }

  predicate AllSpaces(s: string) { forall i :: 0 <= i < |s| ==> IsSpace(s[i]) }

  function ToLower(c: char): char {
    if IsUpper(c) then (c as int + 32) as char else c
  }

  function ToUpper(c: char): char {
    if IsLower(c) then (c as int - 32) as char else c
  }

  function Lower(s: string): string {
    seq(|s|, i requires 0 <= i < |s| => ToLower(s[i]))
  }

  function Upper(s: string): (r: string)
    ensures AllUpper(s) ==> r == s
  {
    seq(|s|, i requires 0 <= i < |s| => ToUpper(s[i]))
  }

  /** Lower-casing twice is lower-casing once. */
  lemma LowerIdempotent(s: string)
    ensures Lower(Lower(s)) == Lower(s)
  {
  }

  /** Lower-casing never creates or removes a character that is not a letter. */
  lemma LowerKeepsNonLetter(s: string, c: char)
    requires !IsAlpha(c)
    ensures c in Lower(s) <==> c in s
  {
    if c in Lower(s) {
      var i :| 0 <= i < |s| && Lower(s)[i] == c;
      assert s[i] == c;
    }
    if c in s {
      var i :| 0 <= i < |s| && s[i] == c;
      assert Lower(s)[i] == c;
    }
  }

  // ---------------------------------------------------------------------------
  // str.title()

  /** Python's `str.title`: a letter is upper-cased when the character before it
      is not cased, and lower-cased when it is. */
  function Title(s: string): string {
    TitleAfter(s, false)
  }

  function TitleAfter(s: string, afterCased: bool): (r: string)
    ensures |r| == |s|
    decreases |s|
  {
    if |s| == 0 then []
    else
      var c := s[0];
      var d := if IsAlpha(c) then (if afterCased then ToLower(c) else ToUpper(c)) else c;
      [d] + TitleAfter(s[1..], IsAlpha(c))
  }

  lemma {:induction false} TitleAfterIgnoresCase(s: string, afterCased: bool)
    ensures TitleAfter(Lower(s), afterCased) == TitleAfter(s, afterCased)
    decreases |s|
  {
    if |s| > 0 {
      assert Lower(s)[1..] == Lower(s[1..]);
      TitleAfterIgnoresCase(s[1..], IsAlpha(s[0]));
    }
  }

  /** Title-casing ignores the case of its input: two strings that agree after
      lower-casing title-case alike. */
  lemma TitleIgnoresCase(a: string, b: string)
    requires Lower(a) == Lower(b)
    ensures Title(a) == Title(b)
  {
    TitleAfterIgnoresCase(a, false);
    TitleAfterIgnoresCase(b, false);
  }

  lemma {:induction false} TitleAfterIdempotent(s: string, afterCased: bool)
    ensures TitleAfter(TitleAfter(s, afterCased), afterCased) == TitleAfter(s, afterCased)
    decreases |s|
  {
    if |s| > 0 {
      var t := TitleAfter(s, afterCased);
      assert t[1..] == TitleAfter(s[1..], IsAlpha(s[0]));
      assert IsAlpha(t[0]) == IsAlpha(s[0]);
      TitleAfterIdempotent(s[1..], IsAlpha(s[0]));
    }
  }

  lemma {:induction false} LowerOfTitleAfter(s: string, afterCased: bool)
    ensures Lower(TitleAfter(s, afterCased)) == Lower(s)
    decreases |s|
  {
    if |s| > 0 {
      var t := TitleAfter(s, afterCased);
      assert t[1..] == TitleAfter(s[1..], IsAlpha(s[0]));
      LowerOfTitleAfter(s[1..], IsAlpha(s[0]));
      assert Lower(t)[1..] == Lower(t[1..]);
      assert Lower(s)[1..] == Lower(s[1..]);
    }
  }

  /** Title-casing changes only the case of letters. */
  lemma LowerOfTitle(s: string)
    ensures Lower(Title(s)) == Lower(s)
  {
    LowerOfTitleAfter(s, false);
  }

  /** A title-cased string is its own title case. */
  lemma TitleIdempotent(s: string)
    ensures Title(Title(s)) == Title(s)
  {
    TitleAfterIdempotent(s, false);
  }

  // ---------------------------------------------------------------------------
  // str.split(sep) and its inverse, sep.join(parts)

  function Join(parts: seq<string>, sep: char): string
    decreases |parts|
  {
    if |parts| == 0 then ""
    else if |parts| == 1 then parts[0]
    else parts[0] + [sep] + Join(parts[1..], sep)
  }

  /** Python's `s.split(sep)` for a one-character separator: the pieces between
      separators, empty pieces included, so there is always at least one. */
  function Split(s: string, sep: char): (r: seq<string>)
    ensures |r| >= 1
    ensures forall i :: 0 <= i < |r| ==> sep !in r[i]
    ensures Join(r, sep) == s
    decreases |s|
  {
    if |s| == 0 then [""]
    else
      var rest := Split(s[1..], sep);
      if s[0] == sep then
        assert s == [sep] + s[1..];
        [""] + rest
      else
        var r := [[s[0]] + rest[0]] + rest[1..];
        assert r[1..] == rest[1..];
        assert |rest| > 1 ==> Join(rest, sep) == rest[0] + [sep] + Join(rest[1..], sep);
        assert s == [s[0]] + s[1..];
        r
  }

  lemma {:induction false} SplitSeparatorFreePrefix(p: string, t: string, sep: char)
    requires sep !in p
    ensures Split(p + t, sep) == [p + Split(t, sep)[0]] + Split(t, sep)[1..]
    decreases |p|
  {
    if |p| == 0 {
      assert p + t == t;
      var r := Split(t, sep);
      assert p + r[0] == r[0];
      assert r == [r[0]] + r[1..];
    } else {
      assert (p + t)[1..] == p[1..] + t;
      SplitSeparatorFreePrefix(p[1..], t, sep);
      assert [p[0]] + (p[1..] + Split(t, sep)[0]) == p + Split(t, sep)[0];
    }
  }

  /** Splitting undoes joining, for pieces that do not contain the separator. */
  lemma {:induction false} SplitJoin(parts: seq<string>, sep: char)
    requires |parts| >= 1
    requires forall i :: 0 <= i < |parts| ==> sep !in parts[i]
    ensures Split(Join(parts, sep), sep) == parts
    decreases |parts|
  {
    if |parts| == 1 {
      SplitSeparatorFreePrefix(parts[0], "", sep);
      assert parts[0] + "" == parts[0];
    } else {
      var tail := [sep] + Join(parts[1..], sep);
      assert Join(parts, sep) == parts[0] + tail;
      SplitSeparatorFreePrefix(parts[0], tail, sep);
      assert tail[1..] == Join(parts[1..], sep);
      SplitJoin(parts[1..], sep);
      assert parts[0] + "" == parts[0];
    }
  }

  // ---------------------------------------------------------------------------
  // Prefix spans, str.strip() and the substring test

  /** The length of the longest prefix of `s` whose characters all satisfy `p`. */
  function Span(s: string, p: char -> bool): (n: nat)
    ensures n <= |s|
    ensures forall i :: 0 <= i < n ==> p(s[i])
    ensures n < |s| ==> !p(s[n])
    decreases |s|
  {
    if |s| > 0 && p(s[0]) then 1 + Span(s[1..], p) else 0
  }

  /** A prefix of `p`-characters that `s` does not continue is the span. */
  lemma SpanIs(s: string, p: char -> bool, n: nat)
    requires n <= |s| && (forall i :: 0 <= i < n ==> p(s[i]))
    requires n == |s| || !p(s[n])
    ensures Span(s, p) == n
  {
  }

  /** The length of the longest suffix of `s` whose characters all satisfy `p`. */
  function SpanBack(s: string, p: char -> bool): (n: nat)
    ensures n <= |s|
    ensures forall i :: |s| - n <= i < |s| ==> p(s[i])
    ensures n < |s| ==> !p(s[|s| - n - 1])
    decreases |s|
  {
    if |s| > 0 && p(s[|s| - 1]) then 1 + SpanBack(s[..|s| - 1], p) else 0
  }

  /** Python's `str.strip()` with no argument: leading and trailing whitespace removed. */
  function Strip(s: string): (r: string)
    ensures |r| > 0 ==> !IsSpace(r[0]) && !IsSpace(r[|r| - 1])
    ensures var i := Span(s, IsSpace);
              && i + |r| <= |s| && s[i..i + |r|] == r
              && forall k :: i + |r| <= k < |s| ==> IsSpace(s[k])
    ensures |s| == 0 || (!IsSpace(s[0]) && !IsSpace(s[|s| - 1])) ==> r == s
  {
    var lead := Span(s, IsSpace);
    var rest := s[lead..];
    var trail := SpanBack(rest, IsSpace);
    var r := rest[..|rest| - trail];
    assert s[lead..lead + |r|] == r;
    r
  }

  /** Python's `needle in hay` for two strings. */
  predicate Contains(hay: string, needle: string) {
    exists i | 0 <= i <= |hay| - |needle| :: OccursAt(hay, needle, i)
  }

  predicate OccursAt(hay: string, needle: string, i: int) {
    0 <= i <= |hay| - |needle| && hay[i..i + |needle|] == needle
  }

  // ---------------------------------------------------------------------------
  // int(text)

  function DigitValue(c: char): int { c as int - '0' as int }

  /** The decimal value of a digit string, most significant digit first. */
  function DecimalValue(d: string): (n: int)
    ensures AllDigits(d) ==> n >= 0
    decreases |d|
  {
    if |d| == 0 then 0 else DecimalValue(d[..|d| - 1]) * 10 + DigitValue(d[|d| - 1])
  }

  /** Python's `int(text)` on a string: surrounding whitespace, an optional sign
      and at least one decimal digit; anything else is a `ValueError`. */
  function ParseInt(text: string): (r: Result<int>)
    ensures r.Err? ==> r.error == NotAnInteger(text)
    ensures r.Ok? <==> var t := Strip(text);
                       (|t| > 0 && AllDigits(t)) || (|t| > 1 && (t[0] == '-' || t[0] == '+') && AllDigits(t[1..]))
  {
    ReadStripped(Strip(text), text)
  }

  /** The rest of `int(text)` once the whitespace around `t` is gone; a failure
      names the original `text`. */
  function ReadStripped(t: string, text: string): Result<int> {
    if |t| > 0 && (t[0] == '-' || t[0] == '+') then
      var d := t[1..];
      if |d| > 0 && AllDigits(d) then
        Ok(if t[0] == '-' then -DecimalValue(d) else DecimalValue(d))
      else Err(NotAnInteger(text))
    else if |t| > 0 && AllDigits(t) then Ok(DecimalValue(t))
    else Err(NotAnInteger(text))
  }

  /** The canonical decimal rendering of a number (what a sheet shows for it). */
  function ShowNat(n: nat): (r: string)
    ensures |r| > 0 && AllDigits(r)
  {
    if n < 10 then [('0' as int + n) as char]
    else ShowNat(n / 10) + [('0' as int + n % 10) as char]
  }

  function ShowInt(n: int): string {
    if n < 0 then "-" + ShowNat(-n) else ShowNat(n)
  }

  lemma {:induction false} DecimalValueOfShowNat(n: nat)
    ensures DecimalValue(ShowNat(n)) == n
  {
    if n >= 10 {
      var s := ShowNat(n);
      assert s[..|s| - 1] == ShowNat(n / 10);
      DecimalValueOfShowNat(n / 10);
    }
  }

  /** `int(...)` reads back every number from its decimal rendering. */
  lemma ParseShowInt(n: int)
    ensures ParseInt(ShowInt(n)) == Ok(n)
  {
    var t := ShowInt(n);
    var m: nat := if n < 0 then -n else n;
    var d := ShowNat(m);
    assert IsDigit(d[0]) && IsDigit(d[|d| - 1]);
    assert t[|t| - 1] == d[|d| - 1];
    assert !IsSpace(t[0]) && !IsSpace(t[|t| - 1]);
    assert Strip(t) == t;
    DecimalValueOfShowNat(m);
    if n < 0 {
      assert t[0] == '-' && t[1..] == d;
    } else {
      assert t == d;
    }
  }

  /** `strip()` removes exactly the whitespace around a text that neither
      starts nor ends with whitespace. */
  lemma StripSurrounded(lead: string, core: string, trail: string)
    requires AllSpaces(lead) && AllSpaces(trail)
    requires |core| > 0 && !IsSpace(core[0]) && !IsSpace(core[|core| - 1])
    ensures Strip(lead + core + trail) == core
  {
    var text := lead + core + trail;
    var n := |lead|;
    assert forall k :: 0 <= k < n ==> text[k] == lead[k];
    assert text[n] == core[0];
    SpanIs(text, IsSpace, n);
    var r := Strip(text);
    assert text[n + |core| - 1] == core[|core| - 1];
    assert forall k :: n + |core| <= k < |text| ==> text[k] == trail[k - n - |core|];
    if |r| < |core| {
      assert false;
    }
    if |r| > |core| {
      assert false;
    }
    assert text[n..n + |core|] == core;
  }

  /** Python's `int()` of an optionally signed digit string with any whitespace
      around it: the sign and the digits decide the number. */
  lemma ParseIntReads(lead: string, sign: string, d: string, trail: string)
    requires AllSpaces(lead) && AllSpaces(trail)
    requires sign == "" || sign == "+" || sign == "-"
    requires |d| > 0 && AllDigits(d)
    ensures ParseInt(lead + sign + d + trail) == Ok(if sign == "-" then -DecimalValue(d) else DecimalValue(d))
  {
    var text := lead + sign + d + trail;
    RegroupMiddle(lead, sign, d, trail);
    assert IsDigit(d[|d| - 1]);
    StripSurrounded(lead, sign + d, trail);
    ReadSignedDigits(Strip(text), text, sign, d);
  }

  lemma RegroupMiddle(a: string, b: string, c: string, e: string)
    ensures a + b + c + e == a + (b + c) + e
  {
  }

  lemma ReadSignedDigits(t: string, text: string, sign: string, d: string)
    requires sign == "" || sign == "+" || sign == "-"
    requires |d| > 0 && AllDigits(d)
    requires t == sign + d
    ensures ReadStripped(t, text) == Ok(if sign == "-" then -DecimalValue(d) else DecimalValue(d))
  {
    if sign == "" {
      assert t == d && IsDigit(t[0]);
    } else {
      assert t[1..] == d;
    }
  }

  /** Leading zeros do not change a decimal value. */
  lemma {:induction false} DecimalValueLeadingZero(d: string)
    ensures DecimalValue("0" + d) == DecimalValue(d)
    decreases |d|
  {
    if |d| > 0 {
      var z := "0" + d;
      assert z[..|z| - 1] == "0" + d[..|d| - 1];
      assert z[|z| - 1] == d[|d| - 1];
      DecimalValueLeadingZero(d[..|d| - 1]);
    }
  }
}
