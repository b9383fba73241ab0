/** Spreadsheet column letters (`letter2num`): bijective base-26 numerals with
    A = 1 ... Z = 26, AA = 27, shifted down by one for zero-based indexing. */
module Columns {
  import opened Text

  /** `ord(ch) - 64`: the value the source gives one letter (A = 1). */
  function LetterValue(c: char): int { c as int - 64 }

  function Pow26(n: nat): nat {
    if n == 0 then 1 else 26 * Pow26(n - 1)
  }

  /** What the source's loop adds up: every letter's value weighted by 26 to the
      power of its distance from the last letter. */
  function PositionalSum(s: string): int
    decreases |s|
  {
    if |s| == 0 then 0 else LetterValue(s[0]) * Pow26(|s| - 1) + PositionalSum(s[1..])
  }

  /** The reference reading of a column name: a bijective base-26 numeral,
      most significant letter first. */
  function Bijective26(s: string): (n: int)
    ensures |s| >= 1 && AllUpper(s) ==> n >= 1
    decreases |s|
  {
    if |s| == 0 then 0 else Bijective26(s[..|s| - 1]) * 26 + LetterValue(s[|s| - 1])
  }

  /** Moving the base out of a product: the arithmetic step of the next proof. */
  lemma ScaleBy26(x: int, p: int, b: int, d: int)
    ensures (x * p + b) * 26 + d == x * (p * 26) + (b * 26 + d)
  {
  }

  lemma {:induction false} Bijective26Prepend(c: char, t: string)
    ensures Bijective26([c] + t) == LetterValue(c) * Pow26(|t|) + Bijective26(t)
    decreases |t|
  {
    if |t| == 0 {
      assert ([c] + t)[..0] == [];
    } else {
      var u := t[..|t| - 1];
      var s := [c] + t;
      assert s[..|s| - 1] == [c] + u;
      assert s[|s| - 1] == t[|t| - 1];
      var d := LetterValue(t[|t| - 1]);
      assert Bijective26(s) == Bijective26([c] + u) * 26 + d;
      Bijective26Prepend(c, u);
      var x, p, b := LetterValue(c), Pow26(|u|), Bijective26(u);
      assert Bijective26(s) == (x * p + b) * 26 + d;
      ScaleBy26(x, p, b, d);
      assert Pow26(|t|) == p * 26;
      assert Bijective26(t) == b * 26 + d;
    }
  }

  lemma {:induction false} PositionalSumIsBijective26(s: string)
    ensures PositionalSum(s) == Bijective26(s)
    decreases |s|
  {
    if |s| > 0 {
      assert s == [s[0]] + s[1..];
      Bijective26Prepend(s[0], s[1..]);
      PositionalSumIsBijective26(s[1..]);
    }
  }

  /** `letter2num(letters, zbase)`: the letters are upper-cased, summed
      positionally, and shifted down by one unless `zbase` is false. The result
      is the bijective base-26 value of the upper-cased letters, less one when
      zero-based. */
  function Letter2Num(letters: string, zbase: bool): (r: int)
    ensures r == Bijective26(Upper(letters)) - (if zbase then 1 else 0)
  {
    var u := Upper(letters);
    var res := PositionalSum(u);
    PositionalSumIsBijective26(u);
    if !zbase then res else res - 1
  }

  /** The inverse direction: repeated division by 26 recovers the letters of a
      positive column number. */
  function ColumnLetters(n: int): (s: string)
    requires n >= 1
    ensures |s| >= 1 && AllUpper(s)
    decreases n
  {
    if n <= 26 then [(64 + n) as char]
    else ColumnLetters((n - 1) / 26) + [(65 + (n - 1) % 26) as char]
  }

  lemma {:induction false} ColumnLettersOfBijective26(s: string)
    requires |s| >= 1 && AllUpper(s)
    ensures ColumnLetters(Bijective26(s)) == s
    decreases |s|
  {
    var p := s[..|s| - 1];
    var d := LetterValue(s[|s| - 1]);
    assert 1 <= d <= 26;
    if |p| == 0 {
      assert Bijective26(s) == d;
      assert s == [s[0]];
    } else {
      var n := Bijective26(s);
      assert n == Bijective26(p) * 26 + d;
      assert n - 1 == Bijective26(p) * 26 + (d - 1);
      assert (n - 1) / 26 == Bijective26(p);
      assert (n - 1) % 26 == d - 1;
      ColumnLettersOfBijective26(p);
      assert s == p + [s[|s| - 1]];
    }
  }

  lemma {:induction false} Bijective26OfColumnLetters(n: int)
    requires n >= 1
    ensures Bijective26(ColumnLetters(n)) == n
    decreases n
  {
    var s := ColumnLetters(n);
    if n <= 26 {
      assert s[..0] == [];
    } else {
      var q := (n - 1) / 26;
      assert s[..|s| - 1] == ColumnLetters(q);
      Bijective26OfColumnLetters(q);
    }
  }

  /** Round trip: repeated base-26 division of a column name's number gives the
      name back, and the letters of a positive number read back as that number. */
  lemma ColumnRoundTrip(s: string, n: int)
    requires |s| >= 1 && AllUpper(s)
    requires n >= 1
    ensures ColumnLetters(Letter2Num(s, false)) == s
    ensures ColumnLetters(Letter2Num(s, true) + 1) == s
    ensures Letter2Num(ColumnLetters(n), false) == n
  {
    assert Upper(s) == s;
    assert Letter2Num(s, false) == Bijective26(s);
    ColumnLettersOfBijective26(s);
    var t := ColumnLetters(n);
    assert Upper(t) == t;
    assert Letter2Num(t, false) == Bijective26(t);
    Bijective26OfColumnLetters(n);
  }

  /** Distinct upper-case column names never collide, and every name is at
      least column 1 (zero-based: at least index 0). */
  lemma Letter2NumInjective(a: string, b: string, zbase: bool)
    requires |a| >= 1 && AllUpper(a)
    requires |b| >= 1 && AllUpper(b)
    ensures Letter2Num(a, false) >= 1 && Letter2Num(a, true) >= 0
    ensures Letter2Num(a, zbase) == Letter2Num(b, zbase) ==> a == b
  {
    assert Upper(a) == a && Upper(b) == b;
    var na, nb := Bijective26(a), Bijective26(b);
    assert Letter2Num(a, false) == na && Letter2Num(b, false) == nb;
    if Letter2Num(a, zbase) == Letter2Num(b, zbase) {
      assert na == nb;
      ColumnLettersOfBijective26(a);
      ColumnLettersOfBijective26(b);
    }
  }

  /** The docstring's values (A is 1 and C is 3, one-based), with A as 0
      zero-based, Z as 26, AA as 27, and lower case read as upper case. */
  lemma Letter2NumExamples()
    ensures Letter2Num("A", true) == 0
    ensures Letter2Num("A", false) == 1
    ensures Letter2Num("C", false) == 3
    ensures Letter2Num("Z", false) == 26
    ensures Letter2Num("AA", false) == 27
    ensures Letter2Num("ae", true) == Letter2Num("AE", true) == 30
  {
    assert Upper("A") == "A";
    assert Upper("C") == "C";
    assert Upper("Z") == "Z";
    assert Upper("AA") == "AA";
    assert Upper("ae") == "AE";
    assert Upper("AE") == "AE";
    assert "AA"[..1] == "A";
    assert "AE"[..1] == "A";
  }
}
