/** Column letters of a cell reference: bijective base 26 over 'A'..'Z',
    with column 0 written "A", 25 "Z", 26 "AA". */
module Columns {

  predicate IsUpper(c: char)
  {
    'A' <= c <= 'Z'
  }

  predicate AllUpper(s: string)
  {
    forall i :: 0 <= i < |s| ==> IsUpper(s[i])
  }

  /** The letters of zero-based column `col`; empty for a negative column. */
  function Letters(col: int): (s: string)
    ensures AllUpper(s)
    ensures s != [] <==> col >= 0
    decreases col + 1
  {
    if col < 0 then ""
    else Letters(col / 26 - 1) + [('A' as int + col % 26) as char]
  }

  /** The value of a bijective base-26 numeral: "" is 0, "A" is 1, "AA" 27. */
  function Value(s: string): nat
    requires AllUpper(s)
  {
    if s == [] then 0
    else Value(s[..|s| - 1]) * 26 + (s[|s| - 1] as int - 'A' as int + 1)
  }

  /** The zero-based column that a string of letters names. */
  function ColumnOf(s: string): (col: int)
    requires AllUpper(s)
    ensures col >= -1
    ensures col >= 0 <==> s != []
  {
    Value(s) - 1
  }

  lemma {:induction false} ValueOfLetters(col: int)
    requires col >= -1
    ensures Value(Letters(col)) == col + 1
    decreases col + 1
  {
    if col >= 0 {
      var q := col / 26 - 1;
      ValueOfLetters(q);
      var s := Letters(col);
      assert s[..|s| - 1] == Letters(q);
    }
  }

  /** Reading back the letters of a column gives the column. */
  lemma ColumnOfLetters(col: int)
    requires col >= 0
    ensures ColumnOf(Letters(col)) == col
  {
    ValueOfLetters(col);
  }

  /** Every string of capital letters is the letters of exactly its column. */
  lemma {:induction false} LettersOfColumn(s: string)
    requires AllUpper(s)
    ensures Letters(ColumnOf(s)) == s
    decreases |s|
  {
    if s != [] {
      var init := s[..|s| - 1];
      var d := s[|s| - 1] as int - 'A' as int;
      var col := ColumnOf(s);
      assert col == Value(init) * 26 + d;
      DigitSplit(Value(init), d);
      LettersOfColumn(init);
      assert ('A' as int + d) as char == s[|s| - 1];
      assert s == init + [s[|s| - 1]];
    }
  }

  lemma DigitSplit(v: nat, d: int)
    requires 0 <= d < 26
    ensures (v * 26 + d) % 26 == d && (v * 26 + d) / 26 == v
  {
  }

  /** Distinct columns never share their letters. */
  lemma LettersInjective(a: int, b: int)
    requires a >= 0 && b >= 0
    requires Letters(a) == Letters(b)
    ensures a == b
  {
    ColumnOfLetters(a);
    ColumnOfLetters(b);
  }

  lemma FirstColumns()
    ensures Letters(0) == "A" && Letters(25) == "Z"
    ensures Letters(26) == "AA" && Letters(27) == "AB"
    ensures Letters(701) == "ZZ" && Letters(702) == "AAA"
  {
    assert Letters(0) == "A";
    assert Letters(25) == "Z";
    assert Letters(26) == Letters(0) + "A";
    assert Letters(27) == Letters(0) + "B";
    assert Letters(701) == Letters(25) + "Z";
    assert Letters(702) == Letters(26) + "A";
  }

  /** XLSheet::columnNumberToLetter: prepend one letter per base-26 digit,
      least significant first. */
  method ColumnNumberToLetter(col: int) returns (result: string)
    ensures result == Letters(col)
  {
    result := "";
    var c := col;
    while c >= 0
      invariant c >= -1 || (c == col && result == "")
      invariant Letters(col) == Letters(c) + result
      decreases c + 1
    {
      result := [('A' as int + c % 26) as char] + result;
      c := c / 26 - 1;
    }
  }
}
