/**
 * The cases of `test_comma_separated_iterator` (src/lib.rs), and how the
 * scanner treats empty pieces. A test value is first described character
 * by character, so that the scanning proofs work on that description and
 * not on the literal.
 */
module TokenizerTests {
  import opened Tokenizer

  /** The first test value: `abc,def, ghi,<tab>jkl , mno,<tab>pqr`. */
  predicate PlainShape(x: string) {
    |x| == 28 &&
    x[0] == 'a' && x[1] == 'b' && x[2] == 'c' && x[3] == ',' &&
    x[4] == 'd' && x[5] == 'e' && x[6] == 'f' && x[7] == ',' &&
    x[8] == ' ' && x[9] == 'g' && x[10] == 'h' && x[11] == 'i' && x[12] == ',' &&
    x[13] == '\t' && x[14] == 'j' && x[15] == 'k' && x[16] == 'l' && x[17] == ' ' && x[18] == ',' &&
    x[19] == ' ' && x[20] == 'm' && x[21] == 'n' && x[22] == 'o' && x[23] == ',' &&
    x[24] == '\t' && x[25] == 'p' && x[26] == 'q' && x[27] == 'r'
  }

  /* The literal is unfolded a few characters at a time; one lemma for all of it is too costly. */
  lemma PlainChars1(x: string)
    requires x == "abc,def, ghi,\tjkl , mno,\tpqr"
    ensures |x| == 28
    ensures x[0] == 'a' && x[1] == 'b' && x[2] == 'c' && x[3] == ','
  {
  }

  lemma PlainChars2(x: string)
    requires x == "abc,def, ghi,\tjkl , mno,\tpqr"
    ensures x[4] == 'd' && x[5] == 'e' && x[6] == 'f' && x[7] == ','
  {
  }

  lemma PlainChars3(x: string)
    requires x == "abc,def, ghi,\tjkl , mno,\tpqr"
    ensures x[8] == ' ' && x[9] == 'g' && x[10] == 'h' && x[11] == 'i' && x[12] == ','
  {
  }

  lemma PlainChars4(x: string)
    requires x == "abc,def, ghi,\tjkl , mno,\tpqr"
    ensures x[13] == '\t' && x[14] == 'j' && x[15] == 'k' && x[16] == 'l' && x[17] == ' ' && x[18] == ','
  {
  }

  lemma PlainChars5(x: string)
    requires x == "abc,def, ghi,\tjkl , mno,\tpqr"
    ensures x[19] == ' ' && x[20] == 'm' && x[21] == 'n' && x[22] == 'o' && x[23] == ','
  {
  }

  lemma PlainChars6(x: string)
    requires x == "abc,def, ghi,\tjkl , mno,\tpqr"
    ensures x[24] == '\t' && x[25] == 'p' && x[26] == 'q' && x[27] == 'r'
  {
  }

  lemma PlainShapeHolds(x: string)
    requires x == "abc,def, ghi,\tjkl , mno,\tpqr"
    ensures PlainShape(x)
  {
    PlainChars1(x);
    PlainChars2(x);
    PlainChars3(x);
    PlainChars4(x);
    PlainChars5(x);
    PlainChars6(x);
  }

  lemma PlainExampleSpansTail(x: string)
    requires PlainShape(x)
    ensures Scan(x, 13, Default, 9) == [Span(14, 18), Span(20, 23), Span(25, 28)]
  {
    var t6 := Scan(x, 24, Default, 20);
    assert t6 == [Span(25, 28)] by { BlankRun(x, 24, 25, 20); TokenRun(x, 26, 28, 25); }
    var t5 := Scan(x, 19, Default, 14);
    assert t5 == [Span(20, 23)] + t6 by { BlankRun(x, 19, 20, 14); TokenRun(x, 21, 23, 20); }
    assert Scan(x, 13, Default, 9) == [Span(14, 18)] + t5 by { BlankRun(x, 13, 14, 9); TokenRun(x, 15, 18, 14); }
  }

  lemma PlainExampleSpansMid(x: string)
    requires PlainShape(x)
    ensures Scan(x, 4, Default, 0) == [Span(4, 7), Span(9, 12), Span(14, 18), Span(20, 23), Span(25, 28)]
  {
    var t4 := Scan(x, 13, Default, 9);
    PlainExampleSpansTail(x);
    var t3 := Scan(x, 8, Default, 4);
    assert t3 == [Span(9, 12)] + t4 by { BlankRun(x, 8, 9, 4); TokenRun(x, 10, 12, 9); }
    assert Scan(x, 4, Default, 0) == [Span(4, 7)] + t3 by { TokenRun(x, 5, 7, 4); }
  }

  lemma PlainExampleSpans(x: string)
    requires PlainShape(x)
    ensures Spans(x) == [Span(0, 3), Span(4, 7), Span(9, 12), Span(14, 18), Span(20, 23), Span(25, 28)]
  {
    PlainExampleSpansMid(x);
    assert Spans(x) == [Span(0, 3)] + Scan(x, 4, Default, 0) by { TokenRun(x, 1, 3, 0); }
  }

  lemma PlainSlices(x: string)
    requires PlainShape(x)
    ensures x[0..3] == "abc" && x[4..7] == "def" && x[9..12] == "ghi"
    ensures x[14..18] == "jkl " && x[20..23] == "mno" && x[25..28] == "pqr"
  {
  }

  /** Leading blanks are dropped, trailing ones are kept. */
  lemma PlainExample()
    ensures Tokens("abc,def, ghi,\tjkl , mno,\tpqr") == ["abc", "def", "ghi", "jkl ", "mno", "pqr"]
  {
    var x := "abc,def, ghi,\tjkl , mno,\tpqr";
    PlainShapeHolds(x);
    PlainExampleSpans(x);
    assert Tokens(x) == [x[0..3], x[4..7], x[9..12], x[14..18], x[20..23], x[25..28]];
    PlainSlices(x);
  }

  /** The second test value: `abc,"def", "ghi",<tab>"jkl" , "mno",<tab>pqr`. */
  predicate QuotedShape(x: string) {
    |x| == 36 &&
    x[0] == 'a' && x[1] == 'b' && x[2] == 'c' && x[3] == ',' &&
    x[4] == '"' && x[5] == 'd' && x[6] == 'e' && x[7] == 'f' && x[8] == '"' && x[9] == ',' &&
    x[10] == ' ' && x[11] == '"' && x[12] == 'g' && x[13] == 'h' && x[14] == 'i' && x[15] == '"' && x[16] == ',' &&
    x[17] == '\t' && x[18] == '"' && x[19] == 'j' && x[20] == 'k' && x[21] == 'l' && x[22] == '"' &&
    x[23] == ' ' && x[24] == ',' &&
    x[25] == ' ' && x[26] == '"' && x[27] == 'm' && x[28] == 'n' && x[29] == 'o' && x[30] == '"' && x[31] == ',' &&
    x[32] == '\t' && x[33] == 'p' && x[34] == 'q' && x[35] == 'r'
  }

  lemma QuotedChars1(x: string)
    requires x == "abc,\"def\", \"ghi\",\t\"jkl\" , \"mno\",\tpqr"
    ensures |x| == 36
    ensures x[0] == 'a' && x[1] == 'b' && x[2] == 'c' && x[3] == ','
  {
  }

  lemma QuotedChars2(x: string)
    requires x == "abc,\"def\", \"ghi\",\t\"jkl\" , \"mno\",\tpqr"
    ensures x[4] == '"' && x[5] == 'd' && x[6] == 'e' && x[7] == 'f' && x[8] == '"' && x[9] == ','
  {
  }

  lemma QuotedChars3(x: string)
    requires x == "abc,\"def\", \"ghi\",\t\"jkl\" , \"mno\",\tpqr"
    ensures x[10] == ' ' && x[11] == '"' && x[12] == 'g' && x[13] == 'h' && x[14] == 'i' && x[15] == '"' && x[16] == ','
  {
  }

  lemma QuotedChars4(x: string)
    requires x == "abc,\"def\", \"ghi\",\t\"jkl\" , \"mno\",\tpqr"
    ensures x[17] == '\t' && x[18] == '"' && x[19] == 'j' && x[20] == 'k' && x[21] == 'l' && x[22] == '"' && x[23] == ' ' && x[24] == ','
  {
  }

  lemma QuotedChars5(x: string)
    requires x == "abc,\"def\", \"ghi\",\t\"jkl\" , \"mno\",\tpqr"
    ensures x[25] == ' ' && x[26] == '"' && x[27] == 'm' && x[28] == 'n' && x[29] == 'o' && x[30] == '"' && x[31] == ','
  {
  }

  lemma QuotedChars6(x: string)
    requires x == "abc,\"def\", \"ghi\",\t\"jkl\" , \"mno\",\tpqr"
    ensures x[32] == '\t' && x[33] == 'p' && x[34] == 'q' && x[35] == 'r'
  {
  }

  lemma QuotedShapeHolds(x: string)
    requires x == "abc,\"def\", \"ghi\",\t\"jkl\" , \"mno\",\tpqr"
    ensures QuotedShape(x)
  {
    QuotedChars1(x);
    QuotedChars2(x);
    QuotedChars3(x);
    QuotedChars4(x);
    QuotedChars5(x);
    QuotedChars6(x);
  }

  lemma QuotedExampleSpansTail(x: string)
    requires QuotedShape(x)
    ensures Scan(x, 17, Default, 11) == [Span(18, 23), Span(26, 31), Span(33, 36)]
  {
    var t6 := Scan(x, 32, Default, 26);
    assert t6 == [Span(33, 36)] by { BlankRun(x, 32, 33, 26); TokenRun(x, 34, 36, 33); }
    var t5 := Scan(x, 25, Default, 18);
    assert t5 == [Span(26, 31)] + t6 by {
      BlankRun(x, 25, 26, 18);
      QuotedRun(x, 27, 30, 26);
      PostambleRun(x, 31, 31, 26);
    }
    assert Scan(x, 17, Default, 11) == [Span(18, 23)] + t5 by {
      BlankRun(x, 17, 18, 11);
      QuotedRun(x, 19, 22, 18);
      PostambleRun(x, 23, 24, 18);
    }
  }

  lemma QuotedExampleSpansMid(x: string)
    requires QuotedShape(x)
    ensures Scan(x, 4, Default, 0) == [Span(4, 9), Span(11, 16), Span(18, 23), Span(26, 31), Span(33, 36)]
  {
    var t4 := Scan(x, 17, Default, 11);
    QuotedExampleSpansTail(x);
    var t3 := Scan(x, 10, Default, 4);
    assert t3 == [Span(11, 16)] + t4 by {
      BlankRun(x, 10, 11, 4);
      QuotedRun(x, 12, 15, 11);
      PostambleRun(x, 16, 16, 11);
    }
    assert Scan(x, 4, Default, 0) == [Span(4, 9)] + t3 by {
      QuotedRun(x, 5, 8, 4);
      PostambleRun(x, 9, 9, 4);
    }
  }

  lemma QuotedExampleSpans(x: string)
    requires QuotedShape(x)
    ensures Spans(x) == [Span(0, 3), Span(4, 9), Span(11, 16), Span(18, 23), Span(26, 31), Span(33, 36)]
  {
    QuotedExampleSpansMid(x);
    assert Spans(x) == [Span(0, 3)] + Scan(x, 4, Default, 0) by { TokenRun(x, 1, 3, 0); }
  }

  lemma QuotedSlices(x: string)
    requires QuotedShape(x)
    ensures x[0..3] == "abc" && x[4..9] == "\"def\"" && x[11..16] == "\"ghi\""
    ensures x[18..23] == "\"jkl\"" && x[26..31] == "\"mno\"" && x[33..36] == "pqr"
  {
  }

  /** Quoted tokens keep their quotes; what follows the closing quote is dropped. */
  lemma QuotedExample()
    ensures Tokens("abc,\"def\", \"ghi\",\t\"jkl\" , \"mno\",\tpqr") ==
      ["abc", "\"def\"", "\"ghi\"", "\"jkl\"", "\"mno\"", "pqr"]
  {
    var x := "abc,\"def\", \"ghi\",\t\"jkl\" , \"mno\",\tpqr";
    QuotedShapeHolds(x);
    QuotedExampleSpans(x);
    assert Tokens(x) == [x[0..3], x[4..9], x[11..16], x[18..23], x[26..31], x[33..36]];
    QuotedSlices(x);
  }

  /**
   * A comma with no token before it yields an empty token, while a comma
   * that ends the input yields none; an empty value has no tokens.
   */
  lemma EmptyPieces()
    ensures Tokens("") == []
    ensures Tokens(",") == [""]
    ensures Tokens(",a") == ["", "a"]
    ensures Tokens("a,") == ["a"]
  {
    assert Spans(",") == [Span(0, 0)];
    var x := ",a";
    assert Spans(x) == [Span(0, 0), Span(1, 2)];
    assert x[1..2] == "a";
    var y := "a,";
    assert Spans(y) == [Span(0, 1)];
    assert y[0..1] == "a";
  }

  /**
   * At the end of input an unterminated quoted token is flushed once,
   * whether or not it ends in a backslash; after a closing quote nothing
   * more is emitted.
   */
  lemma QuotedEndOfInput()
    ensures Tokens("\"ab") == ["\"ab"]
    ensures Tokens("\"a\\") == ["\"a\\"]
    ensures Tokens("\"a\"b") == ["\"a\""]
    ensures Tokens("\"a\",") == ["\"a\""]
  {
    var x := "\"ab";
    assert Spans(x) == [Span(0, 3)];
    assert x[0..3] == x;
    var y := "\"a\\";
    assert Spans(y) == [Span(0, 3)];
    assert y[0..3] == y;
    var z := "\"a\"b";
    assert Spans(z) == [Span(0, 3)];
    assert z[0..3] == "\"a\"";
    var w := "\"a\",";
    assert Spans(w) == [Span(0, 3)];
    assert w[0..3] == "\"a\"";
  }

  /**
   * A backslash before an ordinary character keeps it in the token as well,
   * and an escaped quote does not end the token.
   */
  lemma QuotedPairExample()
    ensures Tokens("\"a\\bc\"") == ["\"a\\bc\""]
    ensures Tokens("\"\\\",\"") == ["\"\\\",\""]
  {
    var x := "\"a\\bc\"";
    assert Spans(x) == [Span(0, 6)];
    assert x[0..6] == x;
    var y := "\"\\\",\"";
    assert Spans(y) == [Span(0, 5)];
    assert y[0..5] == y;
  }
}
