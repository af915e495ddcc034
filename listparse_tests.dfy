/**
 * A list whose middle token is empty: `from_str` as written panics on it
 * once the first address has parsed, while the guarded parse fails with the
 * parser's own error. The value is described character by character, a few
 * characters at a time, so that the scanning proofs do not unfold the
 * literal.
 */
module ListParseTests {
  import opened Wrappers
  import opened Tokenizer
  import opened Normalize
  import opened ListParse

  /** The value `1.2.3.4,,5.6.7.8`. */
  predicate MiddleShape(x: string) {
    |x| == 16 &&
    x[0] == '1' && x[1] == '.' && x[2] == '2' && x[3] == '.' &&
    x[4] == '3' && x[5] == '.' && x[6] == '4' && x[7] == ',' &&
    x[8] == ',' && x[9] == '5' && x[10] == '.' && x[11] == '6' &&
    x[12] == '.' && x[13] == '7' && x[14] == '.' && x[15] == '8'
  }

  lemma MiddleChars1(x: string)
    requires x == "1.2.3.4,,5.6.7.8"
    ensures |x| == 16
    ensures x[0] == '1' && x[1] == '.' && x[2] == '2' && x[3] == '.'
  {
  }

  lemma MiddleChars2(x: string)
    requires x == "1.2.3.4,,5.6.7.8"
    ensures x[4] == '3' && x[5] == '.' && x[6] == '4' && x[7] == ','
  {
  }

  lemma MiddleChars3(x: string)
    requires x == "1.2.3.4,,5.6.7.8"
    ensures x[8] == ',' && x[9] == '5' && x[10] == '.' && x[11] == '6'
  {
  }

  lemma MiddleChars4(x: string)
    requires x == "1.2.3.4,,5.6.7.8"
    ensures x[12] == '.' && x[13] == '7' && x[14] == '.' && x[15] == '8'
  {
  }

  lemma MiddleShapeHolds(x: string)
    requires x == "1.2.3.4,,5.6.7.8"
    ensures MiddleShape(x)
  {
    MiddleChars1(x);
    MiddleChars2(x);
    MiddleChars3(x);
    MiddleChars4(x);
  }

  /** The tokens of the value: two addresses around an empty token. */
  lemma MiddleTokens(x: string)
    requires MiddleShape(x)
    ensures Tokens(x) == [x[0..7], "", x[9..16]]
  {
    assert Spans(x) == [Span(0, 7), Span(8, 8), Span(9, 16)] by {
      TokenRun(x, 1, 7, 0);
      assert Scan(x, 8, Default, 0) == [Span(8, 8)] + Scan(x, 9, Default, 0);
      TokenRun(x, 10, 16, 9);
    }
  }

  lemma MiddleSlices(x: string)
    requires MiddleShape(x)
    ensures x[0..7] == "1.2.3.4" && x[9..16] == "5.6.7.8"
  {
  }

  /** The value tokenizes to two addresses around an empty token. */
  lemma MiddleHeaderTokens()
    ensures Tokens("1.2.3.4,,5.6.7.8") == ["1.2.3.4", "", "5.6.7.8"]
  {
    var x := "1.2.3.4,,5.6.7.8";
    MiddleShapeHolds(x);
    MiddleTokens(x);
    MiddleSlices(x);
  }

  /** Trimming and unquoting leave the three tokens as they are. */
  lemma MiddleUnwrapped()
    ensures UnwrappedAll(["1.2.3.4", "", "5.6.7.8"]) == ["1.2.3.4", "", "5.6.7.8"]
  {
    TrimKeeps("1.2.3.4");
    TrimKeeps("5.6.7.8");
    assert Unwrapped("1.2.3.4") == "1.2.3.4";
    assert Unwrapped("5.6.7.8") == "5.6.7.8";
    assert Unwrapped("") == "";
  }

  /** Once the first address parses, the empty middle token panics. */
  lemma MiddleEmptyPanics<T, E>(parse: string -> Result<T, E>)
    requires parse("1.2.3.4").Ok?
    ensures FromStrAsWritten("1.2.3.4,,5.6.7.8", parse) == Panicked
  {
    MiddleHeaderTokens();
    MiddleUnwrapped();
    assert MaybeBracketed("1.2.3.4") == "1.2.3.4";
    var us := ["1.2.3.4", "", "5.6.7.8"];
    assert us[1..] == ["", "5.6.7.8"];
  }

  /** With the guard, the same value fails with the parser's error for the empty string. */
  lemma MiddleEmptyRejected<T, E>(parse: string -> Result<T, E>, e: E)
    requires parse("1.2.3.4").Ok? && parse("") == Err(e)
    ensures ParseList("1.2.3.4,,5.6.7.8", parse) == Err(e)
  {
    var us := ["1.2.3.4", "", "5.6.7.8"];
    MiddleHeaderTokens();
    MiddleUnwrapped();
    assert UnwrappedAll(Tokens("1.2.3.4,,5.6.7.8")) == us;
    assert MaybeBracketed("1.2.3.4") == "1.2.3.4";
    assert MaybeBracketed("5.6.7.8") == "5.6.7.8";
    var ns := UnbracketedAll(us);
    assert ns == us;
    assert ParseList("1.2.3.4,,5.6.7.8", parse) == ParseAll(us, parse);
    assert us[1..] == ["", "5.6.7.8"];
    assert ParseAll(us[1..], parse) == Err(e);
  }
}
