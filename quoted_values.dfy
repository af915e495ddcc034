/**
 * A header value that carries one value as a quoted-string (section 3.2.6
 * of RFC 7230) comes back out of `CommaSeparated::from_str` as that value:
 * the scanner keeps the whole quoted-string as one token, trimming leaves
 * it alone and `maybe_quoted` undoes the escaping.
 */
module QuotedValues {
  import opened Wrappers
  import opened Tokenizer
  import opened Normalize
  import opened ListParse

  /** Escaped text is quoted text: `Escape` leaves no quote unescaped. */
  lemma {:induction false} EscapeQuotedBody(v: string)
    ensures QuotedBody(Escape(v))
    decreases |v|
  {
    if v != [] {
      var e := Escape(v[1..]);
      EscapeQuotedBody(v[1..]);
      if v[0] == '"' || v[0] == '\\' {
        assert Escape(v) == ['\\', v[0]] + e;
        assert Escape(v)[2..] == e;
      } else {
        assert Escape(v) == [v[0]] + e;
        assert Escape(v)[1..] == e;
      }
    }
  }

  /**
   * Inside a quoted token, an escaped value followed by a quote is scanned
   * to that quote: the token ends there, escapes and all.
   */
  lemma EscapedRun(x: string, i: nat, v: string, s: nat)
    requires s <= i && i + |Escape(v)| < |x|
    requires x[i..i + |Escape(v)|] == Escape(v)
    requires x[i + |Escape(v)|] == '"'
    ensures Scan(x, i, Quoted, s) ==
      [Span(s, i + |Escape(v)| + 1)] + Scan(x, i + |Escape(v)| + 1, PostambleForQuoted, s)
  {
    var w := Escape(v);
    EscapeQuotedBody(v);
    forall k | 0 <= k < |w| ensures x[i + k] == w[k] {
      assert x[i..i + |w|][k] == x[i + k];
    }
    QuotedBodyRun(x, i, w, s);
  }

  /** A quoted-string on its own is one token, quotes included. */
  lemma QuotedStringTokens(v: string)
    ensures Tokens(QuotedString(v)) == [QuotedString(v)]
  {
    var x := QuotedString(v);
    var n := |Escape(v)|;
    assert x[1..1 + n] == Escape(v);
    EscapedRun(x, 1, v, 0);
    assert Spans(x) == [Span(0, |x|)];
    assert x[0..|x|] == x;
  }

  /** Tokenizing, trimming and unquoting a quoted value gives the value back. */
  lemma QuotedValueUnwraps(v: string)
    ensures UnwrappedAll(Tokens(QuotedString(v))) == [v]
  {
    var x := QuotedString(v);
    QuotedStringTokens(v);
    TrimKeeps(x);
    UnquoteQuotedString(v);
  }

  /**
   * A quoted value reaches the parser unbracketed; `from_str` as written
   * agrees with that unless the value is empty, when it panics.
   */
  lemma QuotedValueParses<T, E>(v: string, parse: string -> Result<T, E>)
    ensures ParseList(QuotedString(v), parse) == ParseAll([Unbracketed(v)], parse)
    ensures v != [] ==> FromStrAsWritten(QuotedString(v), parse) == AsOutcome(ParseList(QuotedString(v), parse))
    ensures v == [] <==> FromStrAsWritten(QuotedString(v), parse) == Panicked
  {
    QuotedValueUnwraps(v);
    assert UnbracketedAll([v]) == [Unbracketed(v)];
    if v != [] {
      AsWrittenAgrees([v], parse);
    }
  }
}
