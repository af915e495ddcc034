/**
 * `CommaSeparated::from_str` (src/lib.rs): tokenize a header value, then
 * trim, unquote, unbracket and parse every token, in that order; the list
 * parse fails as a whole at the first token that fails. The target type's
 * own parser (`T::from_str`, for addresses `IpAddr::from_str`) is the
 * parameter `parse`.
 */
module ListParse {
  import opened Wrappers
  import opened Tokenizer
  import opened Normalize

  /** What `from_str` as written can do: succeed, fail with the first error, or panic. */
  datatype Outcome<T, E> = Parsed(values: seq<T>) | Failed(error: E) | Panicked

  /** A token trimmed and unquoted: the value `maybe_bracketed` is applied to. */
  function Unwrapped(tok: string): (u: string)
    ensures |u| <= |tok|
    ensures (forall k :: 0 <= k < |tok| ==> IsWhitespace(tok[k])) ==> u == []
  {
    Unquote(Trim(tok))
  }

  /** Every token of a list, trimmed and unquoted; neither step can fail. */
  function UnwrappedAll(toks: seq<string>): (r: seq<string>)
    ensures |r| == |toks|
    ensures forall k :: 0 <= k < |toks| ==> r[k] == Unwrapped(toks[k])
  {
    seq(|toks|, k requires 0 <= k < |toks| => Unwrapped(toks[k]))
  }

  /**
   * The rest of `from_str` as written, over the unwrapped tokens:
   * `maybe_bracketed` indexes the first byte of its argument, so an empty
   * one panics, unless an earlier token has already failed to parse.
   */
  function BracketAndParseAsWritten<T, E>(us: seq<string>, parse: string -> Result<T, E>): (r: Outcome<T, E>)
    ensures r.Parsed? ==> |r.values| == |us|
    ensures r.Parsed? ==> forall k :: 0 <= k < |us| ==>
      us[k] != [] && parse(MaybeBracketed(us[k])) == Ok(r.values[k])
    ensures r.Failed? ==> exists k ::
      && 0 <= k < |us| && us[k] != [] && parse(MaybeBracketed(us[k])) == Err(r.error)
      && forall j :: 0 <= j < k ==> us[j] != [] && parse(MaybeBracketed(us[j])).Ok?
    ensures r.Panicked? ==> exists k ::
      && 0 <= k < |us| && us[k] == []
      && forall j :: 0 <= j < k ==> us[j] != [] && parse(MaybeBracketed(us[j])).Ok?
  {
    if us == [] then Parsed([])
    else if us[0] == [] then Panicked
    else
      match parse(MaybeBracketed(us[0]))
      case Err(e) => Failed(e)
      case Ok(v) =>
        match BracketAndParseAsWritten(us[1..], parse)
        case Parsed(vs) => Parsed([v] + vs)
        case Failed(e) => Failed(e)
        case Panicked => Panicked
  }

  /**
   * `CommaSeparated::from_str` as written, over the tokens of the header
   * value unwrapped (`us[k]` is `Unwrapped(Tokens(header)[k])`): one value
   * per token, in order; otherwise the first token that fails to parse, or
   * is empty once unwrapped, decides the outcome.
   */
  function FromStrAsWritten<T, E>(header: string, parse: string -> Result<T, E>): (r: Outcome<T, E>)
    ensures var us := UnwrappedAll(Tokens(header));
      r.Parsed? ==> (|r.values| == |Tokens(header)| &&
        forall k :: 0 <= k < |us| ==> us[k] != [] && parse(MaybeBracketed(us[k])) == Ok(r.values[k]))
    ensures var us := UnwrappedAll(Tokens(header));
      r.Failed? ==> exists k ::
        && 0 <= k < |us| && us[k] != [] && parse(MaybeBracketed(us[k])) == Err(r.error)
        && forall j :: 0 <= j < k ==> us[j] != [] && parse(MaybeBracketed(us[j])).Ok?
    ensures var us := UnwrappedAll(Tokens(header));
      r.Panicked? ==> exists k ::
        && 0 <= k < |us| && us[k] == []
        && forall j :: 0 <= j < k ==> us[j] != [] && parse(MaybeBracketed(us[j])).Ok?
  {
    BracketAndParseAsWritten(UnwrappedAll(Tokens(header)), parse)
  }

  /**
   * `maybe_bracketed` guarded against the empty string, which is handed to
   * the parser as is.
   */
  function Unbracketed(u: string): (r: string)
    ensures |r| <= |u|
    ensures u != [] ==> r == MaybeBracketed(u)
    ensures u == [] ==> r == []
  {
    if u == [] then u else MaybeBracketed(u)
  }

  /** Every unwrapped token of a list, unbracketed with the guard. */
  function UnbracketedAll(us: seq<string>): (r: seq<string>)
    ensures |r| == |us|
    ensures forall k :: 0 <= k < |us| ==> r[k] == Unbracketed(us[k])
  {
    seq(|us|, k requires 0 <= k < |us| => Unbracketed(us[k]))
  }

  /**
   * All-or-nothing parse of a list of strings, as `collect` into a
   * `Result`: every string parses and the values come in order, or the
   * error is that of the first string that fails.
   */
  function ParseAll<T, E>(us: seq<string>, parse: string -> Result<T, E>): (r: Result<seq<T>, E>)
    ensures r.Ok? <==> forall k :: 0 <= k < |us| ==> parse(us[k]).Ok?
    ensures r.Ok? ==> |r.value| == |us|
    ensures r.Ok? ==> forall k :: 0 <= k < |us| ==> parse(us[k]) == Ok(r.value[k])
    ensures r.Err? ==> exists k :: 0 <= k < |us| && parse(us[k]) == Err(r.error) && forall j :: 0 <= j < k ==> parse(us[j]).Ok?
  {
    if us == [] then Ok([])
    else
      match parse(us[0])
      case Err(e) => Err(e)
      case Ok(v) =>
        match ParseAll(us[1..], parse)
        case Ok(vs) => Ok([v] + vs)
        case Err(e) => Err(e)
  }

  /**
   * The list parse of a header value, with the empty-value guard: one value
   * per token, in order, each the parse of the token trimmed, unquoted and
   * unbracketed; or the error of the first token that fails.
   */
  function ParseList<T, E>(header: string, parse: string -> Result<T, E>): (r: Result<seq<T>, E>)
    ensures var toks := Tokens(header);
      r.Ok? ==> (|r.value| == |toks| &&
        forall k :: 0 <= k < |toks| ==> parse(Unbracketed(Unwrapped(toks[k]))) == Ok(r.value[k]))
    ensures var toks := Tokens(header);
      r.Err? ==> exists k ::
        && 0 <= k < |toks| && parse(Unbracketed(Unwrapped(toks[k]))) == Err(r.error)
        && forall j :: 0 <= j < k ==> parse(Unbracketed(Unwrapped(toks[j]))).Ok?
  {
    ParseAll(UnbracketedAll(UnwrappedAll(Tokens(header))), parse)
  }

  /** The outcome of `from_str` that a `Result` stands for. */
  function AsOutcome<T, E>(r: Result<seq<T>, E>): (o: Outcome<T, E>) {
    match r
    case Ok(vs) => Parsed(vs)
    case Err(e) => Failed(e)
  }

  /**
   * Where no token is empty once trimmed and unquoted, `from_str` as written
   * and the guarded parse agree.
   */
  lemma {:induction false} AsWrittenAgrees<T, E>(us: seq<string>, parse: string -> Result<T, E>)
    requires forall k :: 0 <= k < |us| ==> us[k] != []
    ensures BracketAndParseAsWritten(us, parse) == AsOutcome(ParseAll(UnbracketedAll(us), parse))
  {
    if us != [] {
      var n := UnbracketedAll(us);
      assert n[0] == MaybeBracketed(us[0]);
      assert n[1..] == UnbracketedAll(us[1..]);
      AsWrittenAgrees(us[1..], parse);
    }
  }

  /** On a header with no empty token, `from_str` as written is the guarded list parse. */
  lemma AsWrittenAgreesOnHeader<T, E>(header: string, parse: string -> Result<T, E>)
    requires forall k :: 0 <= k < |Tokens(header)| ==> Unwrapped(Tokens(header)[k]) != []
    ensures FromStrAsWritten(header, parse) == AsOutcome(ParseList(header, parse))
  {
    AsWrittenAgrees(UnwrappedAll(Tokens(header)), parse);
  }

  /** The header value "," makes `from_str` as written panic, whatever the parser. */
  lemma LoneCommaPanics<T, E>(parse: string -> Result<T, E>)
    ensures FromStrAsWritten(",", parse) == Panicked
  {
    assert Spans(",") == [Span(0, 0)];
    assert Tokens(",") == [""];
  }

  /** With the guard, the empty token reaches the parser, which rejects it. */
  lemma LoneCommaRejected<T, E>(parse: string -> Result<T, E>, e: E)
    requires parse("") == Err(e)
    ensures ParseList(",", parse) == Err(e)
  {
    assert Spans(",") == [Span(0, 0)];
    assert Tokens(",") == [""];
  }
}
