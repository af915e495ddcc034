/**
 * The header-list tokenizer (`CommaSeparatedIterator` in src/lib.rs): a
 * five-state scanner that splits a header value into tokens, each a slice of
 * the value. Positions count characters.
 */
module Tokenizer {
  import opened Wrappers

  datatype ScanState = Default | Quoted | QuotedPair | Token | PostambleForQuoted

  /** A token as the half-open range [start, end) of positions in the header value. */
  datatype Span = Span(start: nat, end: nat)

  /** The characters skipped before a token: space and horizontal tab. */
  predicate IsBlank(c: char) {
    c == ' ' || c == '\t'
  }

  /** True in the states that hold a started, not yet emitted, token. */
  predicate Pending(st: ScanState) {
    st == Quoted || st == QuotedPair || st == Token
  }

  /**
   * The least position any span still to come can start at: the recorded
   * start of a pending token, the current position in `Default`, and past the
   * current position after a closing quote.
   */
  function Floor(i: nat, st: ScanState, s: nat): (lo: nat) {
    if Pending(st) then s else if st == PostambleForQuoted then i + 1 else i
  }

  /**
   * The spans start at or after `lo`, end by `n`, and each ends strictly
   * before the next one starts.
   */
  predicate Ordered(sp: seq<Span>, lo: nat, n: nat) {
    sp == [] || (lo <= sp[0].start <= sp[0].end <= n && Ordered(sp[1..], sp[0].end + 1, n))
  }

  /** What `Ordered` means position by position. */
  lemma {:induction false} OrderedMeans(sp: seq<Span>, lo: nat, n: nat)
    requires Ordered(sp, lo, n)
    ensures forall k :: 0 <= k < |sp| ==> lo <= sp[k].start <= sp[k].end <= n
    ensures forall k :: 0 <= k < |sp| - 1 ==> sp[k].end < sp[k + 1].start
  {
    if sp != [] {
      OrderedMeans(sp[1..], sp[0].end + 1, n);
    }
  }

  /**
   * The spans the scanner emits from position `i` in state `st`, with `s` the
   * recorded start of the pending token, up to and including the end of input.
   */
  function Scan(x: string, i: nat, st: ScanState, s: nat): (r: seq<Span>)
    requires s <= i <= |x|
    ensures forall k :: 0 <= k < |r| ==> r[k].start <= r[k].end <= |x|
    decreases |x| - i
  {
    if i == |x| then
      if Pending(st) then [Span(s, |x|)] else []
    else
      var c := x[i];
      match st
      case Default =>
        if c == '"' then Scan(x, i + 1, Quoted, i)
        else if IsBlank(c) then Scan(x, i + 1, Default, s)
        else if c == ',' then [Span(i, i)] + Scan(x, i + 1, Default, s)
        else Scan(x, i + 1, Token, i)
      case Quoted =>
        if c == '"' then [Span(s, i + 1)] + Scan(x, i + 1, PostambleForQuoted, s)
        else if c == '\\' then Scan(x, i + 1, QuotedPair, s)
        else Scan(x, i + 1, Quoted, s)
      case QuotedPair =>
        Scan(x, i + 1, Quoted, s)
      case Token =>
        if c == ',' then [Span(s, i)] + Scan(x, i + 1, Default, s)
        else Scan(x, i + 1, Token, s)
      case PostambleForQuoted =>
        if c == ',' then Scan(x, i + 1, Default, s)
        else Scan(x, i + 1, PostambleForQuoted, s)
  }

  /**
   * Tokens are slices in order: each span still to come lies in the input at
   * or after the floor, and each ends strictly before the next one starts.
   * A pending token is the first one emitted and starts where it was
   * recorded.
   */
  lemma {:induction false} ScanOrdered(x: string, i: nat, st: ScanState, s: nat)
    requires s <= i <= |x|
    ensures Ordered(Scan(x, i, st, s), Floor(i, st, s), |x|)
    ensures Pending(st) && Scan(x, i, st, s) != [] ==> Scan(x, i, st, s)[0].start == s
    decreases |x| - i, 1
  {
    if i == |x| {
      assert Ordered([], |x| + 1, |x|);
    } else if st == Default {
      DefaultOrdered(x, i, s);
    } else if st == Quoted {
      QuotedOrdered(x, i, s);
    } else if st == Token {
      TokenOrdered(x, i, s);
    } else {
      ScanOrdered(x, i + 1, if st == QuotedPair then Quoted else if x[i] == ',' then Default else st, s);
    }
  }

  lemma {:induction false} DefaultOrdered(x: string, i: nat, s: nat)
    requires s <= i < |x|
    ensures Ordered(Scan(x, i, Default, s), i, |x|)
    decreases |x| - i, 0
  {
    var c := x[i];
    if c == '"' {
      ScanOrdered(x, i + 1, Quoted, i);
    } else if IsBlank(c) {
      ScanOrdered(x, i + 1, Default, s);
    } else if c == ',' {
      ScanOrdered(x, i + 1, Default, s);
      EmitOrdered(Span(i, i), Scan(x, i + 1, Default, s), i, |x|);
    } else {
      ScanOrdered(x, i + 1, Token, i);
    }
  }

  lemma {:induction false} QuotedOrdered(x: string, i: nat, s: nat)
    requires s <= i < |x|
    ensures Ordered(Scan(x, i, Quoted, s), s, |x|)
    ensures Scan(x, i, Quoted, s) != [] ==> Scan(x, i, Quoted, s)[0].start == s
    decreases |x| - i, 0
  {
    var c := x[i];
    if c == '"' {
      ScanOrdered(x, i + 1, PostambleForQuoted, s);
      EmitOrdered(Span(s, i + 1), Scan(x, i + 1, PostambleForQuoted, s), s, |x|);
    } else if c == '\\' {
      ScanOrdered(x, i + 1, QuotedPair, s);
    } else {
      ScanOrdered(x, i + 1, Quoted, s);
    }
  }

  lemma {:induction false} TokenOrdered(x: string, i: nat, s: nat)
    requires s <= i < |x|
    ensures Ordered(Scan(x, i, Token, s), s, |x|)
    ensures Scan(x, i, Token, s) != [] ==> Scan(x, i, Token, s)[0].start == s
    decreases |x| - i, 0
  {
    if x[i] == ',' {
      ScanOrdered(x, i + 1, Default, s);
      EmitOrdered(Span(s, i), Scan(x, i + 1, Default, s), s, |x|);
    } else {
      ScanOrdered(x, i + 1, Token, s);
    }
  }

  lemma EmitOrdered(a: Span, rest: seq<Span>, lo: nat, n: nat)
    requires lo <= a.start <= a.end <= n && Ordered(rest, a.end + 1, n)
    ensures Ordered([a] + rest, lo, n)
  {
    assert ([a] + rest)[1..] == rest;
  }

  /** All spans of a header value, scanning from its start. */
  function Spans(x: string): (sp: seq<Span>) {
    Scan(x, 0, Default, 0)
  }

  /** The spans of a header value are ordered, disjoint slices of it. */
  lemma SpansOrdered(x: string)
    ensures Ordered(Spans(x), 0, |x|)
  {
    ScanOrdered(x, 0, Default, 0);
  }

  /** The slices of `x` named by the spans. */
  function Cut(x: string, sp: seq<Span>): (r: seq<string>)
    requires forall k :: 0 <= k < |sp| ==> sp[k].start <= sp[k].end <= |x|
    ensures |r| == |sp|
    ensures forall k :: 0 <= k < |sp| ==> r[k] == x[sp[k].start..sp[k].end]
  {
    if sp == [] then [] else [x[sp[0].start..sp[0].end]] + Cut(x, sp[1..])
  }

  /** One emitted span, as the slice it names followed by the tokens after it. */
  lemma Emitted(x: string, a: Span, todo: seq<Span>, rest: seq<Span>)
    requires a.start <= a.end <= |x|
    requires forall k :: 0 <= k < |rest| ==> rest[k].start <= rest[k].end <= |x|
    requires todo == [a] + rest
    ensures Cut(x, todo) == [x[a.start..a.end]] + Cut(x, rest)
  {
    assert todo[1..] == rest;
  }

  /** The tokens of a header value, in order. */
  function Tokens(x: string): (toks: seq<string>) {
    Cut(x, Spans(x))
  }

  /**
   * An unquoted token runs up to the next comma, which ends it; at the end
   * of input it is flushed. Trailing spaces and tabs stay in the token.
   */
  lemma {:induction false} TokenRun(x: string, i: nat, j: nat, s: nat)
    requires s <= i <= j <= |x|
    requires forall k :: i <= k < j ==> x[k] != ','
    requires j < |x| ==> x[j] == ','
    ensures Scan(x, i, Token, s) ==
      if j < |x| then [Span(s, j)] + Scan(x, j + 1, Default, s) else [Span(s, |x|)]
    decreases j - i
  {
    if i < j {
      TokenRun(x, i + 1, j, s);
    }
  }

  /** Spaces and tabs before a token are skipped. */
  lemma {:induction false} BlankRun(x: string, i: nat, j: nat, s: nat)
    requires s <= i <= j <= |x|
    requires forall k :: i <= k < j ==> IsBlank(x[k])
    ensures Scan(x, i, Default, s) == Scan(x, j, Default, s)
    decreases j - i
  {
    if i < j {
      BlankRun(x, i + 1, j, s);
    }
  }

  /**
   * Whatever follows a closing quote up to the next comma is dropped, and
   * nothing is emitted when the input ends there.
   */
  lemma {:induction false} PostambleRun(x: string, i: nat, j: nat, s: nat)
    requires s <= i <= j <= |x|
    requires forall k :: i <= k < j ==> x[k] != ','
    requires j < |x| ==> x[j] == ','
    ensures Scan(x, i, PostambleForQuoted, s) == if j < |x| then Scan(x, j + 1, Default, s) else []
    decreases j - i
  {
    if i < j {
      PostambleRun(x, i + 1, j, s);
    }
  }

  /**
   * A quoted token without backslashes ends at the next quote, which it
   * includes; commas inside it do not split it.
   */
  lemma {:induction false} QuotedRun(x: string, i: nat, j: nat, s: nat)
    requires s <= i <= j < |x|
    requires forall k :: i <= k < j ==> x[k] != '"' && x[k] != '\\'
    requires x[j] == '"'
    ensures Scan(x, i, Quoted, s) == [Span(s, j + 1)] + Scan(x, j + 1, PostambleForQuoted, s)
    decreases j - i
  {
    if i < j {
      QuotedRun(x, i + 1, j, s);
    }
  }

  /**
   * The text of a quoted token between its quotes: no unescaped quote, and
   * every backslash is followed by the character it makes literal, whatever
   * that character is.
   */
  predicate QuotedBody(w: string)
    decreases |w|
  {
    w == [] || (w[0] != '"' && if w[0] == '\\' then |w| >= 2 && QuotedBody(w[2..]) else QuotedBody(w[1..]))
  }

  /**
   * A quoted token whose body is any quoted text ends at the first unescaped
   * quote, which it includes: a backslash takes the next character into the
   * span without looking at it.
   */
  lemma {:induction false} QuotedBodyRun(x: string, i: nat, w: string, s: nat)
    requires s <= i && i + |w| < |x|
    requires forall k :: 0 <= k < |w| ==> x[i + k] == w[k]
    requires QuotedBody(w) && x[i + |w|] == '"'
    ensures Scan(x, i, Quoted, s) == [Span(s, i + |w| + 1)] + Scan(x, i + |w| + 1, PostambleForQuoted, s)
    decreases |w|
  {
    if w != [] {
      var n := if w[0] == '\\' then 2 else 1;
      var rest := w[n..];
      forall k | 0 <= k < |rest| ensures x[i + n + k] == rest[k] {
        assert rest[k] == w[n + k];
      }
      QuotedBodyRun(x, i + n, rest, s);
      assert x[i] == w[0];
      if n == 2 {
        assert Scan(x, i, Quoted, s) == Scan(x, i + 1, QuotedPair, s);
      }
    }
  }

  /**
   * At the end of input a quoted token is flushed whole, whether the input
   * ends inside quoted text or right after a backslash.
   */
  lemma {:induction false} QuotedBodyFlush(x: string, i: nat, w: string, s: nat)
    requires s <= i && i + |w| <= |x|
    requires forall k :: 0 <= k < |w| ==> x[i + k] == w[k]
    requires QuotedBody(w)
    requires i + |w| == |x| || (i + |w| + 1 == |x| && x[|x| - 1] == '\\')
    ensures Scan(x, i, Quoted, s) == [Span(s, |x|)]
    decreases |w|
  {
    if w != [] {
      var n := if w[0] == '\\' then 2 else 1;
      var rest := w[n..];
      forall k | 0 <= k < |rest| ensures x[i + n + k] == rest[k] {
        assert rest[k] == w[n + k];
      }
      QuotedBodyFlush(x, i + n, rest, s);
      assert x[i] == w[0];
      if n == 2 {
        assert Scan(x, i, Quoted, s) == Scan(x, i + 1, QuotedPair, s);
      }
    } else if i < |x| {
      assert Scan(x, i, Quoted, s) == Scan(x, i + 1, QuotedPair, s);
    }
  }

  /** The first comma at or after `i`, or the end of input. */
  function NextComma(x: string, i: nat): (j: nat)
    requires i <= |x|
    ensures i <= j <= |x|
    ensures j < |x| ==> x[j] == ','
    ensures forall k :: i <= k < j ==> x[k] != ','
    decreases |x| - i
  {
    if i == |x| || x[i] == ',' then i else NextComma(x, i + 1)
  }

  /** The first character in `[i, j)` that is not a space or tab, or `j`. */
  function SkipBlanks(x: string, i: nat, j: nat): (b: nat)
    requires i <= j <= |x|
    ensures i <= b <= j
    ensures b < j ==> !IsBlank(x[b])
    ensures forall k :: i <= k < b ==> IsBlank(x[k])
    decreases j - i
  {
    if i == j || !IsBlank(x[i]) then i else SkipBlanks(x, i + 1, j)
  }

  /** The start recorded after the piece at `i`: the token's own, when it has one. */
  function PieceStart(x: string, i: nat, s: nat): (start: nat)
    requires i <= |x|
  {
    var j := NextComma(x, i);
    var b := SkipBlanks(x, i, j);
    if b == j then s else b
  }

  /**
   * One piece of a header value without quotes, as the scanner reads it:
   * the piece's span, then what is read after its comma.
   */
  lemma PlainPiece(x: string, i: nat, s: nat)
    requires s <= i <= |x|
    requires forall k :: i <= k < |x| ==> x[k] != '"'
    ensures var j := NextComma(x, i);
      var b := SkipBlanks(x, i, j);
      Scan(x, i, Default, s) ==
        (if j == |x| && b == j then [] else [Span(b, j)]) +
        if j < |x| then Scan(x, j + 1, Default, PieceStart(x, i, s)) else []
  {
    var j := NextComma(x, i);
    var b := SkipBlanks(x, i, j);
    BlankRun(x, i, b, s);
    if b < j {
      UnquotedToken(x, b, j, s);
    } else if j < |x| {
      assert Scan(x, j, Default, s) == [Span(j, j)] + Scan(x, j + 1, Default, s);
    } else {
      assert Scan(x, j, Default, s) == [] + [];
    }
  }

  /** A token that starts with neither a quote, a blank nor a comma runs to the next comma. */
  lemma UnquotedToken(x: string, b: nat, j: nat, s: nat)
    requires s <= b < j <= |x|
    requires x[b] != '"' && !IsBlank(x[b])
    requires forall k :: b <= k < j ==> x[k] != ','
    requires j < |x| ==> x[j] == ','
    ensures Scan(x, b, Default, s) == [Span(b, j)] + if j < |x| then Scan(x, j + 1, Default, b) else []
  {
    assert Scan(x, b, Default, s) == Scan(x, b + 1, Token, b);
    TokenRun(x, b + 1, j, b);
  }

  /**
   * Reference reading of a header value without quotes: split at every
   * comma and drop the leading spaces and tabs of each piece; a piece
   * that ends the input and is blank yields no token at all.
   */
  function PlainSpans(x: string, i: nat): (r: seq<Span>)
    requires i <= |x|
    ensures forall k :: 0 <= k < |r| ==> r[k].start <= r[k].end <= |x|
    decreases |x| - i
  {
    var j := NextComma(x, i);
    var b := SkipBlanks(x, i, j);
    (if j == |x| && b == j then [] else [Span(b, j)]) + if j < |x| then PlainSpans(x, j + 1) else []
  }

  /** The plain split of a whole header value. */
  function PlainTokens(x: string): (toks: seq<string>) {
    Cut(x, PlainSpans(x, 0))
  }

  /** Without quotes the scanner finds the spans of the plain split. */
  lemma {:induction false} PlainScan(x: string, i: nat, s: nat)
    requires s <= i <= |x|
    requires forall k :: i <= k < |x| ==> x[k] != '"'
    ensures Scan(x, i, Default, s) == PlainSpans(x, i)
    decreases |x| - i
  {
    PlainPiece(x, i, s);
    var j := NextComma(x, i);
    if j < |x| {
      PlainScan(x, j + 1, PieceStart(x, i, s));
    }
  }

  /** A header value without quotes tokenizes to its plain split. */
  lemma PlainTokensAgree(x: string)
    requires forall k :: 0 <= k < |x| ==> x[k] != '"'
    ensures Tokens(x) == PlainTokens(x)
  {
    PlainScan(x, 0, 0);
  }

  /**
   * The iterator: the header value, the cursor of the next character to
   * read, the scanner state and the start of the last token found.
   */
  class CommaSeparatedIterator {
    const target: string
    var pos: nat
    var state: ScanState
    var s: nat

    ghost predicate Valid()
      reads this
    {
      s <= pos <= |target|
    }

    /** The tokens this iterator has still to yield. */
    ghost function Remaining(): seq<string>
      reads this
      requires Valid()
    {
      Cut(target, Scan(target, pos, state, s))
    }

    constructor (target: string)
      ensures Valid() && this.target == target
      ensures pos == 0 && state == Default && s == 0
      ensures Remaining() == Tokens(target)
    {
      this.target := target;
      pos := 0;
      state := Default;
      s := 0;
    }

    /**
     * `Iterator::next`: yields the next token, or None once the value is
     * exhausted (and again on every later call).
     */
    method Next() returns (tok: Option<string>)
      requires Valid()
      modifies this
      ensures Valid()
      ensures tok.Some? ==> old(Remaining()) == [tok.value] + Remaining()
      ensures tok.None? ==> old(Remaining()) == [] && Remaining() == []
      ensures old(pos) <= pos
      ensures tok.None? ==> pos == |target| && !Pending(state)
    {
      // The cursor, state and start are worked on in locals and written
      // back once; `found` is the span of a token that a comma or a closing
      // quote ended, which stops the scan.
      var x: string, i: nat, st: ScanState, start: nat := target, pos, state, s;
      ghost var todo := Scan(x, i, st, start);
      var found: Option<Span> := None;
      while found.None? && i < |x|
        invariant start <= i <= |x|
        invariant found.None? ==> Scan(x, i, st, start) == todo
        invariant found.Some? ==> found.value.start <= found.value.end <= |x|
        invariant found.Some? ==> todo == [found.value] + Scan(x, i, st, start)
        decreases |x| - i
      {
        var c := x[i];
        match st {
          case Default =>
            if c == '"' {
              start, st := i, Quoted;
            } else if c == ' ' || c == '\t' {
              st := Default;
            } else if c == ',' {
              found, st := Some(Span(i, i)), Default;
            } else {
              start, st := i, Token;
            }
          case Quoted =>
            if c == '"' {
              found, st := Some(Span(start, i + 1)), PostambleForQuoted;
            } else if c == '\\' {
              st := QuotedPair;
            } else {
              st := Quoted;
            }
          case QuotedPair =>
            st := Quoted;
          case Token =>
            if c == ',' {
              found, st := Some(Span(start, i)), Default;
            } else {
              st := Token;
            }
          case PostambleForQuoted =>
            if c == ',' {
              st := Default;
            } else {
              st := PostambleForQuoted;
            }
        }
        i := i + 1;
      }
      if found.Some? {
        var a := found.value;
        Emitted(x, a, todo, Scan(x, i, st, start));
        tok := Some(x[a.start..a.end]);
      } else if Pending(st) {
        // End of input: a pending token is flushed once.
        Emitted(x, Span(start, |x|), todo, []);
        assert x[start..|x|] == x[start..];
        st := Default;
        tok := Some(x[start..]);
      } else {
        // End of input in Default or PostambleForQuoted: nothing more.
        tok := None;
      }
      pos, state, s := i, st, start;
    }
  }

  /** Collects every token of a header value through the iterator. */
  method Tokenize(x: string) returns (toks: seq<string>)
    ensures toks == Tokens(x)
  {
    var it := new CommaSeparatedIterator(x);
    toks := [];
    var done := false;
    while !done
      invariant it.Valid() && it.target == x
      invariant toks + it.Remaining() == Tokens(x)
      invariant done ==> it.Remaining() == []
      decreases |it.Remaining()|, !done
    {
      ghost var before := it.Remaining();
      var t := it.Next();
      match t
      case Some(v) =>
        assert before == [v] + it.Remaining();
        assert (toks + [v]) + it.Remaining() == toks + before;
        toks := toks + [v];
      case None =>
        done := true;
    }
  }
}
