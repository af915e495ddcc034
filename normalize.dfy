/**
 * The token normalisers of src/lib.rs: whitespace trimming (`str::trim`),
 * `maybe_quoted`, which removes one layer of quoted-string syntax (section
 * 3.2.6 of RFC 7230), and `maybe_bracketed`, which removes the brackets
 * around an IPv6 literal.
 */
module Normalize {

  /** The Unicode White_Space characters, which `str::trim` removes. */
  predicate IsWhitespace(c: char) {
    ('\t' <= c <= '\r') || c == ' ' || c == '\U{0085}' || c == '\U{00A0}' || c == '\U{1680}' ||
    ('\U{2000}' <= c <= '\U{200A}') || c == '\U{2028}' || c == '\U{2029}' || c == '\U{202F}' ||
    c == '\U{205F}' || c == '\U{3000}'
  }

  /** The index of the first non-whitespace character at or after `i`, or `|x|`. */
  function TrimStart(x: string, i: nat): (j: nat)
    requires i <= |x|
    ensures i <= j <= |x|
    ensures forall k :: i <= k < j ==> IsWhitespace(x[k])
    ensures j < |x| ==> !IsWhitespace(x[j])
    decreases |x| - i
  {
    if i < |x| && IsWhitespace(x[i]) then TrimStart(x, i + 1) else i
  }

  /** The end of `x[a..e]` once its trailing whitespace is dropped. */
  function TrimEnd(x: string, a: nat, e: nat): (j: nat)
    requires a <= e <= |x|
    ensures a <= j <= e
    ensures forall k :: j <= k < e ==> IsWhitespace(x[k])
    ensures a < j ==> !IsWhitespace(x[j - 1])
  {
    if a < e && IsWhitespace(x[e - 1]) then TrimEnd(x, a, e - 1) else e
  }

  /**
   * `str::trim`: the slice of `x` left once its leading and its trailing
   * whitespace are dropped; it neither starts nor ends with whitespace.
   */
  function Trim(x: string): (r: string)
    ensures exists a, e ::
      && 0 <= a <= e <= |x| && r == x[a..e]
      && (forall k :: 0 <= k < a ==> IsWhitespace(x[k]))
      && (forall k :: e <= k < |x| ==> IsWhitespace(x[k]))
    ensures r == [] || (!IsWhitespace(r[0]) && !IsWhitespace(r[|r| - 1]))
    ensures r == [] <==> forall k :: 0 <= k < |x| ==> IsWhitespace(x[k])
  {
    var a := TrimStart(x, 0);
    var e := TrimEnd(x, a, |x|);
    x[a..e]
  }

  /** A value that neither starts nor ends with whitespace is its own trim. */
  lemma TrimKeeps(x: string)
    requires x != [] && !IsWhitespace(x[0]) && !IsWhitespace(x[|x| - 1])
    ensures Trim(x) == x
  {
    assert TrimStart(x, 0) == 0;
    assert TrimEnd(x, 0, |x|) == |x|;
    assert x[0..|x|] == x;
  }

  /**
   * The text of a quoted string after its opening quote: a backslash makes
   * the next character literal, an unescaped quote ends the string, and the
   * end of input ends it too (a dangling backslash is dropped).
   */
  function UnquoteBody(y: string): (r: string)
    ensures |r| <= |y|
  {
    if y == [] then []
    else if y[0] == '"' then []
    else if y[0] == '\\' then (if |y| == 1 then [] else [y[1]] + UnquoteBody(y[2..]))
    else [y[0]] + UnquoteBody(y[1..])
  }

  /** One layer of quoting removed; a value not starting with a quote is kept. */
  function Unquote(x: string): (r: string)
    ensures x == [] || x[0] != '"' ==> r == x
    ensures x != [] && x[0] == '"' ==> |r| < |x|
  {
    if x != [] && x[0] == '"' then UnquoteBody(x[1..]) else x
  }

  /** One step of `UnquoteBody` at position `i` of `x`. */
  lemma UnquoteBodyAt(x: string, i: nat)
    requires i < |x|
    ensures x[i] != '"' && x[i] != '\\' ==> UnquoteBody(x[i..]) == [x[i]] + UnquoteBody(x[i + 1..])
    ensures x[i] == '\\' && i + 1 < |x| ==> UnquoteBody(x[i..]) == [x[i + 1]] + UnquoteBody(x[i + 2..])
  {
    assert x[i..][1..] == x[i + 1..];
    if i + 1 < |x| {
      assert x[i..][2..] == x[i + 2..];
    }
  }

  /** Moving one character from the unread text to the output. */
  lemma AppendStep(r: string, c: char, rest: string)
    ensures (r + [c]) + rest == r + ([c] + rest)
  {
  }

  /** Where the loop of `maybe_quoted` stops, nothing more is read. */
  lemma UnquoteBodyStops(x: string, i: nat, escaped: bool)
    requires 1 <= i <= |x|
    requires escaped ==> 2 <= i && x[i - 1] == '\\'
    requires i < |x| ==> !escaped && x[i] == '"'
    ensures !escaped ==> UnquoteBody(x[i..]) == []
    ensures escaped ==> i == |x| && UnquoteBody(x[i - 1..]) == []
  {
    if escaped {
      assert x[i - 1..] == ['\\'];
    }
  }

  /**
   * `maybe_quoted`: a scan of the characters after the opening quote with a
   * one-shot escape state, pushing each literal character to the output.
   */
  method MaybeQuoted(x: string) returns (r: string)
    ensures r == Unquote(x)
  {
    if x != [] && x[0] == '"' {
      r := [];
      var state := 0;
      var i := 1;
      while i < |x|
        invariant 1 <= i <= |x|
        invariant state == 0 || state == 1
        invariant state == 0 ==> r + UnquoteBody(x[i..]) == UnquoteBody(x[1..])
        invariant state == 1 ==> 2 <= i && x[i - 1] == '\\' && r + UnquoteBody(x[i - 1..]) == UnquoteBody(x[1..])
      {
        var c := x[i];
        if state == 0 {
          if c == '"' {
            break;
          } else if c == '\\' {
            state := 1;
          } else {
            UnquoteBodyAt(x, i);
            AppendStep(r, c, UnquoteBody(x[i + 1..]));
            r := r + [c];
            state := 0;
          }
        } else {
          UnquoteBodyAt(x, i - 1);
          AppendStep(r, c, UnquoteBody(x[i + 1..]));
          r := r + [c];
          state := 0;
        }
        i := i + 1;
      }
      UnquoteBodyStops(x, i, state == 1);
    } else {
      r := x;
    }
  }

  /** Backslash-escapes the quote and the backslash, as a quoted-pair. */
  function Escape(v: string): (r: string)
    ensures |r| >= |v|
    ensures forall k :: 0 <= k < |r| && r[k] == '"' ==> 0 < k && r[k - 1] == '\\'
  {
    if v == [] then []
    else (if v[0] == '"' || v[0] == '\\' then ['\\', v[0]] else [v[0]]) + Escape(v[1..])
  }

  /** The quoted-string that denotes `v`. */
  function QuotedString(v: string): (q: string) {
    ['"'] + Escape(v) + ['"']
  }

  /** Unquoting reads an escaped value back, ignoring what follows the closing quote. */
  lemma {:induction false} UnquoteBodyEscape(v: string, rest: string)
    ensures UnquoteBody(Escape(v) + ['"'] + rest) == v
  {
    if v != [] {
      var head := if v[0] == '"' || v[0] == '\\' then ['\\', v[0]] else [v[0]];
      assert Escape(v) + ['"'] + rest == head + (Escape(v[1..]) + ['"'] + rest);
      UnquoteBodyEscape(v[1..], rest);
    } else {
      assert Escape(v) + ['"'] + rest == ['"'] + rest;
    }
  }

  /**
   * Without a closing quote the end of input ends the string: escaped text
   * is read back whole, and a dangling backslash after it is dropped.
   */
  lemma {:induction false} UnquoteBodyUnterminated(v: string)
    ensures UnquoteBody(Escape(v)) == v
    ensures UnquoteBody(Escape(v) + ['\\']) == v
  {
    if v != [] {
      var head := if v[0] == '"' || v[0] == '\\' then ['\\', v[0]] else [v[0]];
      assert Escape(v) == head + Escape(v[1..]);
      assert Escape(v) + ['\\'] == head + (Escape(v[1..]) + ['\\']);
      UnquoteBodyUnterminated(v[1..]);
    } else {
      assert Escape(v) + ['\\'] == ['\\'];
    }
  }

  /** `maybe_quoted` inverts quoting: every value survives the round trip. */
  lemma UnquoteQuotedString(v: string)
    ensures Unquote(QuotedString(v)) == v
  {
    assert QuotedString(v)[1..] == Escape(v) + ['"'] + [];
    UnquoteBodyEscape(v, []);
  }

  /**
   * `maybe_bracketed`: a value that starts with `[` and ends with `]` loses
   * exactly those two characters; any other value is kept. It reads the first
   * character unconditionally, so the value must not be empty.
   */
  function MaybeBracketed(x: string): (r: string)
    requires |x| > 0
    ensures x[0] == '[' && x[|x| - 1] == ']' ==> |x| >= 2 && x == ['['] + r + [']']
    ensures !(x[0] == '[' && x[|x| - 1] == ']') ==> r == x
  {
    if x[0] == '[' && x[|x| - 1] == ']' then x[1..|x| - 1] else x
  }

  /** Bracketing and `maybe_bracketed` round-trip. */
  lemma MaybeBracketedBracket(v: string)
    ensures MaybeBracketed(['['] + v + [']']) == v
  {
  }

  /** The cases of `test_maybe_quoted`. */
  lemma MaybeQuotedExamples()
    ensures Unquote("abc") == "abc"
    ensures Unquote("\"abc\"") == "abc"
    ensures Unquote("\"a\\\"bc\"") == "a\"bc"
  {
  }

  /** The cases of `test_maybe_bracketed`. */
  lemma MaybeBracketedExamples()
    ensures MaybeBracketed("abc") == "abc"
    ensures MaybeBracketed("[abc]") == "abc"
    ensures MaybeBracketed("[abc") == "[abc"
    ensures MaybeBracketed("abc]") == "abc]"
  {
  }
}
