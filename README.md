# warp-real-ip: the trusted-proxy resolver, modelled in Dafny

`warp-real-ip` is a filter for the warp web framework. It reports the
address of the client behind a chain of reverse proxies. Clients can
forge the forwarding headers, so an address in them is believed only
while every hop after it is a configured trusted proxy. This project
models the core of that decision in `src/lib.rs`, in four parts:

- **The header-list tokenizer** (`CommaSeparatedIterator`), in
  `tokenizer.dfy`. It is a five-state scanner (`Default`, `Quoted`,
  `QuotedPair`, `Token`, `PostambleForQuoted`) that splits an
  `X-Forwarded-For` value into tokens, each a slice of the value.
  - `Scan` is the specification: the list of spans the scanner emits from
    any position and state.
  - `CommaSeparatedIterator` is a class with the iterator's fields, and its
    `Next` method is the imperative scanner loop, proved against `Scan`.
  - `PlainSpans` is an independent reading for values without quotes: split
    at commas, drop leading blanks. `PlainTokensAgree` proves the scanner
    matches it.
  - `tokenizer_tests.dfy` holds the crate's own test cases and the
    end-of-input cases.
- **The token normalisers**, in `normalize.dfy`:
  - `str::trim`;
  - `maybe_quoted`, which removes one layer of quoted-string syntax, as in
    section 3.2.6 of RFC 7230. `Unquote` specifies it; the `MaybeQuoted`
    method is its character loop. `QuotedString`, built on `Escape`, is undone
    by it.
  - `maybe_bracketed`, which removes the brackets around an IPv6 literal.
- **The all-or-nothing list parse** (`CommaSeparated::from_str`), in
  `listparse.dfy`. Each token is trimmed, unquoted, unbracketed and then
  parsed; the list fails at the first token that fails.
  - `BracketAndParseAsWritten` is the code as written, including its panic
    on an empty value (see Findings).
  - `ParseList` is the guarded version.
  - `quoted_values.dfy` proves that a quoted value travels through
    tokenizing, trimming and unquoting intact. It then reaches the parser
    unbracketed, and as written an empty one panics.
  - `listparse_tests.dfy` works through a list with an empty middle
    token.
- **The trust set and the hop walk**:
  - `networks.dfy` models `IpNetworks::contains` and `from_ipaddr_iter`.
  - `resolver.dfy` models the closure body of `real_ip`. The claimed
    addresses, followed by the peer, are walked from the peer outward. The
    first untrusted hop is the client. If every hop is trusted, the answer
    is the first claimed address, or the peer when nothing is claimed.
  - `RealIp` specifies the walk and `ResolveRealIp` is the reverse loop.
  - The walk takes its trust test as a parameter, `trusts`. `real_ip`
    passes `IpNetworks::contains` (`Trusts`).

Addresses are sequences of bits, 32 or 128 of them. A network matches an
address of its own family whose first `prefix` bits agree with it.

Positions in the tokenizer count characters, not UTF-8 bytes. Every
character the scanner or `maybe_bracketed` tests for is ASCII (`"`, `\`,
`,`, space, tab, `[`, `]`), so each emitted slice is the same text either
way.

## Model

| member | source | states |
|---|---|---|
| Networks.NetContains | src/lib.rs:19 | A network never matches an address of the other family. A full-width network matches exactly its own address; a zero-length prefix matches every address of its family. |
| Networks.AnyContains | src/lib.rs:19 | `iter().any`: true iff some network in the sequence contains the address. |
| Networks.Contains | src/lib.rs:18-20 | `IpNetworks::contains` holds iff some configured network contains the address; an empty set contains nothing. |
| Networks.HostNetwork | src/lib.rs:24-28 | The network built from one address contains exactly that address, in either family. |
| Networks.FromIpAddrs | src/lib.rs:23-30 | `from_ipaddr_iter` builds one host network per address, in order. |
| Networks.FromIpAddrsTrustsExactly | src/lib.rs:23-30 | A trust set built from addresses contains an address iff it is one of them. |
| Resolver.Trusts | src/lib.rs:82 | The trust test of the walk holds for an address iff some configured network contains it. |
| Resolver.Hops | src/lib.rs:80 | The hop chain is the claimed addresses in order, then the peer as the last hop. |
| Resolver.LastUntrusted | src/lib.rs:81-85 | The walk from the peer outward stops at an untrusted hop all of whose later hops are trusted. It finds none iff every hop is trusted. |
| Resolver.RealIp | src/lib.rs:79-89 | No peer gives no answer, and a peer always gives one. The answer is the peer or a claimed address, and an untrusted peer is returned as is. |
| Resolver.ResolveRealIp | src/lib.rs:79-89 | The reverse loop with early return computes `RealIp`. |
| Resolver.RealIpCharacterised | src/lib.rs:80-85 | An untrusted hop whose later hops are all trusted is the answer. |
| Resolver.TrustedAnswerMeansAllTrusted | src/lib.rs:81-88 | A trusted answer means every hop was trusted; the answer is then the first claimed address, or the peer when none is claimed. |
| Resolver.LastUntrustedPrefix | src/lib.rs:81-85 | Addresses put before a chain that has an untrusted hop do not move the hop the walk stops at. |
| Resolver.ForgedPrefixIgnored | src/lib.rs:80-85 | Once some hop is untrusted, addresses a client prepends to the claimed list do not change the answer. |
| Resolver.AllTrustedGivesFirstClaimed | src/lib.rs:87-88 | When the peer and every claimed address are trusted, the answer is the first claimed address. |
| Resolver.UntrustedNearestClaimed | src/lib.rs:81-84 | Behind a trusted peer, the nearest untrusted claimed address is the answer, not an earlier one. |
| Resolver.TrustedPeerAloneGivesPeer | src/lib.rs:88 | With nothing claimed, even a trusted peer is the answer. |
| Resolver.NoProxiesGivesPeer | src/lib.rs:76-88 | With no trusted networks, the answer is always the peer. |
| Resolver.UnlistedPeerIsClient | src/lib.rs:76-84 | With proxies given as addresses, a peer not among them is the answer, whatever it claims. |
| Tokenizer.OrderedMeans | src/lib.rs:167-218 | Ordered spans lie within the value, and each ends before the next starts. |
| Tokenizer.Scan | src/lib.rs:156-221 | The spans the five-state scanner emits from a position and state all lie within the value. |
| Tokenizer.ScanOrdered | src/lib.rs:156-221 | Spans are emitted in increasing, non-overlapping order, from the current floor. A pending token is emitted first, from its recorded start. |
| Tokenizer.DefaultOrdered | src/lib.rs:160-174 | The `Default` case of the ordering proof. |
| Tokenizer.QuotedOrdered | src/lib.rs:175-185 | The `Quoted` case of the ordering proof: the pending token starts at its recorded start. |
| Tokenizer.TokenOrdered | src/lib.rs:186-192 | The `Token` case of the ordering proof. |
| Tokenizer.EmitOrdered | src/lib.rs:198-201 | Emitting a span ahead of ordered later spans keeps the order. |
| Tokenizer.SpansOrdered | src/lib.rs:156-221 | The tokens of a whole value are slices in order: the tokenizer neither reorders nor invents text. |
| Tokenizer.Cut | src/lib.rs:167-218 | Each token is exactly the slice of the value that its span names. |
| Tokenizer.Emitted | src/lib.rs:198-201 | An emitted span becomes the first token, ahead of the rest. |
| Tokenizer.TokenRun | src/lib.rs:186-191 | An unquoted token runs up to the next comma and keeps its trailing blanks; at the end of input it is flushed. |
| Tokenizer.BlankRun | src/lib.rs:165 | Spaces and tabs in `Default` are skipped without emitting anything. |
| Tokenizer.PostambleRun | src/lib.rs:193-196 | Text after a closing quote, up to the next comma, is dropped; at the end of input nothing is emitted. |
| Tokenizer.QuotedRun | src/lib.rs:175-182 | A quoted token without backslashes ends at its closing quote, which it includes, and a comma inside the quotes does not split it. `QuotedBodyRun` covers bodies with backslashes. |
| Tokenizer.QuotedBodyRun | src/lib.rs:175-185 | For any quoted text, where each backslash takes the next character unexamined, the token ends at the first unescaped quote and includes it. |
| Tokenizer.QuotedBodyFlush | src/lib.rs:209-215 | When the input ends inside quoted text, or right after a backslash in it, the pending quoted token is flushed whole, up to the end of input. |
| Tokenizer.NextComma | src/lib.rs:166-191 | The first comma at or after a position, or the end of the value. |
| Tokenizer.SkipBlanks | src/lib.rs:165 | The first character that is not a space or tab, within a piece. |
| Tokenizer.PlainPiece | src/lib.rs:160-191 | Without quotes, one comma-separated piece is read as its blank-stripped span, then the rest of the value. |
| Tokenizer.UnquotedToken | src/lib.rs:170-191 | A token that starts with an ordinary character runs to the next comma. |
| Tokenizer.PlainSpans | src/lib.rs:160-191 | Reference split of a value without quotes: the spans lie within the value. |
| Tokenizer.PlainScan | src/lib.rs:156-221 | Without quotes, the scanner emits exactly the spans of the reference split. |
| Tokenizer.PlainTokensAgree | src/lib.rs:156-221 | A value without quotes tokenizes to its reference split. |
| Tokenizer.CommaSeparatedIterator.constructor | src/lib.rs:142-151 | A new iterator starts in `Default` at position 0 and has every token of its value still to yield. |
| Tokenizer.CommaSeparatedIterator.Next | src/lib.rs:156-221 | Each call yields the next remaining token, or None once none remain (and on every later call). The cursor never moves back, and when exhausted it sits at the end with no token pending. |
| Tokenizer.Tokenize | src/lib.rs:286-287 | Collecting the iterator yields exactly the tokens of the value. |
| TokenizerTests.PlainExample | src/lib.rs:286 | `abc,def, ghi,<tab>jkl , mno,<tab>pqr` tokenizes to `abc`, `def`, `ghi`, `jkl `, `mno`, `pqr`. |
| TokenizerTests.QuotedExample | src/lib.rs:287 | The quoted test value tokenizes with its quotes kept and the text after each closing quote dropped. |
| TokenizerTests.EmptyPieces | src/lib.rs:166-169 | An empty value has no tokens, and a comma in `Default` yields an empty token. A comma that ends the value yields none after a token. |
| TokenizerTests.QuotedEndOfInput | src/lib.rs:209-219 | At the end of input an unterminated quoted token is flushed whole, in `Quoted` and in `QuotedPair`. After a closing quote nothing more is emitted, at the end of input or at a comma. |
| TokenizerTests.QuotedPairExample | src/lib.rs:175-185 | `"a\bc"` is one token with its backslash kept, and in `"\","` the escaped quote and the comma do not end the token. |
| Normalize.TrimStart | src/lib.rs:274 | The first non-whitespace position; everything before it is whitespace. |
| Normalize.TrimEnd | src/lib.rs:274 | The end once trailing whitespace is dropped; everything after it is whitespace. |
| Normalize.Trim | src/lib.rs:274 | `str::trim` returns a slice with only whitespace outside it, and that slice neither starts nor ends with whitespace. It is empty iff the value is all whitespace. |
| Normalize.UnquoteBody | src/lib.rs:228-246 | The body of a quoted string never grows when read. |
| Normalize.UnquoteBodyUnterminated | src/lib.rs:228-246 | Without a closing quote, the end of input ends the string: escaped text is read back whole, and a dangling backslash after it is dropped. |
| Normalize.Unquote | src/lib.rs:224-250 | A value not starting with a quote is returned unchanged; a quoted one comes back strictly shorter. |
| Normalize.UnquoteBodyAt | src/lib.rs:230-243 | One step of the quoted-string loop: a literal character is kept, and a backslash makes the next character literal. |
| Normalize.MaybeQuoted | src/lib.rs:224-250 | The character loop with its escape state and `break` on the closing quote computes `Unquote`. |
| Normalize.Escape | src/lib.rs:230-243 | Quoting never shortens a value, and every quote in the escaped text follows a backslash. That every quote is read as escaped comes from `UnquoteBodyEscape`. |
| Normalize.UnquoteBodyEscape | src/lib.rs:230-243 | Reading an escaped value followed by a closing quote gives the value back, whatever follows. |
| Normalize.UnquoteQuotedString | src/lib.rs:224-250 | `maybe_quoted` inverts quoting for every value. |
| Normalize.MaybeBracketed | src/lib.rs:252-258 | A value in brackets loses exactly those two characters, and any other value is unchanged. It requires a non-empty value. |
| Normalize.MaybeBracketedBracket | src/lib.rs:252-258 | Bracketing a value and then unbracketing it gives the value back. |
| Normalize.MaybeQuotedExamples | src/lib.rs:291-295 | The `test_maybe_quoted` cases. |
| Normalize.MaybeBracketedExamples | src/lib.rs:297-303 | The `test_maybe_bracketed` cases. |
| ListParse.Unwrapped | src/lib.rs:274 | A token trimmed and then unquoted is never longer than the token, and an all-whitespace token unwraps to the empty value. |
| ListParse.UnwrappedAll | src/lib.rs:274 | Every token is trimmed and then unquoted, in order. |
| ListParse.BracketAndParseAsWritten | src/lib.rs:272-276 | As written, success gives one value per token in order, each from a non-empty unbracketed token. The lazy `collect` stops at the first token that fails. A failure is that token's parse error, and every earlier token is non-empty and parses. A panic means a token was empty once trimmed and unquoted, and every earlier token is non-empty and parses. |
| ListParse.FromStrAsWritten | src/lib.rs:272-277 | `from_str` as written, over the tokens of the header value trimmed and unquoted. Success gives one value per token, in order, each the parse of the non-empty token unbracketed. Otherwise the first token that fails to parse gives the error, or the first token that is empty gives a panic; every earlier token is non-empty and parses. |
| ListParse.Unbracketed | src/lib.rs:274 | `maybe_bracketed` guarded against the empty value, which goes to the parser unchanged. |
| ListParse.UnbracketedAll | src/lib.rs:274 | Every unwrapped token is unbracketed with the guard, in order. |
| ListParse.ParseAll | src/lib.rs:275 | `collect` into a `Result`. It succeeds iff every string parses, with the values in order. Otherwise the error is that of the first string that fails. |
| ListParse.ParseList | src/lib.rs:272-277 | The guarded `from_str`: each value is the parse of its token trimmed, unquoted and unbracketed, in token order. Otherwise the error is that of the first token that fails, and every earlier token parses. |
| ListParse.AsWrittenAgrees | src/lib.rs:272-276 | When no unwrapped token is empty, `from_str` as written and the guarded parse give the same outcome. |
| ListParse.AsWrittenAgreesOnHeader | src/lib.rs:272-276 | The same agreement, stated for a whole header value. |
| ListParse.LoneCommaPanics | src/lib.rs:272-276 | The header value `,` makes `from_str` as written panic, whatever the address parser. |
| ListParse.LoneCommaRejected | src/lib.rs:272-276 | With the guard, `,` fails with the parser's own error for the empty string. |
| ListParseTests.MiddleHeaderTokens | src/lib.rs:166-191 | `1.2.3.4,,5.6.7.8` tokenizes to the two addresses around an empty token. |
| ListParseTests.MiddleUnwrapped | src/lib.rs:274 | Trimming and unquoting leave those three tokens unchanged. |
| ListParseTests.MiddleEmptyPanics | src/lib.rs:272-276 | Once `1.2.3.4` parses, `from_str` as written panics on `1.2.3.4,,5.6.7.8`. |
| ListParseTests.MiddleEmptyRejected | src/lib.rs:272-276 | With the guard, `1.2.3.4,,5.6.7.8` fails with the parser's error for the empty string. |
| QuotedValues.EscapeQuotedBody | src/lib.rs:175-185 | Text escaped by `Escape` is quoted text: it has no unescaped quote. |
| QuotedValues.EscapedRun | src/lib.rs:175-185 | In a quoted token, escaped text is scanned through to the unescaped closing quote, which ends the token; it is the `Escape` case of `QuotedBodyRun`. |
| QuotedValues.QuotedStringTokens | src/lib.rs:159-196 | A quoted string on its own is one token, quotes included. |
| Normalize.TrimKeeps | src/lib.rs:274 | A value that neither starts nor ends with whitespace is its own trim. |
| QuotedValues.QuotedValueUnwraps | src/lib.rs:272-274 | Tokenizing, trimming and unquoting a quoted value gives back exactly that value. |
| QuotedValues.QuotedValueParses | src/lib.rs:272-276 | A quoted value reaches the parser unbracketed. `from_str` as written panics on it iff the value is empty. |

## Left out

- The warp plumbing of `real_ip` and `get_forwarded_for` (src/lib.rs:73-78, 95-121) is not modelled. This covers `remote()`, header extraction and the `.or`/`.unify` precedence between `x-forwarded-for`, `x-real-ip` and `forwarded`. It is framework glue. The claimed addresses and the peer are inputs to `RealIp`.
- The `x-real-ip` path (src/lib.rs:98-101) applies `maybe_bracketed` to an unquoted value that can be empty, just as `from_str` does. It is part of the glue above and is not modelled separately.
- `forwarded` header parsing by the `rfc7239` crate is not modelled: it is a foreign library.
- `IpAddr::from_str` is the parameter `parse` of the list parse, not an address grammar.
- The `ipnetwork` crate's CIDR test is modelled as agreement of the leading prefix bits within one family. Its netmask arithmetic is not modelled.
- The conversions at src/lib.rs:33-51 have no members of their own. The two `From` conversions from address vectors call `from_ipaddr_iter`, which `FromIpAddrs` models. `FromIterator<IpNetwork>` wraps the given networks, as the datatype constructor `IpNetworks(networks)` does. The `Debug` and `Clone` derives (src/lib.rs:11) are not modelled.
- Borrowing is not modelled: tokens are copies of slices, not borrowed `&str`. Laziness is: `Next` yields one token per call, and `BracketAndParseAsWritten` stops at the first token that fails.
- Networks.NetContains: the contract pins only full-width and zero-length prefixes. Only full-width networks are built here. Other prefix lengths are defined by the body's prefix comparison alone.
- Normalize.UnquoteBody: the contract bounds only the length. What it reads is fixed by the definition, by the round trip `UnquoteBodyEscape` and, for unterminated input, by `UnquoteBodyUnterminated`.
- Resolver.RealIp: the trust test is a parameter. Facts about `IpNetworks` come from `Trusts` together with `NoProxiesGivesPeer` and `UnlistedPeerIsClient`.
- Tokenizer.CommaSeparatedIterator.Next: the loop works on local copies of the cursor, state and start. They are written back once, with a single exit in place of the early `return`. The `char_indices` cursor is a character position.

## Findings

| source | as written | input that shows it | evidently intended | confidence | as-written member | corrected member |
|---|---|---|---|---|---|---|
| src/lib.rs:272-276 | Every token, trimmed and unquoted, goes to `maybe_bracketed`, which reads byte 0 unconditionally. A token that is then empty makes the index panic instead of failing the parse. | The header value `,` (also `1.2.3.4,,5.6.7.8` and `""`) | An empty value reaches `IpAddr::from_str`, which rejects it, so the list fails with a parse error | not executed | ListParse.LoneCommaPanics | ListParse.LoneCommaRejected |

`BracketAndParseAsWritten` keeps the panic as its `Panicked` outcome, and
`QuotedValueParses` shows that the quoted empty value `""` panics too.
A value panics only when no earlier token has failed to parse, because
the lazy `collect` stops at the first failure: `MiddleEmptyPanics` needs
`1.2.3.4` to parse. `ParseList` skips unbracketing for the empty value.
`AsWrittenAgrees` proves that this guard changes nothing for any header
value none of whose tokens is empty once trimmed and unquoted. A token
such as `""` or a lone U+00A0 is not empty itself, but it becomes empty
after trimming and unquoting, so it panics as written.
