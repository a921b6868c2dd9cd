# grammarspec matching core, in Dafny

This project models the matching core of grammarspec, a small C++ library of
grammar elements. Each element tries to match at the head of a character
stream. On success it removes the matched characters and returns a list with
one token that holds a copy of them. On failure it returns an empty list and
leaves the stream as it was, except for any leading whitespace it chose to
skip, and except the short-stream literal case under "## Findings".

The repository implements three elements:

- **charset** takes a run of characters from a fixed set. The quota `n`
  bounds the run: a positive `n` allows at most `n` characters, `0` allows
  none, and a negative `n` (the default `-1`) sets no bound.
- **whitespace** is the charset over space, tab and newline.
  `munch_whitespace` uses it to skip leading whitespace for the other
  elements.
- **literal** matches one fixed string. On a mismatch it puts the characters
  it read back on the stream in reverse order.

Layout:

- `results.dfy` (module `Results`): the token result, and `Attempt`, which is
  one call of `match` as a value (the returned list plus what is left in the
  stream).
- `stream.dfy` (module `Streams`): the `std::istream` the elements read from.
  It is a class whose field `rest` holds what has not been read yet, with
  `Peek`, `Get` and `PutBack`.
- `charsets.dfy` (module `Charsets`): the charset and whitespace elements.
  They share one module because `charset::match` and `munch_whitespace` call
  each other. The `decreases` clauses prove that the recursion stops: the
  inner call passes `ignore_whitespace = false`.
- `literals.dfy` (module `Literals`): the literal element and its unwinding.
- `iostream_as_written.dfy` (module `IostreamAsWritten`): `literal::match`
  over the real iostream state bits, for the finding below.
- `scenarios.dfy` (module `Scenarios`): the elements on a few concrete
  streams.

Elements are datatype values. Their fields (`chars`, `n`, `text`) cannot
change, which models the const members that make them safe to share between
threads. Each element has two members:

- a pure function `Apply(input, ignoreWhitespace)`, which says what a match
  does to a stream holding `input`;
- an imperative method `Match(s, ignoreWhitespace)`, which follows the C++
  body step by step on a `Stream` and is proved to produce exactly `Apply`.

The charset quota counter is a local variable of `Charset.TakeRun` (the loop
of `Charset.Match`), as `n_localcopy` is
in the source. The element's `n` is never written.

Where the documented contract and the code differ, the model follows the code,
except the short-stream literal case under "## Findings", where the literal
element follows the documented contract:

- grammarspec.h:55-60 says that a failed match leaves the stream unchanged.
  But both elements skip leading whitespace first (charset.cpp:33-34,
  literal.cpp:23-24) when `ignore_whitespace` is true, which is the default
  (grammarspec.h:176, grammarspec.h:199). The model keeps that default on
  `Apply` and `Match`, and the quota default `n = -1` (grammarspec.h:171-172)
  on `Charset` and `FromString`. Neither
  puts the skipped whitespace back when it fails, and literal.cpp:75-78 says
  this is deliberate. So in the model a failed match leaves the stream as it
  was after skipping.
- grammarspec.h:62-68 says that a failed match returns NULL. The `.cpp`
  bodies return an empty list instead, and the model does the same.

## Model

| member | source | states |
|---|---|---|
| `Results.Token.GetOriginal` | results.h:43-47 | returns the text the result was constructed with, unchanged |
| `Results.Token.MatchedItem` | results.h:63-67 | the token's matched item is the same text as its original |
| `Streams.Stream.Good` | charset.cpp:42 | good() holds exactly when a character is left, the end-of-stream abstraction admitted under "## Left out" (the real good() tests the state bits) |
| `Streams.Stream.Peek` | charset.cpp:51 | peek returns the head of the stream (none at the end) and changes nothing |
| `Streams.Stream.Get` | literal.cpp:59 | get returns the head and removes exactly it; at the end it returns none and changes nothing |
| `Streams.Stream.PutBack` | literal.cpp:72 | putback makes `c` the new head in front of the old contents |
| `Charsets.Span` | charset.cpp:42-58 | the longest prefix of members: every character before it is a member, and the next one (if any) is not |
| `Charsets.RunLength` | charset.cpp:39-58 | the charset's match length: at most the input, at most `n` when `n` >= 0, zero when `n` = 0, only members, and followed by a non-member or the end unless the quota is used up |
| `Charsets.RunLengthUnique` | charset.cpp:41-58 | any length with those properties is RunLength, so the properties determine the charset's behaviour |
| `Charsets.SpanPrefix` | whitespace.cpp:25 | a run of members in front of the input adds exactly its length to the run |
| `Charsets.Munched` | whitespace.cpp:18-28 | skipping whitespace leaves a suffix of the input; everything removed is space, tab or newline; what is left is empty or starts with something else |
| `Charsets.Skipped` | literal.cpp:23-24 | an element matches its own content against the munched input when whitespace is ignored, else against the input itself |
| `Charsets.MunchedIdempotent` | whitespace.cpp:18-28 | skipping whitespace a second time removes nothing |
| `Charsets.MunchedPadding` | whitespace.cpp:25 | any amount of leading whitespace gives the same munched stream |
| `Charsets.MunchedKeepsCarriageReturns` | whitespace.cpp:13 | '\r' is not whitespace here: the input and the munched stream hold the same number of carriage returns |
| `Charsets.Charset.Apply` | charset.cpp:28-68 | at most one token; token text followed by the rest is the post-skip input; empty list exactly when nothing was consumed; the token is non-empty and holds only members; at most `n` characters when `n` >= 0; nothing when `n` = 0; unless the quota is used up, the next character is not a member |
| `Charsets.Charset.Match` | charset.cpp:28-68 | charset::match returns exactly Apply's tokens and leaves exactly Apply's rest in the stream |
| `Charsets.Charset.TakeRun` | charset.cpp:36-59 | the peek/get loop with its local quota takes exactly the first RunLength characters of the stream and leaves the rest |
| `Charsets.FromString` | charset.cpp:20-26 | the string constructor's set holds exactly the characters occurring in the string; the quota is the one given |
| `Charsets.Whitespace` | whitespace.cpp:11-16 | the whitespace element is the charset over exactly space, tab and newline with the unbounded quota -1 |
| `Charsets.WhitespaceWithSkippingNeverMatches` | whitespace.cpp:11-16 | the whitespace element used on its own with the default skipping never returns a token, yet consumes the leading whitespace |
| `Charsets.MatchWhitespaceDirectly` | whitespace.cpp:20-25 | the whitespace element matched with skipping off returns a token exactly when the input starts with space, tab or newline; token text followed by the rest is the input; the rest is the munched input |
| `Charsets.MunchWhitespace` | whitespace.cpp:18-28 | munch_whitespace leaves the stream holding the munched input; it calls match with skipping off, so it does not recurse |
| `Charsets.CharsetIgnoresLeadingWhitespace` | charset.cpp:33-34 | with skipping on, leading whitespace does not change a charset's tokens or the rest |
| `Literals.Reverse` | literal.cpp:70-71 | the reverse iterator's order: same length, i-th element is the (n-1-i)-th of the input |
| `Literals.PutBackAll` | literal.cpp:71-72 | putting back a sequence one character at a time adds exactly its length to the stream |
| `Literals.PutBackReversed` | literal.cpp:69-72 | putting back the characters of reverse(s) one at a time onto r yields s + r |
| `Literals.Literal.Apply` | literal.cpp:15-81 | the result is empty or exactly one token holding the literal; it is non-empty exactly when the post-skip input starts with the literal; token text followed by the rest is the post-skip input, so success advances by exactly the literal's length and failure leaves the post-skip input |
| `Literals.Literal.Match` | literal.cpp:15-81 | the read/compare/putback body returns exactly Apply's tokens and leaves exactly Apply's rest; it reads at most the literal's length, a prefix of the post-skip input, and fewer only when the stream runs out |
| `Literals.Unwind` | literal.cpp:69-72 | the reverse-iterator putback loop puts the characters read back in front of the stream in their original order |
| `Literals.EmptyLiteralMatches` | literal.cpp:57-66 | the empty literal always succeeds with the token "" and consumes nothing beyond whitespace |
| `Literals.LiteralIgnoresLeadingWhitespace` | literal.cpp:23-24 | with skipping on, leading whitespace does not change a literal's tokens or the rest |
| `IostreamAsWritten.Fresh` | literal.cpp:56 | a stream with no state bit set |
| `IostreamAsWritten.Get` | literal.cpp:58-59 | istream::get on a good stream with a character left takes it; otherwise it sets failbit and returns (char)EOF |
| `IostreamAsWritten.Good` | literal.cpp:58 | istream::good: false once failbit is set |
| `IostreamAsWritten.ReadLoop` | literal.cpp:56-61 | the read loop as written stores at most `count` characters, and none on a stream that is not good |
| `IostreamAsWritten.UnwindLoop` | literal.cpp:69-72 | the putback loop as written leaves failbit as it found it and, after at least one putback, clears eofbit |
| `IostreamAsWritten.LiteralAsWritten` | literal.cpp:56-73 | literal::match as written on a stream that is not good reads nothing, changes nothing and succeeds only for the empty literal |
| `IostreamAsWritten.PutBack` | literal.cpp:72 | istream::putback clears eofbit and puts the character back only when failbit is clear |
| `IostreamAsWritten.ReadLoopLongEnough` | literal.cpp:56-61 | when the stream holds enough characters, the read loop takes exactly the first `count` and sets no bit |
| `IostreamAsWritten.ReadLoopTooShort` | literal.cpp:56-61 | when the stream is too short, the read loop takes everything, stores one (char)EOF after it and sets failbit |
| `IostreamAsWritten.UnwindLoopGood` | literal.cpp:69-72 | on a good stream the unwind loop restores the characters in order |
| `IostreamAsWritten.UnwindLoopFailed` | literal.cpp:69-72 | once failbit is set the unwind loop puts nothing back |
| `IostreamAsWritten.AsWrittenAgreesWhenLongEnough` | literal.cpp:56-73 | with at least the literal's length left, the code as written has the same outcome and stream as Literal.Apply |
| `IostreamAsWritten.AsWrittenLosesShortStream` | literal.cpp:56-73 | on a stream shorter than a literal without (char)EOF, the code as written fails and leaves the stream empty with failbit set |
| `IostreamAsWritten.AsWrittenMatchesPastEnd` | literal.cpp:56-66 | a literal equal to the stream followed by (char)EOF matches as written, leaving the stream empty and failed, while the corrected literal fails and leaves the stream as it was |
| `IostreamAsWritten.OhaiOnOh` | literal.cpp:56-73 | "ohai" on "oh": the code as written leaves "", the corrected literal leaves "oh" |
| `Scenarios.CharsetBounded` | charset.cpp:39-58 | charset {a, b} with n = 2 on "aab c" yields the token "aa" and leaves "b c" |
| `Scenarios.CharsetUnbounded` | charset.cpp:42-58 | charset {a, b} with n = -1 on "aabbbc" yields "aabbb" and leaves "c" |
| `Scenarios.LiteralOhai` | literal.cpp:63-66 | literal "ohai" on "ohai there" yields "ohai" and leaves " there" |
| `Scenarios.LiteralOhbye` | literal.cpp:67-73 | literal "ohai" on "ohbye" fails and leaves "ohbye" |
| `Scenarios.UnwindClient` | literal.cpp:67-73 | the imperative literal "ohai" run on a stream holding "ohbye" returns no token and puts back what it read, leaving "ohbye" |

## Left out

- calc.cpp, the interactive driver, is left out. It is a prompt/read/print loop
  over `cin` and `cout`.
- `morethan::match` is left out because its body is empty (op_morethan.cpp:23-29).
  `op_and` and `results::list` are commented out. The model invents no
  sequence or repetition semantics for them.
- The declarations in grammarspec.h and elements.h are left out. This includes
  the never-implemented `streamify`/`data` serialisation API and the drafts
  whose signatures contradict the `.cpp` bodies.
- Iostream state bits are not modelled outside `IostreamAsWritten`. `Streams.Stream`
  treats the end of the stream as "stop reading": `Good()` is "a character is
  left", and `Get` at the end changes nothing.
- Charset on a set containing '\xFF' is not modelled faithfully. At the end of
  the stream, `peek()` returns EOF, and converted to `char` that is '\xFF'
  (charset.cpp:51). If '\xFF' is in the set, the source calls `get()` and
  stores '\xFF'. The model stops at the end instead, so it treats (char)EOF as
  no character.
- Characters are Dafny `char`s, not 8-bit C++ `char`s. The width matters in one
  place: an 8-bit `char` makes (char)EOF the character '\xFF', which the model
  writes as `EofChar`. `IostreamAsWritten` keeps it, and the charset case above
  is left out.
- `Literals.Literal.Match` does not reproduce the one case where the source's
  literal succeeds on a short stream. When the literal's text is the stream
  followed by (char)EOF, the read loop stores (char)EOF past the end
  (literal.cpp:59), the comparison succeeds, and the source returns a token
  holding a character the stream never had, leaving the stream empty and
  failed. The corrected literal fails there and consumes nothing.
  `IostreamAsWritten.AsWrittenMatchesPastEnd` states both outcomes, and this
  case is why `IostreamAsWritten.AsWrittenLosesShortStream` requires a literal
  without (char)EOF.
- Heap management is left out: `new`/`delete` of result lists and tokens,
  and the rule that the caller owns and deletes the returned list.
- Concurrency is left out. Its only counterpart in the model is that elements
  are immutable values and the quota counter is local to `Charset.TakeRun`.
- The commented-out `rdbuf()->in_avail()` experiment (literal.cpp:26-55) is
  left out.

## Findings

| source | as written | input that shows it | evidently intended | confidence | as-written member | corrected member |
|---|---|---|---|---|---|---|
| literal.cpp:56-72 | the read loop tests `good()`, which stays true until a read fails, so on a short stream it calls `get()` once past the end; that stores (char)EOF and sets failbit, and `putback` does nothing while failbit is set, so the characters read are not put back (the one short-stream success, a literal equal to the stream followed by (char)EOF, is under "## Left out") | `literal("ohai").match(stream, false)` on a stream holding "oh": the stream is left empty and failed (with the default `true` too, since the munch only peeks at 'o') | a failed literal leaves the stream as it was: "oh" | not executed; follows the C++11 rules for `get` and `putback` | `IostreamAsWritten.AsWrittenLosesShortStream` | `Literals.Literal.Match` |
| whitespace.cpp:11-25 | the whitespace element is a charset (charset.cpp:33-34 skips first) whose `ignore_whitespace` defaults to true, so using it directly first munches the whitespace it should match and then finds nothing | `Whitespace().match(stream)` on a stream holding "  x": returns no token, stream left as "x" | used directly, the whitespace element returns the leading whitespace as a token, as munch_whitespace's own call with `false` does | not executed; plausible | `Charsets.WhitespaceWithSkippingNeverMatches` | `Charsets.MatchWhitespaceDirectly` |
