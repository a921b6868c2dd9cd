/**
 * The charset element (charset.cpp) and its specialisation, the whitespace
 * element (whitespace.cpp).
 *
 * The two live in one module because their matching code is mutually
 * recursive: charset::match may call whitespace::munch_whitespace, which calls
 * charset::match again on a whitespace charset. The recursion stops because
 * the inner call passes ignore_whitespace = false; the `decreases` clauses of
 * Charset.Match and MunchWhitespace prove exactly that.
 */
module Charsets {
  import opened Results
  import opened Streams

  /** The quota of the default charset: no bound on the run length. */
  const Unbounded: int := -1

  /** The characters of the whitespace element: space, tab and newline. */
  const WhitespaceChars: set<char> := {' ', '\t', '\n'}

  // ---------------------------------------------------------------------------
  // Runs of characters from a set
  // ---------------------------------------------------------------------------

  /** Length of the longest prefix of `s` made only of members of `chars`. */
  function Span(chars: set<char>, s: seq<char>): (k: nat)
    ensures k <= |s|
    ensures forall i :: 0 <= i < k ==> s[i] in chars
    ensures k < |s| ==> s[k] !in chars
  {
    if s == [] || s[0] !in chars then 0 else 1 + Span(chars, s[1..])
  }

  /**
   * How many characters a charset with quota `n` takes from `s`: the
   * longest run of members, cut at `n` when `n` is not negative.
   */
  function RunLength(chars: set<char>, n: int, s: seq<char>): (k: nat)
    ensures k <= |s|
    ensures n >= 0 ==> k <= n
    ensures n == 0 ==> k == 0
    ensures forall i :: 0 <= i < k ==> s[i] in chars
    ensures (n < 0 || k < n) && k < |s| ==> s[k] !in chars
  {
    var m := Span(chars, s);
    if 0 <= n < m then n else m
  }

  /**
   * RunLength is the only length with its contract: a prefix of members,
   * within the quota, that stops at a non-member or the end of the input
   * unless the quota is used up.
   */
  lemma RunLengthUnique(chars: set<char>, n: int, s: seq<char>, k: nat)
    requires k <= |s|
    requires n >= 0 ==> k <= n
    requires forall i :: 0 <= i < k ==> s[i] in chars
    requires (n < 0 || k < n) && k < |s| ==> s[k] !in chars
    ensures k == RunLength(chars, n, s)
  {
  }

  /** A run of members in front of `s` adds its length to the span. */
  lemma {:induction false} SpanPrefix(chars: set<char>, pad: seq<char>, s: seq<char>)
    requires forall i :: 0 <= i < |pad| ==> pad[i] in chars
    ensures Span(chars, pad + s) == |pad| + Span(chars, s)
  {
    if pad == [] {
      assert pad + s == s;
    } else {
      assert (pad + s)[0] == pad[0] && (pad + s)[1..] == pad[1..] + s;
      SpanPrefix(chars, pad[1..], s);
      assert Span(chars, pad + s) == 1 + Span(chars, pad[1..] + s);
    }
  }

  // ---------------------------------------------------------------------------
  // Whitespace skipping
  // ---------------------------------------------------------------------------

  /**
   * What munch_whitespace leaves of `input`: the input without its longest
   * prefix of space, tab and newline.
   */
  function Munched(input: seq<char>): (r: seq<char>)
    ensures |r| <= |input| && r == input[|input| - |r|..]
    ensures forall i :: 0 <= i < |input| - |r| ==> input[i] in WhitespaceChars
    ensures r == [] || r[0] !in WhitespaceChars
  {
    input[Span(WhitespaceChars, input)..]
  }

  /** The stream an element matches its own content against, after optional whitespace skipping. */
  function Skipped(input: seq<char>, ignoreWhitespace: bool): (r: seq<char>)
    ensures !ignoreWhitespace ==> r == input
    ensures ignoreWhitespace ==> r == Munched(input)
  {
    if ignoreWhitespace then Munched(input) else input
  }

  /** Skipping whitespace twice removes nothing more. */
  lemma MunchedIdempotent(input: seq<char>)
    ensures Munched(Munched(input)) == Munched(input)
  {
    var r := Munched(input);
    assert Span(WhitespaceChars, r) == 0;
  }

  /** Whitespace skipping makes leading whitespace insignificant: any amount of it gives the same result. */
  lemma MunchedPadding(pad: seq<char>, input: seq<char>)
    requires forall i :: 0 <= i < |pad| ==> pad[i] in WhitespaceChars
    ensures Munched(pad + input) == Munched(input)
  {
    SpanPrefix(WhitespaceChars, pad, input);
    assert (pad + input)[|pad| + Span(WhitespaceChars, input)..] == input[Span(WhitespaceChars, input)..];
  }

  /** A carriage return is not whitespace here: skipping never removes one. */
  lemma MunchedKeepsCarriageReturns(input: seq<char>)
    ensures multiset(Munched(input))['\r'] == multiset(input)['\r']
  {
    var k := |input| - |Munched(input)|;
    assert input == input[..k] + Munched(input);
    assert '\r' !in multiset(input[..k]) by {
      forall i | 0 <= i < k ensures input[..k][i] != '\r' {
        assert input[i] in WhitespaceChars;
      }
    }
  }

  // ---------------------------------------------------------------------------
  // The charset element
  // ---------------------------------------------------------------------------

  /**
   * grammarspec::elements::charset: matches up to `n` characters from
   * `chars` (any number when `n` is negative). The first constructor of
   * charset.cpp (from a std::set) is the datatype constructor itself.
   */
  datatype Charset = Charset(chars: set<char>, n: int := Unbounded) {

    /**
     * What charset::match does to a stream holding `input`: skip whitespace
     * if asked, then take the longest run of members within the quota and
     * return it as one token, or return no token when the run is empty.
     */
    function Apply(input: seq<char>, ignoreWhitespace: bool := true): (a: Attempt)
      ensures |a.tokens| <= 1
      ensures Text(a.tokens) + a.rest == Skipped(input, ignoreWhitespace)
      ensures a.tokens == [] <==> a.rest == Skipped(input, ignoreWhitespace)
      ensures forall t :: t in a.tokens ==>
                t.original != [] && forall i :: 0 <= i < |t.original| ==> t.original[i] in chars
      ensures n >= 0 ==> |Text(a.tokens)| <= n
      ensures n == 0 ==> a.tokens == [] && a.rest == Skipped(input, ignoreWhitespace)
      ensures (n < 0 || |Text(a.tokens)| < n) && a.rest != [] ==> a.rest[0] !in chars
    {
      var start := Skipped(input, ignoreWhitespace);
      var k := RunLength(chars, n, start);
      if k == 0 then Attempt([], start)
      else Attempt([Token(start[..k])], start[k..])
    }

    /**
     * charset::match: skips whitespace if asked, runs the peek/get loop and
     * wraps what it took in a token when that is not empty.
     */
    method Match(s: Stream, ignoreWhitespace: bool := true) returns (results: seq<Token>)
      modifies s
      decreases if ignoreWhitespace then 2 else 0
      ensures results == Apply(old(s.rest), ignoreWhitespace).tokens
      ensures s.rest == Apply(old(s.rest), ignoreWhitespace).rest
    {
      if ignoreWhitespace {
        MunchWhitespace(s);
      }
      var matched := TakeRun(s);
      if |matched| != 0 {
        results := [Token(matched)];
      } else {
        results := [];
      }
    }

    /**
     * The loop of charset::match: peeks at the head of the stream and takes
     * it while it is a member and the local copy of the quota allows; the
     * element's own `n` is never changed. Returns what it took.
     */
    method TakeRun(s: Stream) returns (matched: seq<char>)
      modifies s
      ensures matched == old(s.rest)[..RunLength(chars, n, old(s.rest))]
      ensures s.rest == old(s.rest)[RunLength(chars, n, old(s.rest))..]
    {
      ghost var start := s.rest;
      matched := [];
      var nLocal := n;
      var continueMatching := nLocal != 0;
      while continueMatching && s.Good()
        invariant |matched| <= Span(chars, start)
        invariant matched == start[..|matched|] && s.rest == start[|matched|..]
        invariant n < 0 ==> nLocal == n && continueMatching
        invariant n >= 0 ==> |matched| <= n && nLocal == n - |matched| && continueMatching == (nLocal != 0)
        decreases |s.rest|
      {
        if nLocal > 0 {
          nLocal := nLocal - 1;
          if nLocal == 0 {
            continueMatching := false;
          }
        }
        var c := s.Peek();
        if c.Some? && c.value in chars {
          var _ := s.Get();
          matched := matched + [c.value];
        } else {
          break;
        }
      }
      RunLengthUnique(chars, n, start, |matched|);
    }
  }

  /**
   * The string constructor of charset: the set of the characters occurring
   * in `str`, with quota `n` (unbounded by default).
   */
  function FromString(str: string, n: int := Unbounded): (c: Charset)
    ensures forall ch :: ch in c.chars <==> ch in str
    ensures c.n == n
  {
    Charset(set i | 0 <= i < |str| :: str[i], n)
  }

  /** The whitespace element: the charset " \t\n" with the default, unbounded quota. */
  function Whitespace(): (w: Charset)
    ensures w.chars == WhitespaceChars
    ensures w.n == Unbounded
  {
    FromString(" \t\n")
  }

  /**
   * The whitespace element used on its own with its default whitespace
   * skipping: the skipping removes the very run the element should match, so
   * it never returns a token, yet the whitespace is consumed.
   */
  lemma WhitespaceWithSkippingNeverMatches(input: seq<char>)
    ensures Whitespace().Apply(input).tokens == []
    ensures Whitespace().Apply(input).rest == Munched(input)
  {
    assert Span(WhitespaceChars, Munched(input)) == 0;
  }

  /**
   * The whitespace element matched without skipping first: one token holding
   * the leading run of space, tab and newline exactly when the input starts
   * with one, leaving what munch_whitespace leaves.
   */
  function MatchWhitespaceDirectly(input: seq<char>): (a: Attempt)
    ensures a.tokens != [] <==> input != [] && input[0] in WhitespaceChars
    ensures Text(a.tokens) + a.rest == input
    ensures a.rest == Munched(input)
  {
    assert RunLength(WhitespaceChars, Unbounded, input) == Span(WhitespaceChars, input);
    Whitespace().Apply(input, false)
  }

  /**
   * whitespace::munch_whitespace: matches the whitespace element with
   * whitespace skipping switched off and drops the result.
   */
  method MunchWhitespace(s: Stream)
    modifies s
    decreases 1
    ensures s.rest == Munched(old(s.rest))
  {
    var wmatch := Whitespace();
    var wmatchResult := wmatch.Match(s, false);
    ghost var direct := MatchWhitespaceDirectly(old(s.rest));
  }

  /** Whitespace in front of a charset that skips it changes nothing but how much is skipped. */
  lemma CharsetIgnoresLeadingWhitespace(c: Charset, pad: seq<char>, input: seq<char>)
    requires forall i :: 0 <= i < |pad| ==> pad[i] in WhitespaceChars
    ensures c.Apply(pad + input, true) == c.Apply(input, true)
  {
    MunchedPadding(pad, input);
  }
}
