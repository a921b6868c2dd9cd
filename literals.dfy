/**
 * The literal element (literal.cpp): matches one fixed string atomically.
 * On a mismatch it puts the characters it read back on the stream, last
 * first, so that the stream is as it was after whitespace skipping.
 */
module Literals {
  import opened Results
  import opened Streams
  import opened Charsets

  // ---------------------------------------------------------------------------
  // Unwinding
  // ---------------------------------------------------------------------------

  /** The characters of `s`, last first: what a reverse iterator visits. */
  function Reverse(s: seq<char>): (r: seq<char>)
    ensures |r| == |s|
    ensures forall i :: 0 <= i < |s| ==> r[i] == s[|s| - 1 - i]
  {
    if s == [] then [] else [s[|s| - 1]] + Reverse(s[..|s| - 1])
  }

  /**
   * The stream `r` after putback of each character of `cs` in turn, first
   * to last: the character put back last ends up at the head.
   */
  function PutBackAll(cs: seq<char>, r: seq<char>): (t: seq<char>)
    ensures |t| == |cs| + |r|
  {
    if cs == [] then r else [cs[|cs| - 1]] + PutBackAll(cs[..|cs| - 1], r)
  }

  /** Putting back the characters of `s` in reverse order restores `s` in front of the stream. */
  lemma {:induction false} PutBackReversed(s: seq<char>, r: seq<char>)
    ensures PutBackAll(Reverse(s), r) == s + r
  {
    if s != [] {
      var rev := Reverse(s);
      assert rev[|rev| - 1] == s[0];
      assert rev[..|rev| - 1] == Reverse(s[1..]);
      PutBackReversed(s[1..], r);
      assert s + r == [s[0]] + (s[1..] + r);
    }
  }

  // ---------------------------------------------------------------------------
  // The literal element
  // ---------------------------------------------------------------------------

  /** grammarspec::elements::literal: matches exactly `text`. */
  datatype Literal = Literal(text: string) {

    /**
     * What literal::match does to a stream holding `input`: skip whitespace
     * if asked; succeed with one token holding `text` exactly when the rest
     * starts with `text`, otherwise return no token and leave the rest as it
     * was after the skipping.
     */
    function Apply(input: seq<char>, ignoreWhitespace: bool := true): (a: Attempt)
      ensures a.tokens == [] || a.tokens == [Token(text)]
      ensures a.tokens != [] <==> text <= Skipped(input, ignoreWhitespace)
      ensures Text(a.tokens) + a.rest == Skipped(input, ignoreWhitespace)
    {
      var start := Skipped(input, ignoreWhitespace);
      if text <= start then Attempt([Token(text)], start[|text|..]) else Attempt([], start)
    }

    /**
     * literal::match: reads up to |text| characters while the stream is
     * good, compares them with `text`, and on a mismatch puts them back in
     * reverse order. `read` is the text the loop pulled from the stream.
     */
    method Match(s: Stream, ignoreWhitespace: bool := true) returns (results: seq<Token>, ghost read: seq<char>)
      modifies s
      ensures results == Apply(old(s.rest), ignoreWhitespace).tokens
      ensures s.rest == Apply(old(s.rest), ignoreWhitespace).rest
      ensures |read| <= |text| && read <= Skipped(old(s.rest), ignoreWhitespace)
      ensures |read| == |text| || read == Skipped(old(s.rest), ignoreWhitespace)
    {
      results := [];
      if ignoreWhitespace {
        MunchWhitespace(s);
      }
      ghost var start := s.rest;

      var tryString: seq<char> := [];
      var count := 0;
      while count < |text|
        invariant count <= |text| && count <= |start|
        invariant tryString == start[..count] && s.rest == start[count..]
      {
        if s.Good() {
          var c := s.Get();
          tryString := tryString + [c.value];
        } else {
          break;
        }
        count := count + 1;
      }
      read := tryString;
      assert count == |text| || count == |start|;

      assert tryString == text <==> text <= start;
      if tryString == text {
        results := [Token(text)];
      } else {
        Unwind(s, tryString);
      }
    }
  }

  /**
   * The unwinding loop of literal::match: puts back the characters of
   * `tried` with a reverse iterator, so that they are in front of the stream
   * again, in their original order.
   */
  method Unwind(s: Stream, tried: seq<char>)
    modifies s
    ensures s.rest == tried + old(s.rest)
  {
    var rev := Reverse(tried);
    var j := 0;
    while j < |rev|
      invariant j <= |rev|
      invariant s.rest == PutBackAll(rev[..j], old(s.rest))
    {
      assert rev[..j + 1][..j] == rev[..j];
      s.PutBack(rev[j]);
      j := j + 1;
    }
    assert rev[..j] == rev;
    PutBackReversed(tried, old(s.rest));
  }

  /** The empty literal always matches: it consumes nothing beyond whitespace and returns the token "". */
  lemma EmptyLiteralMatches(input: seq<char>, ignoreWhitespace: bool)
    ensures Literal([]).Apply(input, ignoreWhitespace) == Attempt([Token([])], Skipped(input, ignoreWhitespace))
  {
  }

  /** Whitespace in front of a literal changes nothing but how much is skipped. */
  lemma LiteralIgnoresLeadingWhitespace(lit: Literal, pad: seq<char>, input: seq<char>)
    requires forall i :: 0 <= i < |pad| ==> pad[i] in WhitespaceChars
    ensures lit.Apply(pad + input, true) == lit.Apply(input, true)
  {
    MunchedPadding(pad, input);
  }
}
