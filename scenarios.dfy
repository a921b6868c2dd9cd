/**
 * The behaviour of the elements on a few concrete streams, derived from the
 * contracts of the other modules.
 */
module Scenarios {
  import opened Results
  import opened Streams
  import opened Charsets
  import opened Literals

  /** A charset over {a, b} with quota 2 takes "aa" from "aab c" and leaves "b c". */
  lemma CharsetBounded()
    ensures Charset({'a', 'b'}, 2).Apply("aab c", false) == Attempt([Token("aa")], "b c")
  {
    assert "aab c" == "aab" + " c";
    SpanPrefix({'a', 'b'}, "aab", " c");
    assert Span({'a', 'b'}, " c") == 0;
    assert "aab c"[..2] == "aa" && "aab c"[2..] == "b c";
  }

  /** An unbounded charset over {a, b} takes "aabbb" from "aabbbc" and leaves "c". */
  lemma CharsetUnbounded()
    ensures Charset({'a', 'b'}, -1).Apply("aabbbc", false) == Attempt([Token("aabbb")], "c")
  {
    assert "aabbbc" == "aabbb" + "c";
    SpanPrefix({'a', 'b'}, "aabbb", "c");
    assert Span({'a', 'b'}, "c") == 0;
    assert "aabbbc"[..5] == "aabbb" && "aabbbc"[5..] == "c";
  }

  /** The literal "ohai" matches at the head of "ohai there" and leaves " there". */
  lemma LiteralOhai()
    ensures Literal("ohai").Apply("ohai there", true) == Attempt([Token("ohai")], " there")
  {
    var input := "ohai there";
    assert input[0] == 'o' && 'o' !in WhitespaceChars;
    assert Span(WhitespaceChars, input) == 0;
    assert input[..4] == "ohai" && input[4..] == " there";
  }

  /** The literal "ohai" fails on "ohbye" and leaves the stream as it was. */
  lemma LiteralOhbye()
    ensures Literal("ohai").Apply("ohbye", true) == Attempt([], "ohbye")
  {
    var input := "ohbye";
    assert input[0] == 'o' && 'o' !in WhitespaceChars;
    assert Span(WhitespaceChars, input) == 0;
    assert input[..4][2] != "ohai"[2];
  }

  /**
   * The mismatch-and-rewind path on a real stream: literal "ohai" read from
   * "ohbye" returns no token and puts back what it read.
   */
  method UnwindClient() returns (tokens: seq<Token>, rest: string)
    ensures tokens == [] && rest == "ohbye"
  {
    var s := new Stream("ohbye");
    ghost var read;
    tokens, read := Literal("ohai").Match(s, true);
    LiteralOhbye();
    rest := s.rest;
  }
}
