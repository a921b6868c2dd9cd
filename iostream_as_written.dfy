/**
 * literal::match as written, over the state bits of a std::istringstream.
 *
 * The rest of the model treats the end of the stream as "stop reading". The
 * source instead tests good(), which stays true until a read fails. So when
 * fewer characters are left than the literal has, the loop calls get() once
 * past the end. That call returns EOF, which the loop stores as the character
 * (char)EOF, and it sets eofbit and failbit. putback then clears eofbit but
 * does nothing while failbit is set, so the characters read are never put
 * back. This module models that behaviour and exhibits the difference.
 */
module IostreamAsWritten {
  import Literals

  /** (char)EOF: the character trystream.put stores when get() hits the end. */
  const EofChar: char := '\U{FF}'

  /** A std::istringstream: the unread characters and its eofbit and failbit. */
  datatype IoState = IoState(rest: seq<char>, eof: bool, fail: bool)

  /** A fresh stream over `s`, with no state bit set. */
  function Fresh(s: seq<char>): (st: IoState)
    ensures st.rest == s && !st.eof && !st.fail
  {
    IoState(s, false, false)
  }

  /** istream::good: no state bit is set. */
  predicate Good(st: IoState)
    ensures Good(st) ==> !st.fail
  {
    !st.eof && !st.fail
  }

  /**
   * istream::get(): the next character. On a stream that is not good, or at
   * the end, it sets failbit (and eofbit at the end) and returns EOF.
   */
  function Get(st: IoState): (r: (IoState, char))
    ensures Good(st) && st.rest != [] ==> r == (Fresh(st.rest[1..]), st.rest[0])
    ensures !(Good(st) && st.rest != []) ==> r.0.fail && r.0.rest == st.rest && r.1 == EofChar
  {
    if !Good(st) then (st.(fail := true), EofChar)
    else if st.rest == [] then (st.(eof := true, fail := true), EofChar)
    else (st.(rest := st.rest[1..]), st.rest[0])
  }

  /** istream::putback(c): clears eofbit; then puts `c` back only if failbit is clear. */
  function PutBack(st: IoState, c: char): (r: IoState)
    ensures !r.eof && r.fail == st.fail
    ensures r.rest == if st.fail then st.rest else [c] + st.rest
  {
    var cleared := st.(eof := false);
    if cleared.fail then cleared else cleared.(rest := [c] + cleared.rest)
  }

  /** The reading loop of literal.cpp: up to `count` calls of get() while good(); returns what was stored. */
  function ReadLoop(st: IoState, count: nat): (r: (IoState, seq<char>))
    ensures |r.1| <= count
    ensures !Good(st) ==> r == (st, [])
    decreases count
  {
    if count == 0 || !Good(st) then (st, [])
    else
      var (st1, c) := Get(st);
      var (st2, tried) := ReadLoop(st1, count - 1);
      (st2, [c] + tried)
  }

  /** The unwinding loop of literal.cpp: putback of each stored character, last first. */
  function UnwindLoop(st: IoState, tried: seq<char>): (r: IoState)
    ensures r.fail == st.fail
    ensures tried != [] ==> !r.eof
    decreases |tried|
  {
    if tried == [] then st else UnwindLoop(PutBack(st, tried[|tried| - 1]), tried[..|tried| - 1])
  }

  /**
   * literal::match as written, without whitespace skipping: whether a token
   * is returned, and the stream afterwards. This is `match(stream, false)`.
   * With the default `true` the body is the same after munch_whitespace,
   * which on a stream that does not start with whitespace only peeks and
   * sets no state bit (munch_whitespace is modelled in Charsets).
   */
  function LiteralAsWritten(text: string, st: IoState): (r: (bool, IoState))
    ensures !Good(st) ==> r == (text == [], st)
  {
    var (st1, tried) := ReadLoop(st, |text|);
    if tried == text then (true, st1) else (false, UnwindLoop(st1, tried))
  }

  /** While enough characters are left, the reading loop reads them and sets no state bit. */
  lemma {:induction false} ReadLoopLongEnough(s: seq<char>, count: nat)
    requires count <= |s|
    ensures ReadLoop(Fresh(s), count) == (Fresh(s[count..]), s[..count])
  {
    if count > 0 {
      ReadLoopLongEnough(s[1..], count - 1);
      assert s[1..][count - 1..] == s[count..];
      assert [s[0]] + s[1..][..count - 1] == s[..count];
    }
  }

  /**
   * Past the end, the reading loop consumes everything, stores one EOF
   * after it and leaves failbit set.
   */
  lemma {:induction false} ReadLoopTooShort(s: seq<char>, count: nat)
    requires |s| < count
    ensures ReadLoop(Fresh(s), count).0.rest == [] && ReadLoop(Fresh(s), count).0.fail
    ensures ReadLoop(Fresh(s), count).1 == s + [EofChar]
  {
    if s == [] {
      var (st1, c) := Get(Fresh(s));
      assert !Good(st1);
      assert ReadLoop(st1, count - 1) == (st1, []);
    } else {
      ReadLoopTooShort(s[1..], count - 1);
      assert [s[0]] + (s[1..] + [EofChar]) == s + [EofChar];
    }
  }

  /** On a good stream, the unwinding loop puts every character back, in the original order. */
  lemma {:induction false} UnwindLoopGood(tried: seq<char>, r: seq<char>)
    ensures UnwindLoop(Fresh(r), tried) == Fresh(tried + r)
    decreases |tried|
  {
    if tried == [] {
      assert tried + r == r;
    } else {
      var last := |tried| - 1;
      var c := tried[last];
      var front := tried[..last];
      calc {
        UnwindLoop(Fresh(r), tried);
        UnwindLoop(PutBack(Fresh(r), c), front);
        { assert PutBack(Fresh(r), c) == Fresh([c] + r); }
        UnwindLoop(Fresh([c] + r), front);
        { UnwindLoopGood(front, [c] + r); }
        Fresh(front + ([c] + r));
        { assert front + ([c] + r) == tried + r; }
        Fresh(tried + r);
      }
    }
  }

  /** Once failbit is set, the unwinding loop puts nothing back. */
  lemma {:induction false} UnwindLoopFailed(st: IoState, tried: seq<char>)
    requires st.fail
    ensures UnwindLoop(st, tried).rest == st.rest && UnwindLoop(st, tried).fail
    decreases |tried|
  {
    if tried != [] {
      UnwindLoopFailed(PutBack(st, tried[|tried| - 1]), tried[..|tried| - 1]);
    }
  }

  /**
   * Where the stream holds at least |text| characters, the code as written
   * agrees with the model: same outcome, same stream, no state bit set.
   */
  lemma AsWrittenAgreesWhenLongEnough(text: string, s: seq<char>)
    requires |text| <= |s|
    ensures LiteralAsWritten(text, Fresh(s)).0 == (Literals.Literal(text).Apply(s, false).tokens != [])
    ensures LiteralAsWritten(text, Fresh(s)).1 == Fresh(Literals.Literal(text).Apply(s, false).rest)
  {
    ReadLoopLongEnough(s, |text|);
    UnwindLoopGood(s[..|text|], s[|text|..]);
    assert s[..|text|] + s[|text|..] == s;
  }

  /**
   * Where the stream holds fewer characters than a literal, the code as
   * written fails and leaves the stream empty and failed: the characters it
   * read are lost. The literal must not contain (char)EOF: the read loop
   * stores that character past the end, so a literal whose text is the
   * stream followed by (char)EOF matches (see AsWrittenMatchesPastEnd).
   */
  lemma AsWrittenLosesShortStream(text: string, s: seq<char>)
    requires |s| < |text|
    requires EofChar !in text
    ensures !LiteralAsWritten(text, Fresh(s)).0
    ensures LiteralAsWritten(text, Fresh(s)).1.rest == [] && LiteralAsWritten(text, Fresh(s)).1.fail
  {
    ReadLoopTooShort(s, |text|);
    var (st1, tried) := ReadLoop(Fresh(s), |text|);
    assert tried[|s|] == EofChar;
    UnwindLoopFailed(st1, tried);
  }

  /**
   * The one short-stream case where the code as written succeeds: the
   * literal is the whole stream followed by (char)EOF. It returns a token
   * holding a character the stream never had and leaves the stream empty
   * and failed, while the corrected literal fails and consumes nothing.
   */
  lemma AsWrittenMatchesPastEnd(s: seq<char>)
    ensures LiteralAsWritten(s + [EofChar], Fresh(s)).0
    ensures LiteralAsWritten(s + [EofChar], Fresh(s)).1.rest == []
    ensures LiteralAsWritten(s + [EofChar], Fresh(s)).1.fail
    ensures Literals.Literal(s + [EofChar]).Apply(s, false).tokens == []
    ensures Literals.Literal(s + [EofChar]).Apply(s, false).rest == s
  {
    ReadLoopTooShort(s, |s| + 1);
  }

  /**
   * The input that shows it: literal "ohai" on the stream "oh". The code as
   * written leaves the stream empty; the corrected literal leaves "oh".
   */
  lemma OhaiOnOh()
    ensures LiteralAsWritten("ohai", Fresh("oh")).1.rest == []
    ensures Literals.Literal("ohai").Apply("oh", false).rest == "oh"
  {
    AsWrittenLosesShortStream("ohai", "oh");
  }
}
