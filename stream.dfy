/**
 * The character stream the elements match against (a std::istream in the
 * source), reduced to the three operations the elements use: peek, get and
 * putback. The stream is the only thing a match changes.
 */
module Streams {

  datatype Option<T> = None | Some(value: T)

  /** An input stream; `rest` is what has not been read yet. */
  class Stream {
    var rest: seq<char>

    constructor (input: seq<char>)
      ensures rest == input
    {
      rest := input;
    }

    /**
     * istream::good. The model has no error bits: the stream is good exactly
     * while a character is left to read.
     */
    predicate Good()
      reads this
      ensures Good() <==> |rest| > 0
    {
      rest != []
    }

    /** istream::peek: the next character, without consuming it; None at the end. */
    method Peek() returns (c: Option<char>)
      ensures rest == [] ==> c == None
      ensures rest != [] ==> c == Some(rest[0])
    {
      c := if rest == [] then None else Some(rest[0]);
    }

    /** istream::get: removes and returns the next character; None (and no change) at the end. */
    method Get() returns (c: Option<char>)
      modifies this
      ensures old(rest) == [] ==> c == None && rest == []
      ensures old(rest) != [] ==> c == Some(old(rest)[0]) && rest == old(rest)[1..]
    {
      if rest == [] {
        c := None;
      } else {
        c := Some(rest[0]);
        rest := rest[1..];
      }
    }

    /** istream::putback: puts `c` back at the head of the stream. */
    method PutBack(c: char)
      modifies this
      ensures rest == [c] + old(rest)
    {
      rest := [c] + rest;
    }
  }
}
