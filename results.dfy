/**
 * Parse results (results.h).
 *
 * A successful match returns a list of results; the only result kind the
 * repository implements is the token, which stores a copy of the text it
 * consumed. The text is fixed at construction: a datatype value cannot change.
 */
module Results {

  /** results::token, with the `original` field it inherits from results::result. */
  datatype Token = Token(original: string) {

    /** result::get_original: the text the result was constructed with. */
    function GetOriginal(): (s: string)
      ensures s == original
    {
      original
    }

    /** token::matched_item: the matched text, the same as GetOriginal(). */
    function MatchedItem(): (s: string)
      ensures s == GetOriginal()
    {
      original
    }
  }

  /** Concatenation of the texts of a list of results, in order. */
  function Text(tokens: seq<Token>): (s: string)
    ensures tokens == [] ==> s == []
    ensures |tokens| == 1 ==> s == tokens[0].original
  {
    if tokens == [] then [] else tokens[0].original + Text(tokens[1..])
  }

  /**
   * One call of an element's `match`, as a value: the list of results it
   * returns and what is left in the stream afterwards.
   */
  datatype Attempt = Attempt(tokens: seq<Token>, rest: seq<char>)
}
