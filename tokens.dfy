/** A single normalised token of the input text, with its position in the original text. */
module Tokens {
  import opened JavaLang

  /** An immutable token: the lowercased text, its offset and the length of the original text. */
  datatype Token = Token(token: string, offset: int, length: int)

  /** The constructor: lowercases the text and records the length of the argument. */
  function NewToken(text: string, offset: int): (t: Token)
    ensures |t.token| == t.length == |text|
    ensures forall i :: 0 <= i < |text| ==> t.token[i] == LowerChar(text[i])
    ensures t.offset == offset
  {
    Token(ToLower(text), offset, |text|)
  }

  /** Token.equals: the text, the offset and the length all agree. */
  predicate Equal(a: Token, b: Token)
  {
    a.token == b.token && a.offset == b.offset && a.length == b.length
  }

  /** Token.hashCode: the string hash plus offset plus length, in int arithmetic. */
  function Hash(t: Token): (h: int)
    ensures IsInt32(h)
  {
    Wrap32(StringHash(t.token) + t.offset + t.length)
  }

  /** Field equality is exactly value identity, and equal tokens hash alike. */
  lemma EqualIsIdentity(a: Token, b: Token)
    ensures Equal(a, b) <==> a == b
    ensures Equal(a, b) ==> Hash(a) == Hash(b)
  {
  }

  /** Lowercasing is idempotent: rebuilding a token from its own text changes nothing. */
  lemma {:induction false} NewTokenIdempotent(text: string, offset: int)
    ensures NewToken(NewToken(text, offset).token, offset) == NewToken(text, offset)
  {
    var t := NewToken(text, offset);
    var u := NewToken(t.token, offset);
    forall i | 0 <= i < |text|
      ensures u.token[i] == t.token[i]
    {
      assert LowerChar(LowerChar(text[i])) == LowerChar(text[i]);
    }
    assert u.token == t.token;
  }
}
