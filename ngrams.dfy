/**
 * An n-gram of consecutive tokens: the tokens' texts joined by single spaces, the
 * offset of its first token and the length it spans in the original text.
 */
module Ngrams {
  import opened JavaLang
  import Tokens

  /** A snapshot of an Ngram's three fields. */
  datatype NgramValue = NgramValue(ngram: string, offset: int, length: int)
  {
    /** The value append leaves: the token's text after a space, the span now reaching its end. */
    function Appended(t: Tokens.Token): (r: NgramValue)
      ensures r.ngram == ngram + " " + t.token && |r.ngram| == |ngram| + 1 + |t.token|
      ensures r.offset == offset && r.offset + r.length == t.offset + t.length
    {
      NgramValue(ngram + " " + t.token, offset, t.offset + t.length - offset)
    }
  }

  /** Ngram.equals: the string, the offset and the length all agree. */
  predicate Equal(a: NgramValue, b: NgramValue)
  {
    a.ngram == b.ngram && a.offset == b.offset && a.length == b.length
  }

  /** Ngram.hashCode: the string hash plus offset plus length, in int arithmetic. */
  function Hash(v: NgramValue): (h: int)
    ensures IsInt32(h)
  {
    Wrap32(StringHash(v.ngram) + v.offset + v.length)
  }

  /** Equality is on the three fields only, and equal n-grams hash alike. */
  lemma EqualIsIdentity(a: NgramValue, b: NgramValue)
    ensures Equal(a, b) <==> a == b
    ensures Equal(a, b) ==> Hash(a) == Hash(b)
  {
  }

  /** An n-gram whose text is built up in place, token by token. */
  class Ngram {
    var normalizedNgram: string
    var offset: int
    var length: int

    function Value(): NgramValue
      reads this
    {
      NgramValue(normalizedNgram, offset, length)
    }

    /** Ngram(String, int, int). */
    constructor (ngram: string, offset: int, length: int)
      ensures Value() == NgramValue(ngram, offset, length)
    {
      this.normalizedNgram := ngram;
      this.offset := offset;
      this.length := length;
    }

    /** Ngram(Token): the one-token n-gram. */
    constructor FromToken(t: Tokens.Token)
      ensures Value() == NgramValue(t.token, t.offset, t.length)
    {
      normalizedNgram := t.token;
      offset := t.offset;
      length := t.length;
    }

    /**
     * append: the token's text is added after a space, the offset is kept and the
     * length now reaches the end of the token.
     */
    method Append(t: Tokens.Token)
      modifies this
      ensures normalizedNgram == old(normalizedNgram) + " " + t.token
      ensures offset == old(offset)
      ensures length == t.offset + t.length - offset
      ensures Value() == old(Value()).Appended(t)
    {
      normalizedNgram := normalizedNgram + " " + t.token;
      length := t.offset + t.length - offset;
    }

    /** copy: a new, independent Ngram with equal fields. */
    method Copy() returns (c: Ngram)
      ensures fresh(c)
      ensures c.Value() == Value() && Equal(c.Value(), Value())
    {
      c := new Ngram(normalizedNgram, offset, length);
    }
  }

  /** A copy keeps the original's fields even when the original is appended to afterwards. */
  method CopyThenAppend(n: Ngram, t: Tokens.Token) returns (c: Ngram)
    modifies n
    ensures fresh(c)
    ensures c.Value() == old(n.Value())
    ensures n.Value() == NgramValue(old(n.normalizedNgram) + " " + t.token, old(n.offset), t.offset + t.length - old(n.offset))
  {
    c := n.Copy();
    n.Append(t);
  }
}
