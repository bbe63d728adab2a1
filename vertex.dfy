/**
 * A vertex of the referent graph as the Vertex class declares it: a mention id, an entity id
 * and a prior. A mention vertex carries the sentinel entity id IS_MENTION.
 */
module Vertices {
  import opened JavaLang

  /** The entity id that marks a mention vertex. */
  const IS_MENTION: int := 2

  datatype Vertex = Vertex(mentionid: int, entityid: int, prior: real)

  /** Vertex(mentionid, prior): a mention vertex. */
  function MentionVertex(mentionid: int, prior: real): (v: Vertex)
    ensures v.mentionid == mentionid && v.prior == prior && IsMention(v)
  {
    Vertex(mentionid, IS_MENTION, prior)
  }

  /** Vertex(mentionid, entityid, prior): getters return the arguments unchanged. */
  function EntityVertex(mentionid: int, entityid: int, prior: real): (v: Vertex)
    ensures v.mentionid == mentionid && v.entityid == entityid && v.prior == prior
    ensures IsMention(v) <==> entityid == IS_MENTION
  {
    Vertex(mentionid, entityid, prior)
  }

  predicate IsMention(v: Vertex)
  {
    v.entityid == IS_MENTION
  }

  /** Vertex.equals: the mention id and the entity id agree; the prior is ignored. */
  predicate Equal(a: Vertex, b: Vertex)
  {
    a.mentionid == b.mentionid && a.entityid == b.entityid
  }

  /** Vertex.hashCode: the sum of the two ids, in int arithmetic. */
  function Hash(v: Vertex): (h: int)
    ensures IsInt32(h)
  {
    Wrap32(v.mentionid + v.entityid)
  }

  /** Equality is an equivalence that ignores the prior, and equal vertices hash alike. */
  lemma EqualIsEquivalence(a: Vertex, b: Vertex, c: Vertex)
    ensures Equal(a, a)
    ensures Equal(a, b) ==> Equal(b, a) && Hash(a) == Hash(b)
    ensures Equal(a, b) && Equal(b, c) ==> Equal(a, c)
    ensures Equal(a, a.(prior := b.prior))
  {
  }

  /**
   * The sentinel collides with entity 2: a candidate vertex for entity 2 reports itself as a
   * mention and equals the mention vertex of the same mention id.
   */
  lemma SentinelCollision(mentionid: int, p: real, q: real)
    ensures IsMention(EntityVertex(mentionid, 2, p))
    ensures Equal(EntityVertex(mentionid, 2, p), MentionVertex(mentionid, q))
  {
  }
}
