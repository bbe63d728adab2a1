/** The ground-truth and solution records of the evaluation: plain values with field equality. */
module Annotations {
  import opened OrderedMaps
  import opened Mentions

  /** An entity annotation of the token span at offset, of this length, in a file. */
  datatype Annotation = Annotation(entity: int, offset: int, length: int, filename: string)

  /** An annotation given by name, entity and file; the position does not matter. */
  datatype NameAnnotation = NameAnnotation(name: string, entity: int, filename: string)

  /** The annotations of a solution: one per entry, at the mention's offset and length. */
  function AnnotationsOf(solution: OrderedMap<MentionKey, int>, filename: string): set<Annotation>
  {
    set k | k in solution.values :: Annotation(solution.values[k], k.1, k.2, filename)
  }

  /** The loop over a solution's entries that builds its annotation set. */
  method AnnotationsFor(s: OrderedMap<MentionKey, int>, filename: string) returns (annotations: set<Annotation>)
    requires s.Valid()
    ensures annotations == AnnotationsOf(s, filename)
  {
    annotations := {};
    var keys := s.keys;
    var k := 0;
    while k < |keys|
      invariant 0 <= k <= |keys|
      invariant annotations == set q | q in keys[..k] :: Annotation(s.values[q], q.1, q.2, filename)
    {
      assert keys[..k + 1] == keys[..k] + [keys[k]];
      annotations := annotations + {Annotation(s.values[keys[k]], keys[k].1, keys[k].2, filename)};
      k := k + 1;
    }
    assert keys[..k] == keys;
  }
}
