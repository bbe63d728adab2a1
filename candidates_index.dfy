/**
 * What mention detection needs from a name index: for a normalised surface form, its
 * keyphraseness pair (documents where it is linked, documents where it occurs) and its
 * candidate entities. Both name indexes of the knowledge base are read through this view.
 */
module CandidatesIndexes {
  datatype IndexEntry = IndexEntry(linkedDocs: int, totalDocs: int, candidates: seq<int>)

  type CandidatesIndex = map<string, IndexEntry>

  /** Every stored entry occurs in at least one document, so keyphraseness is a proper ratio. */
  predicate WellFormed(index: CandidatesIndex)
  {
    forall name :: name in index ==> index[name].totalDocs > 0
  }
}
