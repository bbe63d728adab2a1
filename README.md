# Entity linking on Wikipedia: a Dafny model of the disambiguation core

This project models the per-document core of an entity-linking system for Wikipedia text:

- **Mention detection** (`src/md`). A delimiter tokenizer turns text into tokens. A circular buffer gathers every n-gram of up to `maxSize` tokens. Each n-gram is looked up in a name index, and the mentions are kept either as the best K by keyphraseness (a tree ordered by `compareTo`) or by a threshold. Mention detection also extracts a context window around a mention and counts term frequencies.
- **Random graph walk** (`src/baseline`). Builds the referent graph:
  - mention→candidate edges normalised by the compatibility sum, with a HALF_UP fallback when that sum is zero;
  - candidate→candidate edges normalised by the summed relatedness, looked up through a symmetric memo.

  Each mention then takes the candidate with the first maximal compatibility × stationary score.
- **Loopy belief propagation** (`src/loopybeliefpropagation`):
  - message initialisation;
  - max-product sweeps over ordered mention pairs;
  - batch normalisation by the minimum of the maxima;
  - the convergence/iteration-cap loop;
  - the memoised neighbour-message sum;
  - the basic scorer, with its static BETA;
  - the two symmetric pair caches.
- **Knowledge-base indexes** (`src/index`, `src/data`):
  - the per-line parse and filter rules of the loaders;
  - sorted-list intersection, popularity and cocitation;
  - smoothed document frequency;
  - the text and binary round trips of `CandidatesEntry` and `EntityLinksEntry`.
- **String helpers**: the pure parts of `Normalizer`, and the title predicates of `WikiUtils`.
- **Evaluation**: how `Verifier` and `VerifierMentionDetection` split solutions and ground truth, and how they compute precision and recall.
- **Index-building map/reduce bodies**. Each mapper is a function from a page to the sequence of pairs it emits. Each reducer is a function from a key and its values to what it writes. The stateful `noLinks` reducer and the custom partitioner are modelled too.

Java is modelled as follows:

- An `int` computation that can overflow is written out with 32-bit wrap-around, except the sums listed under "Left out", which are unbounded integers.
- A thrown exception is an `Err` result.
- A `String` is a sequence of Unicode characters, which matches Java's UTF-16 code units on text within the Basic Multilingual Plane (see "Left out").
- The iteration order of a `HashMap` or `HashSet` is either a parameter tied to the key set by a precondition, or, for the maps held in an `OrderedMap` (CandidatesEntry.topCandidates, Mention.candidates, the score and solution maps), the order of first insertion.
- A `BigDecimal` is an exact real.
- Objects whose fields the source updates in place are classes with `modifies` clauses. Examples are `Mention`, `Ngram`, the entries, `MessagesMap`, the two solvers, `ScorerBasic`, the verifiers and the links reducer.
- Loops are methods proved against specification functions.

## Model

| member | source | states |
|---|---|---|
| WikiUtils.ListPageMeaning | src/knowledgebase/WikiUtils.java:10-12 | isListPage holds exactly for titles that begin with "List of " (with the space) or with "list of" (without one) |
| WikiUtils.PageTestsMeaning | src/knowledgebase/WikiUtils.java:14-20 | isDisambiguationPage holds iff "(disambiguation)" occurs somewhere in the title; isCategoryPage holds iff the title contains ':' anywhere |
| WikiUtils.PageTestsIndependent | src/knowledgebase/WikiUtils.java:10-20 | the three tests are independent: one title passes all three; "list ofs" is a list page while "List ofs" is not |
| Tokens.NewToken | src/md/Token.java:13-17 | the stored text is the argument lowercased character by character, the length is the argument's length, the offset is kept |
| Tokens.EqualIsIdentity | src/md/Token.java:36-54 | equals on (token, offset, length) is exactly value identity, and equal tokens have equal hashCode |
| Tokens.NewTokenIdempotent | src/md/Token.java:13-17 | building a token from an existing token's text gives the same token (lowercasing is idempotent) |
| Vertices.MentionVertex | src/baseline/Vertex.java:16-20 | the mention constructor keeps mentionid and prior and yields a vertex for which isMention holds |
| Vertices.EntityVertex | src/baseline/Vertex.java:22-42 | the getters return the constructor arguments; isMention holds iff the entity id is IS_MENTION = 2 |
| Vertices.EqualIsEquivalence | src/baseline/Vertex.java:44-61 | equals on (mentionid, entityid) is reflexive, symmetric and transitive, ignores the prior, and equal vertices hash alike |
| Vertices.SentinelCollision | src/baseline/Vertex.java:10-55 | a candidate vertex for entity 2 reports isMention and equals the mention vertex with the same mentionid, whatever the priors |
| Ngrams.NgramValue.Appended | src/md/Ngram.java:46-49 | the value after append: the text gains a space and the token's text, the offset stays, and offset + length reaches the end of the token |
| Ngrams.EqualIsIdentity | src/md/Ngram.java:60-78 | equals on (string, offset, length) is exactly value identity, and equal n-grams have equal hashCode |
| Ngrams.Ngram.constructor | src/md/Ngram.java:14-18 | Ngram(String, int, int) stores the three arguments |
| Ngrams.Ngram.FromToken | src/md/Ngram.java:20-24 | Ngram(Token) copies the token's text, offset and length |
| Ngrams.Ngram.Append | src/md/Ngram.java:46-49 | append adds " " + token text, keeps the offset and sets length = token offset + token length − offset |
| Ngrams.Ngram.Copy | src/md/Ngram.java:51-53 | copy returns a fresh Ngram equal to the original |
| Ngrams.CopyThenAppend | src/md/Ngram.java:46-53 | a copy keeps the original's fields when the original is appended to afterwards |
| Mentions.MentionKeys | src/md/Mention.java:185-198 | the equality key (ngram, offset, length) of every mention, position by position |
| Mentions.HashConsistent | src/md/Mention.java:185-229 | mentions that are equal have equal hashCode, whatever their scores |
| Mentions.CompareTo | src/md/Mention.java:207-219 | the result is 0 iff keyphraseness, offset and n-gram string agree, and its sign follows the strict order by keyphraseness, then offset, then n-gram |
| Mentions.LessStrictOrder | src/md/Mention.java:207-219 | the order compareTo reports is irreflexive and transitive |
| Mentions.LessTotal | src/md/Mention.java:207-219 | two mentions that compareTo does not call the same are ordered one way or the other |
| Mentions.CompareToIgnoresLength | src/md/Mention.java:185-219 | compareTo can return 0 for mentions that are not equal, because the length is ignored |
| Mentions.SumScoresAfterPut | src/md/Mention.java:83-85 | putting a score for an entity replaces that entity's term of the score sum and leaves the rest |
| Mentions.SearchIndex | src/md/Mention.java:146-158 | the binary search settles on an index inside the token list, or 0 for an empty list |
| Mentions.WindowBounds | src/md/Mention.java:160-170 | the window lies inside [0, n) and has exactly min(n, WINDOW_SIZE) tokens |
| Mentions.ContextSize | src/md/Mention.java:145-177 | extractContext always returns min(the token count, WINDOW_SIZE) consecutive token strings, none for no tokens |
| Mentions.SearchFromFinds | src/md/Mention.java:146-158 | on tokens in increasing offset order, the search stops at the index of the token with the mention's offset |
| Mentions.ContextAroundMatch | src/md/Mention.java:145-177 | when a token has the mention's offset, the context is the token strings of the window around that index, clamped at the ends |
| Mentions.ContextExample | src/tests/UnitTests.java:64-88 | with a window of 3 over michael/lived/in/los, offsets 17, 14, 8, 0 give [lived,in,los] twice and [michael,lived,in] twice |
| Mentions.Mention.constructor | src/md/Mention.java:36-41 | a new mention holds the n-gram, offset and length, an empty candidate map and zero statistics |
| Mentions.Mention.FromNgram | src/md/Mention.java:43-49 | Mention(Ngram) takes the n-gram's string, offset and length |
| Mentions.Mention.SetEntityCompatibilityScore | src/md/Mention.java:83-85 | only that entity's score is inserted or overwritten; every other field is unchanged |
| Mentions.Mention.SetImportance | src/md/Mention.java:95-97 | only the importance changes |
| Mentions.Mention.ComputeKeyphrasenessAndDF | src/md/Mention.java:123-127 | df becomes the index's total-docs count and keyphraseness linked/total; a name missing from the index is a NullPointerException that changes nothing |
| Mentions.Mention.ComputeSumCompatibilities | src/md/Mention.java:129-135 | the sum of all candidate scores, 0 with no candidates |
| Mentions.Mention.SearchOffset | src/md/Mention.java:146-158 | the loop of extractContext's binary search computes the search index |
| Mentions.Mention.ExtractContext | src/md/Mention.java:145-177 | the result is the context of the mention's offset in the token list |
| Verifiers.Quotient | src/evaluation/Verifier.java:43-44 | (double) a / b on counts: not a number exactly when b = 0 (NaN when a is also 0); for a ≤ b a value in [0, 1] that is 1 exactly when a = b |
| Verifiers.Verifier.constructor | src/evaluation/Verifier.java:16-20 | the three result lists start empty and precision and recall are 0.0 |
| Verifiers.Verifier.ComputeResults | src/evaluation/Verifier.java:22-45 | appends the solution annotations in the ground truth to correct, the others to wrong, the missed ground-truth annotations to notFound, without clearing earlier results; precision = good/the solution size, recall = good/the ground-truth size |
| Verifiers.SplitSolution | src/evaluation/Verifier.java:27-35 | the first loop puts every solution annotation in correct (kept) or wrong (dropped) and counts the correct ones |
| Verifiers.Missing | src/evaluation/Verifier.java:37-41 | notFound is exactly the ground-truth annotations the solution lacks, in order |
| Verifiers.KeepDropMeaning | src/evaluation/Verifier.java:27-41 | an annotation is correct iff it is in both sets and wrong (or not found) iff it is in the first only |
| Verifiers.KeepDropCount | src/evaluation/Verifier.java:27-35 | every annotation lands in exactly one of the two lists, so their lengths add up |
| Verifiers.KeepCount | src/evaluation/Verifier.java:27-35 | on a set, the number of correct annotations is the size of the intersection |
| Verifiers.ResultCounts | src/evaluation/Verifier.java:22-41 | for one call on fresh lists, correct + wrong = the solution size and correct + notFound = the ground-truth size |
| Verifiers.ResultRatios | src/evaluation/Verifier.java:43-44 | precision and recall are NaN for an empty denominator, otherwise in [0, 1], and 1 exactly when nothing is wrong, respectively nothing is missed |
| VerifierMentionDetections.SearchMention | src/evaluation/VerifierMentionDetection.java:56-64 | true iff some annotation has the mention's original n-gram as name and an entity among its candidates |
| VerifierMentionDetections.SearchNameAnnotation | src/evaluation/VerifierMentionDetection.java:66-74 | true iff some mention matches the annotation in the same sense |
| VerifierMentionDetections.Found | src/evaluation/VerifierMentionDetection.java:42-49 | every good annotation is a ground-truth annotation that some mention matches, and there are at most as many as ground-truth annotations |
| VerifierMentionDetections.Precision | src/evaluation/VerifierMentionDetection.java:51-52 | good/(good + wrong), or 1.0 when that is 0; always in [0, 1] and 1 exactly when nothing is wrong |
| VerifierMentionDetections.Recall | src/evaluation/VerifierMentionDetection.java:53 | good/the ground-truth size, or 1.0 for an empty ground truth; always in [0, 1] and 1 exactly when good = the ground-truth size |
| VerifierMentionDetections.VerifierMentionDetection.constructor | src/evaluation/VerifierMentionDetection.java:25-29 | the result collections start empty |
| VerifierMentionDetections.VerifierMentionDetection.ComputeResults | src/evaluation/VerifierMentionDetection.java:31-54 | adds the wrong n-grams to the set and the good and missed annotations to their lists, without clearing them, then sets precision and recall from the counts |
| VerifierMentionDetections.CollectWrong | src/evaluation/VerifierMentionDetection.java:35-40 | the first loop adds the original n-gram of every mention that matches no annotation |
| VerifierMentionDetections.WrongMentionsStep | src/evaluation/VerifierMentionDetection.java:35-40 | one more mention adds its original n-gram to the wrong set exactly when it matches no annotation |
| VerifierMentionDetections.SplitGroundTruth | src/evaluation/VerifierMentionDetection.java:42-49 | the second loop puts each annotation in good or notFound and counts the good ones |
| VerifierMentionDetections.FoundCount | src/evaluation/VerifierMentionDetection.java:42-49 | each ground-truth annotation lands in exactly one of good and notFound |
| VerifierMentionDetections.FoundMeaning | src/evaluation/VerifierMentionDetection.java:42-49 | an annotation is good iff some mention matches it and not found iff none does |
| VerifierMentionDetections.WrongMentionsMeaning | src/evaluation/VerifierMentionDetection.java:35-40 | an n-gram is wrong iff some mention has it as original n-gram and matches no annotation |
| VerifierMentionDetections.SearchesAgree | src/evaluation/VerifierMentionDetection.java:56-74 | the two searches see the same relation: a mention matching a good annotation is one searchMention accepts |
| VerifierMentionDetections.FreshRatios | src/evaluation/VerifierMentionDetection.java:51-53 | after one call on a fresh instance precision and recall lie in [0, 1]; precision is 1 iff every mention matches, recall iff nothing is missed |
| Normalizers.SpaceOutStep | src/normalizer/Normalizer.java:52-55 | replacing one more delimiter by a space extends the set of characters turned into spaces |
| Normalizers.PadStep | src/normalizer/Normalizer.java:57-60 | surrounding one more kept delimiter by spaces extends the set of padded characters |
| Normalizers.SpaceOutLoop | src/normalizer/Normalizer.java:52-55 | the replace loop turns every listed delimiter into a space |
| Normalizers.PadLoop | src/normalizer/Normalizer.java:57-60 | the replace loop surrounds every listed kept delimiter by spaces |
| Normalizers.DelimiterSet | src/normalizer/Normalizer.java:52-55 | the delimiters the loop walks are the tokenizer's delimiter set |
| Normalizers.KeepSet | src/normalizer/Normalizer.java:57-60 | the kept delimiters the loop walks are the tokenizer's set, each once and without the space |
| Normalizers.DelimiterPass | src/normalizer/Normalizer.java:52-62 | the final pass of normalize: delimiters to spaces, kept delimiters padded, whitespace collapsed |
| Normalizers.DelimiterPassNoDelimiters | src/normalizer/Normalizer.java:82-92 | the final pass of normalizeNoDelimiters: both delimiter sets to spaces, whitespace collapsed |
| Normalizers.Normalize | src/normalizer/Normalizer.java:36-63 | normalize is the final pass applied to the unescaped, lower-cased, stripped input |
| Normalizers.NormalizeNoDelimiters | src/normalizer/Normalizer.java:66-94 | normalizeNoDelimiters is its final pass applied to the same prepared input |
| Normalizers.CollapseMeaning | src/normalizer/Normalizer.java:62 | the whitespace collapse leaves single spaces between words, none at either end, and collapsing again changes nothing |
| Normalizers.PadSpaced | src/normalizer/Normalizer.java:57-60 | after padding every kept delimiter stands between spaces or at an end |
| Normalizers.SplitSpaced | src/normalizer/Normalizer.java:62 | when kept delimiters are spaced, every split field holding one is that character alone |
| Normalizers.JoinSpaced | src/normalizer/Normalizer.java:62 | joining such fields on single spaces keeps every kept delimiter spaced |
| Normalizers.NormalizedShape | src/normalizer/Normalizer.java:52-62 | normalize's result is collapsed, holds no DELIMITERS character but the space, and every DELIMITERS_KEEP character in it stands between spaces or at an end |
| Normalizers.NormalizedNoDelimitersShape | src/normalizer/Normalizer.java:82-92 | normalizeNoDelimiters' result is collapsed and holds no character of either delimiter set but the space |
| Normalizers.SplitWithout | src/normalizer/Normalizer.java:62 | StringUtils.split's fields, put back together, are exactly the non-separator characters of the input in order |
| Normalizers.CollapseKeeps | src/normalizer/Normalizer.java:62 | the whitespace collapse keeps every non-whitespace character, in order |
| Normalizers.PadKeeps | src/normalizer/Normalizer.java:57-60 | padding kept delimiters adds only spaces and keeps every other character in order |
| Normalizers.SpaceOutKeeps | src/normalizer/Normalizer.java:52-55 | turning delimiters into spaces keeps every other non-whitespace character in order |
| Normalizers.NormalizedKeeps | src/normalizer/Normalizer.java:52-62 | leaving out spaces, normalize's result is the input without its DELIMITERS characters, in order |
| Normalizers.NormalizedNoDelimitersKeeps | src/normalizer/Normalizer.java:82-92 | leaving out spaces, normalizeNoDelimiters' result is the input without the characters of either delimiter set, in order |
| Normalizers.RemoveHashMeaning | src/normalizer/Normalizer.java:122-127 | the result is the prefix before the first '#', the input unchanged when it has none, and removing twice is removing once |
| Normalizers.CapitalizeMeaning | src/normalizer/Normalizer.java:129-133 | "" is unchanged; otherwise only the first character is upper-cased, the rest is unchanged, and capitalising twice is capitalising once |
| Normalizers.CleanLinkShape | src/normalizer/Normalizer.java:106-107 | the cleaned link has no underscore, is trimmed and does not start with a lower-case ASCII letter |
| Normalizers.ProcessTargetLinkMeaning | src/normalizer/Normalizer.java:100-120 | a link without '%', or one whose URL decoding throws, comes back as the cleaned link, so the fallback's second trim changes nothing |
| ArgMaxes.BestStrict | src/data/CandidatesEntry.java:62-73 | a loop that replaces the best only on a strictly greater score ends with the first key of greatest score when that beats the initial score, and with the initial pair otherwise |
| ArgMaxes.BestFirstWins | src/loopybeliefpropagation/ScorerBasic.java:64-86 | a loop that also takes the first key when nothing is taken yet ends with the first key of greatest score for any non-empty key list |
| FrequencyMaps.Frequencies | src/knowledgebase/EntityMentionFrequencyIndexBuilder.java:148-153 | the increments leave every value seen, mapped to its number of occurrences, between 1 and the number of values |
| FrequencyMaps.CountValues | src/knowledgebase/EntityMentionFrequencyIndexBuilder.java:148-153 | the reducer's counting loop yields those frequencies and a total equal to the number of values |
| FrequencyMaps.SumOccurrencesAll | src/knowledgebase/EntityMentionFrequencyIndexBuilder.java:148-153 | over distinct keys covering every value, the frequencies add up to the total |
| FrequencyMaps.TopPrefix | src/knowledgebase/EntityMentionFrequencyIndexBuilder.java:155-162 | the kept entries are a prefix of the sorted order, all of them counted |
| FrequencyMaps.TopPrefixMeaning | src/knowledgebase/EntityMentionFrequencyIndexBuilder.java:155-162 | on entries sorted by decreasing frequency, an entity is kept iff its frequency is at least total × LIMIT_CANDIDATES |
| FrequencyMaps.TakeTop | src/knowledgebase/EntityMentionFrequencyIndexBuilder.java:155-162 | the loop that breaks at the first frequency below the cutoff keeps exactly that prefix |
| FrequencyMaps.Insert | src/knowledgebase/EntityMentionIndexBuilderTop.java:196-202 | TreeSet.add keeps the list strictly ascending and adds exactly the new value |
| FrequencyMaps.TreeSetOf | src/knowledgebase/EntityMentionIndexBuilderTop.java:196-202 | the TreeSet after adding all values holds each value once, in ascending order |
| FrequencyMaps.SortedDistinct | src/knowledgebase/EntityMentionIndexBuilderTop.java:196-202 | the loop adding each value to a fresh TreeSet builds that set |
| FrequencyMaps.AscendingUnique | src/knowledgebase/EntityMentionIndexBuilderTop.java:196-202 | two ascending lists of the same ids are equal, so the TreeSet's order is fixed by its elements |
| CandidatesEntries.Entries | src/data/CandidatesEntry.java:96-99 | the (entity, frequency) entries in the map's iteration order, one per key |
| CandidatesEntries.PutEachSelf | src/data/CandidatesEntry.java:42-47 | putting a map's entries into an empty map in iteration order rebuilds that map |
| CandidatesEntries.CandidatesTextRoundTrip | src/data/CandidatesEntry.java:38-48 | parsing the toString() text restores the same nameFrequency and candidate map, including the empty map |
| CandidatesEntries.CandidatesWords | src/data/CandidatesEntry.java:92-100 | write emits the frequency, the count, then two ints per candidate |
| CandidatesEntries.ReadCandidateWords | src/data/CandidatesEntry.java:87-89 | the read loop puts each written (entity, frequency) pair into the held map, in order, and stops right after them |
| CandidatesEntries.CandidatesWordsRoundTrip | src/data/CandidatesEntry.java:83-100 | readFields after write takes the written frequency and adds the written entries to the map it already holds; into an empty map it reproduces the original |
| CandidatesEntries.MostFrequentIsFirstMaximum | src/data/CandidatesEntry.java:62-73 | −1 for no candidates; otherwise, with non-negative frequencies, the first entity in iteration order with maximal frequency |
| CandidatesEntries.CandidatesEntry.constructor | src/data/CandidatesEntry.java:25-28 | the name frequency is stored and there are no candidates |
| CandidatesEntries.CandidatesEntry.WithCandidates | src/data/CandidatesEntry.java:30-33 | both given fields are stored |
| CandidatesEntries.CandidatesEntry.CandidatesCount | src/data/CandidatesEntry.java:58-60 | getCandidatesCount is the number of distinct candidate entities |
| CandidatesEntries.CandidatesEntry.CandidateFrequency | src/data/CandidatesEntry.java:75-77 | the stored frequency of a candidate, and null for any other entity |
| CandidatesEntries.CandidatesEntry.SetCandidateFrequency | src/data/CandidatesEntry.java:79-81 | inserts or overwrites only that entity's frequency |
| CandidatesEntries.CandidatesEntry.GetMostFrequentEntity | src/data/CandidatesEntry.java:62-73 | the accumulator loop returns the most frequent entity as specified above |
| CandidatesEntries.CandidatesEntry.ToString | src/data/CandidatesEntry.java:102-107 | the frequency, then "entity,frequency" per candidate, joined by tabs |
| CandidatesEntries.CandidatesEntry.Write | src/data/CandidatesEntry.java:92-100 | the loop writes the words described above |
| CandidatesEntries.CandidatesEntry.ReadFields | src/data/CandidatesEntry.java:83-90 | reads the frequency and count, then adds each pair into the existing map without clearing it; running out of input is an EOFException |
| CandidatesEntries.FromText | src/data/CandidatesEntry.java:38-48 | the String constructor yields a fresh record with the parsed fields, or the NumberFormatException or index exception the parse throws |
| EntityLinksEntries.ParseLinkText | src/data/EntityLinksEntry.java:38-41 | parsing "entity,frequency" gives back the link |
| EntityLinksEntries.ParseLinksFails | src/data/EntityLinksEntry.java:37-42 | the first link field that fails to parse decides the exception |
| EntityLinksEntries.EntryTextRoundTrip | src/data/EntityLinksEntry.java:32-43 | parsing the toString() text restores totalFrequency, noLinks and the link list in order |
| EntityLinksEntries.EntryWords | src/data/EntityLinksEntry.java:81-90 | write emits total, noLinks, the number of links, then two ints per link |
| EntityLinksEntries.ReadLinkWords | src/data/EntityLinksEntry.java:73-78 | the read loop appends each written link, in order, to the links already held |
| EntityLinksEntries.EntryWordsRoundTrip | src/data/EntityLinksEntry.java:69-90 | readFields after write restores both counts and appends the written links to the held list; on a fresh entry it round-trips all fields |
| EntityLinksEntries.EntityLinksEntry.constructor | src/data/EntityLinksEntry.java:25-27 | the empty record: no links and both counts zero |
| EntityLinksEntries.EntityLinksEntry.SetTotalFrequency | src/data/EntityLinksEntry.java:49-51 | only the total frequency changes |
| EntityLinksEntries.EntityLinksEntry.SetNoLinks | src/data/EntityLinksEntry.java:57-59 | only noLinks changes |
| EntityLinksEntries.EntityLinksEntry.AddEntry | src/data/EntityLinksEntry.java:61-63 | appends one link at the end and leaves the earlier links and the counts unchanged |
| EntityLinksEntries.EntityLinksEntry.ToString | src/data/EntityLinksEntry.java:92-101 | "total\tnoLinks" followed by "\tentity,frequency" for each link in list order |
| EntityLinksEntries.EntityLinksEntry.Write | src/data/EntityLinksEntry.java:81-90 | the loop writes the words described above |
| EntityLinksEntries.EntityLinksEntry.ReadFields | src/data/EntityLinksEntry.java:69-79 | reads both counts and appends the links to the existing list without clearing it; running out of input is an EOFException |
| EntityLinksEntries.FromText | src/data/EntityLinksEntry.java:32-43 | the String constructor yields a fresh record with the parsed fields, or the exception the parse throws |
| EntityLinksIndexes.MergeBounded | src/index/EntityLinksIndex.java:74-85 | the two-cursor walk never counts more than either remaining array holds |
| EntityLinksIndexes.MergeSymmetric | src/index/EntityLinksIndex.java:74-85 | swapping the arrays swaps the cursors and changes nothing else |
| EntityLinksIndexes.MergeCounts | src/index/EntityLinksIndex.java:74-85 | on strictly increasing arrays the walk counts the elements of one remaining array that occur in the other |
| EntityLinksIndexes.IntersectSizeMeaning | src/index/EntityLinksIndex.java:70-85 | intersectSize is 0 when either array is null, symmetric, at most the smaller array length, and on strictly increasing arrays the number of common elements |
| EntityLinksIndexes.IntersectSizeLoop | src/index/EntityLinksIndex.java:70-85 | the cursor loop computes intersectSize |
| EntityLinksIndexes.Popularity | src/index/EntityLinksIndex.java:58-61 | getPopularity is 1 + the inlink count, 1 for an absent entity, so always ≥ 1 |
| EntityLinksIndexes.CocitationMeaning | src/index/EntityLinksIndex.java:63-68 | getCocitation is symmetric, ≥ 1 for an entity with itself (its popularity), 0 for distinct entities when either is absent, and otherwise the number of shared inlinks on sorted arrays |
| EntityLinksIndexes.GetCocitation | src/index/EntityLinksIndex.java:63-68 | computes getCocitation |
| EntityLinksIndexes.RelatednessGuards | src/index/EntityLinksIndex.java:42-56 | getSemanticRelatedness(e, e) = 1.0; it is 0.0 whenever the intersection is empty, in particular when either entity is absent; and it is symmetric |
| EntityLinksIndexes.GetSemanticRelatedness | src/index/EntityLinksIndex.java:42-56 | computes getSemanticRelatedness with the log formula as a parameter |
| EntityLinksFrequencyIndexes.Popularity | src/index/EntityLinksFrequencyIndex.java:45-47 | 1 + totalFrequency, or 1 when absent |
| EntityLinksFrequencyIndexes.Pairs | src/index/EntityLinksFrequencyIndex.java:58 | f(f−1)/2 is never negative and exactly half of f(f−1) |
| EntityLinksFrequencyIndexes.SelfPairsBounds | src/index/EntityLinksFrequencyIndex.java:54-61 | every link adds its f(f−1)/2 ≥ 0 to the self cocitation |
| EntityLinksFrequencyIndexes.CommonAsWrittenSkipsMatch | src/index/EntityLinksFrequencyIndex.java:63-79 | the loop as written misses a shared linker: links [(1,1),(2,1)] and [(2,1)] give 0, where the intended merge and the sum of products give 1 |
| EntityLinksFrequencyIndexes.CommonIsSumOfProducts | src/index/EntityLinksFrequencyIndex.java:63-79 | the intended merge, on lists with strictly increasing entities, sums f1·f2 over the entities both lists have |
| EntityLinksFrequencyIndexes.CocitationMeaning | src/index/EntityLinksFrequencyIndex.java:49-80 | the intended cocitation, with the corrected merge for distinct entities: 0 when either entity is absent, the non-negative Σ f(f−1)/2 for an entity with itself, and for distinct entities with sorted links the sum of f1·f2 over shared linkers |
| EntityLinksFrequencyIndexes.GetCocitation | src/index/EntityLinksFrequencyIndex.java:49-80 | the corrected loops, where each branch moves only its own cursors, compute the intended cocitation |
| EntityLinksFrequencyIndexes.StepsAsWrittenBound | src/index/EntityLinksFrequencyIndex.java:66-78 | every iteration of the loop as written advances both cursors, so it runs at most min(l1 size, l2 size) times |
| EntityLinksFrequencyIndexes.CommonAsWrittenBounds | src/index/EntityLinksFrequencyIndex.java:66-78 | for all inputs with sorted links and non-negative frequencies, the loop as written adds only products at coinciding ids: its result lies between 0 and the intended merge |
| EntityLinksFrequencyIndexes.CocitationAsWrittenMeaning | src/index/EntityLinksFrequencyIndex.java:49-80 | getCocitation as written agrees with the intended cocitation on absent and equal entities, and for distinct entities with sorted records reports between 0 and the intended count |
| EntityLinksFrequencyIndexes.GetCocitationAsWritten | src/index/EntityLinksFrequencyIndex.java:49-80 | the loops exactly as written, header increments included, compute the as-written cocitation |
| EntityLinksFrequencyIndexes.DenominatorUpToMeaning | src/index/EntityLinksFrequencyIndex.java:82-98 | the sum of f·(noLinks(doc) − f) + f(f−1)/2 over the links is defined iff every linking doc has an entry, fails with IllegalArgumentException otherwise, and is never negative when no doc has fewer links than it links to the entity |
| EntityLinksFrequencyIndexes.DenominatorUpToFails | src/index/EntityLinksFrequencyIndex.java:88-92 | once a linking doc is missing, the exception is the result whatever links follow |
| EntityLinksFrequencyIndexes.GetConditionalDenominator | src/index/EntityLinksFrequencyIndex.java:82-98 | the loop computes the conditional denominator; an entity without an entry is a NullPointerException |
| TermDocumentFrequencyIndexes.Get | src/index/TermDocumentFrequencyIndex.java:37-43 | a present term reads as its stored count + 1 (in int arithmetic), an absent term as 1 |
| TermDocumentFrequencyIndexes.IDF | src/index/TermDocumentFrequencyIndex.java:45-51 | getIDF is exactly 0.0 when the smoothed count equals WIKIPEDIA_DF_SIZE, and an absent term is read as one document |
| TermDocumentFrequencyIndexes.LoadTermIndex | src/index/TermDocumentFrequencyIndex.java:28-31 | load parses the lines in order into the map |
| TermDocumentFrequencyIndexes.ParseTermLineMeaning | src/index/TermDocumentFrequencyIndex.java:29-30 | a line without a tab throws; otherwise the line is kept under its trimmed term |
| TermDocumentFrequencyIndexes.ParseTermLineRoundTrip | src/index/TermDocumentFrequencyIndex.java:29-30 | a trimmed term, a tab and an int's text parse back to the pair |
| TermDocumentFrequencyIndexes.LoadedTermIndex | src/index/TermDocumentFrequencyIndex.java:28-31 | in a loaded index the last line naming a term decides its count |
| TermDocumentFrequencyIndexes.LoadedTermsTrimmed | src/index/TermDocumentFrequencyIndex.java:28-31 | every term of a loaded index is trimmed |
| IndexLoading.LoadUpToOk | src/index/MentionIndex.java:30-44 | a load succeeds exactly when no line throws |
| IndexLoading.LoadUpToKeys | src/index/MentionIndex.java:30-44 | a successful load holds exactly the keys of the lines that were not skipped |
| IndexLoading.LoadUpToLastWins | src/index/TermDocumentFrequencyIndex.java:28-31 | a later line for the same key overwrites an earlier one |
| IndexLoading.LoadUpToFails | src/index/MentionIndex.java:30-44 | the first line that throws ends the load with its exception |
| IndexLoading.LoadUpToValues | src/index/MentionEntitiesFrequencyIndex.java:36-48 | every stored value came from a kept line, so a property of all kept values holds of the index |
| IndexLoading.Load | src/index/MentionIndex.java:30-44 | the read loop builds the index line by line |
| MentionIndexes.ParseInts | src/index/MentionIndex.java:39-42 | every field parsed as an int, in order; the first field that does not parse decides the exception |
| MentionIndexes.LoadMentionIndex | src/index/MentionIndex.java:25-48 | load parses the lines in order into the map |
| MentionIndexes.ParseMentionLineMeaning | src/index/MentionIndex.java:31-43 | a line with fewer than three tab fields throws; a line is skipped iff its third field is below MINIMUM_COUNT = 5; a kept line stores every field after the first, parsed as ints in order |
| MentionIndexes.Keyphraseness | src/index/MentionIndex.java:50-53 | the first two stored ints; a missing name is a NullPointerException |
| MentionIndexes.CandidateEntities | src/index/MentionIndex.java:55-58 | the stored ints from the third on, in file order; a missing name is a NullPointerException |
| MentionIndexes.AsCandidatesIndex | src/index/MentionIndex.java:50-58 | the view mention detection reads has the same names, with the pair and candidates the getters return |
| MentionIndexes.LoadedMentionIndex | src/index/MentionIndex.java:30-44 | every value of a loaded index has at least two ints and a total of at least 5, so the view's document counts are positive |
| MentionIndexes.GettersSplitValue | src/index/MentionIndex.java:50-58 | on a loaded value both getters succeed and the keyphraseness pair followed by the candidates is the whole value |
| MentionIndexes.ParseMentionLineRoundTrip | src/index/MentionIndex.java:31-43 | a line written from a stored value under a name without tabs parses back to that name and value |
| MentionEntitiesFrequencyIndexes.LoadNameIndex | src/index/MentionEntitiesFrequencyIndex.java:30-52 | load parses the lines in order into the map |
| MentionEntitiesFrequencyIndexes.ParseNameLineSkips | src/index/MentionEntitiesFrequencyIndex.java:37-44 | a single-field line throws; a line is skipped iff both counts parse and totalDocs < 5 or linkedDocs = 0 |
| MentionEntitiesFrequencyIndexes.ParseNameLineKeeps | src/index/MentionEntitiesFrequencyIndex.java:37-47 | a kept line has exactly four fields, stores the parsed counts and the parsed CandidatesEntry under its first field, and passed the filter |
| MentionEntitiesFrequencyIndexes.LoadedNameIndex | src/index/MentionEntitiesFrequencyIndex.java:36-48 | every entry of a loaded index passed the filter, so the view's document counts are positive |
| MentionEntitiesFrequencyIndexes.Keyphraseness | src/index/MentionEntitiesFrequencyIndex.java:54-57 | (linkedDocs, totalDocs) of the stored entry; a missing name is a NullPointerException |
| MentionEntitiesFrequencyIndexes.CandidateEntities | src/index/MentionEntitiesFrequencyIndex.java:59-61 | the candidate set as an array, each entity once; a missing name is a NullPointerException |
| MentionEntitiesFrequencyIndexes.CandidateEntitiesCount | src/index/MentionEntitiesFrequencyIndex.java:79-81 | the number of distinct candidates |
| MentionEntitiesFrequencyIndexes.CandidateFrequency | src/index/MentionEntitiesFrequencyIndex.java:71-73 | the candidate's link count; a name or entity that is not stored is a NullPointerException |
| MentionEntitiesFrequencyIndexes.AsCandidatesIndex | src/index/MentionEntitiesFrequencyIndex.java:54-61 | the view mention detection reads has the same names, counts and candidates |
| MentionEntitiesFrequencyIndexes.CandidateGettersAgree | src/index/MentionEntitiesFrequencyIndex.java:59-81 | the count is the length of the candidate array, and the most frequent entity is one of the candidates |
| MentionEntitiesFrequencyIndexes.ParseNameLineRoundTrip | src/index/MentionEntitiesFrequencyIndex.java:37-47 | a kept entry written as a line under a name without tabs parses back to that name and entry |
| MentionDetection.RunEnd | src/md/MentionDetection.java:90-99 | a word runs from its first character up to, not including, the next delimiter or the end of the text |
| MentionDetection.TokenizeAtDelimiter | src/md/MentionDetection.java:100-111 | at a delimiter the pending word is flushed as one token at its start offset, then a kept delimiter becomes a token of its own |
| MentionDetection.TokenizeText | src/md/MentionDetection.java:82-115 | the character loop returns the same tokens as the scan Tokenize |
| MentionDetection.TrailingDelimiter | src/md/MentionDetection.java:88-89 | the space appended to the text only flushes the last word and adds no token |
| MentionDetection.TokenOffsetsIncrease | src/md/MentionDetection.java:82-115 | token offsets are strictly increasing and lie inside the text |
| MentionDetection.TokensAreWordsOrKept | src/md/MentionDetection.java:82-115 | every token is either a maximal run of non-delimiters at its offset or a kept delimiter ('.', '!', '-', ':') at its offset |
| MentionDetection.TokenizeStep | src/md/MentionDetection.java:90-112 | one step of the scan: a dropped delimiter adds nothing, a kept one adds its own token, a word adds one token and skips to its end |
| MentionDetection.WordCharactersCovered | src/md/MentionDetection.java:82-115 | every non-delimiter character lies inside some token, so only delimiters are lost |
| MentionDetection.KeptDelimitersAreTokens | src/md/MentionDetection.java:105-108 | every kept delimiter character appears as a one-character token at its own offset |
| MentionDetection.SpansOf | src/md/MentionDetection.java:117-152 | the table of n-grams has one row per token, with row i holding i + 1 n-grams |
| MentionDetection.SpanGrows | src/md/MentionDetection.java:133-136 | appending token i to the n-gram of tokens j..i-1 gives the n-gram of tokens j..i |
| MentionDetection.GatherByLength | src/md/MentionDetection.java:127-152 | token i adds min(i + 1, maxSize) n-grams, so n tokens give NgramCount(n, maxSize) |
| MentionDetection.GatherSpecLength | src/md/MentionDetection.java:117-159 | the output has exactly NgramCount(tokens, maxSize) n-grams |
| MentionDetection.GatherSpecHasSpan | src/md/MentionDetection.java:117-159 | every run of 1..maxSize consecutive tokens is in the output, at its own position |
| MentionDetection.GatherSpecOnlySpans | src/md/MentionDetection.java:117-159 | every output n-gram is a run of 1..maxSize consecutive tokens |
| MentionDetection.PositionRange | src/md/MentionDetection.java:127-152 | the n-grams ending at token i come after all those ending earlier and before all those ending later |
| MentionDetection.PositionInjective | src/md/MentionDetection.java:117-159 | distinct runs of tokens sit at distinct positions, so each n-gram is emitted exactly once |
| MentionDetection.JoinRangeIsJoin | src/md/Ngram.java:46-49 | the n-gram's text is its tokens' texts joined by single spaces |
| MentionDetection.OneGram | src/md/MentionDetection.java:129 | the one-token n-gram has the token's text, offset and length |
| MentionDetection.ExtendEarlier | src/md/MentionDetection.java:133-137 | while the buffer fills, token i extends slots 0..i-1 and emits each grown n-gram, oldest first |
| MentionDetection.FillWindow | src/md/MentionDetection.java:127-138 | the first phase emits every n-gram ending at the first min(n, maxSize) tokens |
| MentionDetection.ExtendAround | src/md/MentionDetection.java:147-150 | once the buffer is full, token i extends every slot but the newest, oldest first, and emits each |
| MentionDetection.SlideWindow | src/md/MentionDetection.java:140-152 | the circular phase emits the n-grams ending at every remaining token, in order |
| MentionDetection.GatherNgrams | src/md/MentionDetection.java:117-152 | a negative maxSize throws IllegalArgumentException; maxSize 0 throws ArrayIndexOutOfBounds unless there are no tokens; otherwise the output is every n-gram of at most maxSize tokens, grouped by last token and longest first |
| MentionDetection.LessUpToEquivalence | src/md/Mention.java:207-219 | ordering is unaffected by swapping a mention for one that compares equal to it |
| MentionDetection.NoEquivalentAbove | src/md/MentionDetection.java:167 | a mention below the least element of the tree has no equal in it |
| MentionDetection.TreeAddMembers | src/md/MentionDetection.java:202 | TreeSet.add leaves the tree unchanged when an equal element is present, and otherwise adds exactly the new mention |
| MentionDetection.TreeAddAscending | src/md/MentionDetection.java:202 | TreeSet.add keeps the tree in strictly ascending order |
| MentionDetection.FirstIsLeast | src/md/MentionDetection.java:204 | the first element of the tree is its least |
| MentionDetection.RankMention | src/md/MentionDetection.java:200-209 | below toExtract elements the mention is added; otherwise the least element is replaced exactly when the mention's keyphraseness is higher; first() of an empty tree throws NoSuchElementException; the tree stays ascending and within max(toExtract, size) |
| MentionDetection.RankByThreshold | src/md/MentionDetection.java:211-215 | the mention is added exactly when its keyphraseness reaches percent, and nothing else changes |
| MentionDetection.LookupNameSinglePass | src/md/MentionDetection.java:171-174 | " - " is replaced in one pass, so "a - - b" looks up "a - b", which still contains " - " |
| MentionDetection.MentionOf | src/md/MentionDetection.java:182-183 | a mention made from an indexed n-gram keeps the n-gram's offset and length, has keyphraseness linked/total and df total, and no candidates yet |
| MentionDetection.ToExtract | src/md/MentionDetection.java:187 | the number to keep is the token count times percent, truncated, and at least 1 |
| MentionDetection.SelectAll | src/md/MentionDetection.java:169-193 | the tree stays in ascending order over all n-grams |
| MentionDetection.SelectMembers | src/md/MentionDetection.java:176-190 | one n-gram adds at most its own mention to the tree |
| MentionDetection.SelectAllFromIndex | src/md/MentionDetection.java:166-194 | every extracted mention comes from an admitted n-gram, with the index's statistics |
| MentionDetection.SelectAllBounded | src/md/MentionDetection.java:184-189 | without a threshold at most toExtract mentions are kept |
| MentionDetection.SelectAllThreshold | src/md/MentionDetection.java:184-185 | with a threshold every kept mention reaches it, and every admitted n-gram that reaches it is represented |
| MentionDetection.ScoreAll | src/md/MentionDetection.java:220-223 | each candidate entity gets its compatibility score, and other entries keep theirs |
| MentionDetection.ScoreEach | src/md/MentionDetection.java:220-223 | the inner loop sets the scores ScoreAll describes |
| MentionDetection.CompatibilityStep | src/md/MentionDetection.java:219-229 | one pass of the outer loop extends the result by the scored mention, drops it, or ends in the NullPointerException |
| MentionDetection.LocalCompatibilities | src/md/MentionDetection.java:217-231 | a NullPointerException exactly when some mention's name is missing from the index; otherwise every kept mention is a scored input, each candidate carrying its score; with skipZero zero-sum mentions are dropped, without it every mention is kept in order |
| MentionDetection.TermFrequencies | src/md/MentionDetection.java:252-262 | exactly the words of the context are keys, each mapped to its number of occurrences |
| MentionDetection.CountTotalBump | src/md/MentionDetection.java:255-256 | adding one to one word's count adds one to the total |
| MentionDetection.TermFrequenciesTotal | src/md/MentionDetection.java:252-262 | the counts sum to the context's length |
| MentionDetection.MentionDetection.constructor | src/md/MentionDetection.java:32-48 | the detector keeps the text and index, with percent 0.06, no threshold and zero-score mentions kept |
| MentionDetection.MentionDetection.SetSkipZeroLocalCompatibility | src/md/MentionDetection.java:50-52 | sets the flag and changes nothing else |
| MentionDetection.MentionDetection.SetThreshold | src/md/MentionDetection.java:320-323 | sets the share or threshold and the threshold flag, and changes nothing else |
| MentionDetection.MentionDetection.RankNgram | src/md/MentionDetection.java:170-190 | one loop pass does what Select describes |
| MentionDetection.MentionDetection.ExtractMentions | src/md/MentionDetection.java:166-194 | the loop's tree is SelectAll over the n-grams with ToExtract(tokens, percent) |
| MentionDetection.MentionDetection.ComputeLocalCompatibilities | src/md/MentionDetection.java:217-231 | the loop returns LocalCompatibilities with the detector's flag |
| MentionDetection.MentionDetection.GetTFContext | src/md/MentionDetection.java:252-262 | the loop builds TermFrequencies(context) |
| MentionDetection.CountOccurences | src/md/MentionDetection.java:306-313 | the count is 1 when the needle occurs in the text and 0 otherwise, because the cursor jumps past the text's end after the first match |
| Annotations.AnnotationsFor | src/baseline/RandomGraphWalk.java:146-154 | the loop over the solution's entries builds one annotation per entry, at the mention's offset and length |
| RandomGraphWalks.ZeroMassWeight | src/baseline/RandomGraphWalk.java:203-210 | 1 divided by the candidate count at scale 0, rounded half up, is 1 for one or two candidates and 0 otherwise |
| RandomGraphWalks.MentionEdges | src/baseline/RandomGraphWalk.java:198-229 | one edge from the mention to each candidate, in iteration order, with its normalised compatibility |
| RandomGraphWalks.MentionWeightsNormalised | src/baseline/RandomGraphWalk.java:199-222 | a mention's edge weights sum to 1 when its compatibilities do not sum to 0; otherwise each is the zero-mass weight |
| RandomGraphWalks.PairKey | src/baseline/RandomGraphWalk.java:328-331 | the cache key is the unordered pair, smaller entity first |
| RandomGraphWalks.RelatednessCache | src/baseline/RandomGraphWalk.java:322-338 | a cache hit returns the cached value unchanged; a miss stores the index's value under the pair |
| RandomGraphWalks.RelatednessCacheTransparent | src/baseline/RandomGraphWalk.java:322-338 | for a symmetric relatedness a sound cache returns the index's value and stays sound |
| RandomGraphWalks.RelatedInMembers | src/baseline/RandomGraphWalk.java:252-256 | the related candidates of a mention are exactly those with relatedness above EPS |
| RandomGraphWalks.TargetsMembers | src/baseline/RandomGraphWalk.java:248-258 | the targets of a candidate are exactly the candidates of the other mentions related to it above EPS |
| RandomGraphWalks.TargetsTotal | src/baseline/RandomGraphWalk.java:247-258 | the summed relatedness is positive exactly when there is a target |
| RandomGraphWalks.EdgesTo | src/baseline/RandomGraphWalk.java:260-274 | one edge to each target, weighted relatedness over the total |
| RandomGraphWalks.EntityEdgesSound | src/baseline/RandomGraphWalk.java:246-275 | every edge out of a candidate leaves that candidate and ends at a related candidate of another mention |
| RandomGraphWalks.EntityEdgesComplete | src/baseline/RandomGraphWalk.java:246-275 | a candidate has an edge to every candidate of another mention related to it above EPS |
| RandomGraphWalks.EntityEdgesNormalised | src/baseline/RandomGraphWalk.java:247-274 | the weights out of a candidate sum to 1 unless it has no edge |
| RandomGraphWalks.MentionEdgesInGraph | src/baseline/RandomGraphWalk.java:190-279 | every mention is linked to each of its candidates by an edge of the graph |
| RandomGraphWalks.GraphEmptyIff | src/baseline/RandomGraphWalk.java:71-73 | the graph has no vertex exactly when no mention has a candidate, the case in which solve returns early |
| RandomGraphWalks.ChoiceIsFirstMaximum | src/baseline/RandomGraphWalk.java:104-118 | with non-negative final scores a mention gets its first candidate of greatest final score, and -1 without candidates |
| RandomGraphWalks.SolutionAnnotations | src/baseline/RandomGraphWalk.java:100-154 | every mention not overwritten by a later equal one is annotated with its choice at its offset and length, and every annotation comes from some mention |
| RandomGraphWalks.RandomGraphWalk.constructor | src/baseline/RandomGraphWalk.java:56-59 | a new walker has no solution |
| RandomGraphWalks.RandomGraphWalk.AddMentionEdges | src/baseline/RandomGraphWalk.java:198-229 | the loop adds the edges MentionEdges describes |
| RandomGraphWalks.RandomGraphWalk.RelatedCandidates | src/baseline/RandomGraphWalk.java:252-257 | the loop over one mention's candidates finds the related ones and keeps the cache sound |
| RandomGraphWalks.RandomGraphWalk.SumRelatedness | src/baseline/RandomGraphWalk.java:247-258 | the first loop computes the summed relatedness of the targets |
| RandomGraphWalks.RandomGraphWalk.AddEntityEdges | src/baseline/RandomGraphWalk.java:260-274 | the second loop adds the edges EntityEdges describes |
| RandomGraphWalks.RandomGraphWalk.ConstructGraph | src/baseline/RandomGraphWalk.java:190-279 | the graph's edges are the mention edges followed by the candidate edges |
| RandomGraphWalks.RandomGraphWalk.AddAllCandidateEdges | src/baseline/RandomGraphWalk.java:233-276 | the candidate phase over every mention, with the cache in use below MAP_MAX vertices |
| RandomGraphWalks.RandomGraphWalk.VertexCount | src/baseline/RandomGraphWalk.java:71 | the vertex count is the number of distinct edge ends |
| RandomGraphWalks.RandomGraphWalk.ChooseEntity | src/baseline/RandomGraphWalk.java:104-118 | the inner loop picks Choice, the first candidate whose final score beats every earlier one and -1 |
| RandomGraphWalks.RandomGraphWalk.SolutionFor | src/baseline/RandomGraphWalk.java:101-133 | the outer loop puts each mention's choice under its key, in order |
| RandomGraphWalks.RandomGraphWalk.ComputeSolution | src/baseline/RandomGraphWalk.java:100-144 | the stored solution is SolutionOf the mentions |
| RandomGraphWalks.RandomGraphWalk.Solve | src/baseline/RandomGraphWalk.java:64-87 | an empty graph leaves the solution as it was; otherwise the solution is computed from the stationary scores |
| RandomGraphWalks.RandomGraphWalk.GetSolutionAnnotations | src/baseline/RandomGraphWalk.java:146-154 | without a solution the call dereferences null; otherwise the annotations of the solution |
| LoopyBeliefPropagations.MaximaUpTo | src/loopybeliefpropagation/LoopyBeliefPropagation.java:64-89 | one best message per receiver candidate, in order |
| LoopyBeliefPropagations.PutRaw | src/loopybeliefpropagation/LoopyBeliefPropagation.java:83 | the first pass adds exactly the batch's messages to the map |
| LoopyBeliefPropagations.Normalise | src/loopybeliefpropagation/LoopyBeliefPropagation.java:92-100 | the second pass keeps the map's keys |
| LoopyBeliefPropagations.Batch | src/loopybeliefpropagation/LoopyBeliefPropagation.java:62-100 | a batch adds exactly the messages from the sender to the receiver's candidates |
| LoopyBeliefPropagations.BestUpToBest | src/loopybeliefpropagation/LoopyBeliefPropagation.java:65-78 | the sender loop fails exactly when some message score fails, and otherwise keeps the first greatest score |
| LoopyBeliefPropagations.BestMessageIsMaximum | src/loopybeliefpropagation/LoopyBeliefPropagation.java:65-78 | the unnormalised message is 0 when the sender has no candidates and otherwise the first greatest message score |
| LoopyBeliefPropagations.MaximaUpToDefined | src/loopybeliefpropagation/LoopyBeliefPropagation.java:64-89 | the batch fails exactly when one of its best messages does, and otherwise lists them in order |
| LoopyBeliefPropagations.NormaliserIsMinimum | src/loopybeliefpropagation/LoopyBeliefPropagation.java:79-82 | the normalising constant of a non-empty batch is one of its values and no greater than any |
| LoopyBeliefPropagations.PutRawAt | src/loopybeliefpropagation/LoopyBeliefPropagation.java:83 | the first pass writes each best score under its message and leaves every other entry alone |
| LoopyBeliefPropagations.NormaliseAt | src/loopybeliefpropagation/LoopyBeliefPropagation.java:92-100 | the second pass lowers each message of the batch by the constant and leaves every other entry alone |
| LoopyBeliefPropagations.BatchValues | src/loopybeliefpropagation/LoopyBeliefPropagation.java:62-100 | after a batch each of its messages is its best score minus the normalising constant, and other entries are unchanged |
| LoopyBeliefPropagations.BatchNormalised | src/loopybeliefpropagation/LoopyBeliefPropagation.java:79-100 | after normalisation every message of a batch is at least 0 and one of them is 0 |
| LoopyBeliefPropagations.RowKeysMember | src/loopybeliefpropagation/LoopyBeliefPropagation.java:58-61 | a sender's row holds the messages to the candidates of every other receiver |
| LoopyBeliefPropagations.AllKeysMember | src/loopybeliefpropagation/LoopyBeliefPropagation.java:50-61 | all rows hold the messages from every sender to the candidates of every other mention |
| LoopyBeliefPropagations.AllKeysAreSlots | src/loopybeliefpropagation/LoopyBeliefPropagation.java:50-61 | the messages of all rows are exactly the slots, and none goes from a mention to itself |
| LoopyBeliefPropagations.SweepRowKeys | src/loopybeliefpropagation/LoopyBeliefPropagation.java:58-101 | a successful sender loop adds exactly the messages of its row |
| LoopyBeliefPropagations.SweepUpToKeys | src/loopybeliefpropagation/LoopyBeliefPropagation.java:49-102 | a successful sweep writes exactly the slots |
| LoopyBeliefPropagations.InitRowKeys | src/loopybeliefpropagation/LoopyBeliefPropagation.java:142-150 | the initial row adds its row's messages, all zero |
| LoopyBeliefPropagations.InitUpToKeys | src/loopybeliefpropagation/LoopyBeliefPropagation.java:141-151 | the initial messages of the first senders are their rows' messages, all zero |
| LoopyBeliefPropagations.InitMessagesAreSlots | src/loopybeliefpropagation/LoopyBeliefPropagation.java:139-153 | initializeMessages holds a zero message for every slot and no other |
| LoopyBeliefPropagations.SweepWritesSlots | src/loopybeliefpropagation/LoopyBeliefPropagation.java:49-102 | a successful sweep holds one message per slot and no other |
| LoopyBeliefPropagations.SweepRowOthers | src/loopybeliefpropagation/LoopyBeliefPropagation.java:58-101 | a sender's loop leaves every message from another sender as it was |
| LoopyBeliefPropagations.SweepValues | src/loopybeliefpropagation/LoopyBeliefPropagation.java:49-102 | with pairwise distinct mentions each new message is its best score minus its batch's minimum, is at least 0, and each batch has a 0 |
| LoopyBeliefPropagations.MessageScoreDefined | src/loopybeliefpropagation/ScorerBasic.java:33-50 | with complete messages the message score between candidates of two distinct mentions is defined |
| LoopyBeliefPropagations.SweepDefined | src/loopybeliefpropagation/LoopyBeliefPropagation.java:49-102 | over the scorer's mentions a sweep from complete messages succeeds and its messages are complete |
| LoopyBeliefPropagations.ScoresDefined | src/loopybeliefpropagation/LoopyBeliefPropagation.java:103-121 | with complete messages the final scores and the solution are defined |
| LoopyBeliefPropagations.Max | src/loopybeliefpropagation/LoopyBeliefPropagation.java:134 | BigDecimal.max is at least both arguments and one of them |
| LoopyBeliefPropagations.DeltaUpToIsMaximum | src/loopybeliefpropagation/LoopyBeliefPropagation.java:126-137 | computeDelta fails exactly when a candidate of scores1 is missing from scores2, and is otherwise the largest absolute change, or 0 |
| LoopyBeliefPropagations.DeltaDefined | src/loopybeliefpropagation/LoopyBeliefPropagation.java:126-137 | the delta of two score maps over the same candidates is defined |
| LoopyBeliefPropagations.ScoresSameCandidates | src/loopybeliefpropagation/LoopyBeliefPropagation.java:103-105 | scores computed from any two message maps are over the same candidates |
| LoopyBeliefPropagations.StopFromBounds | src/loopybeliefpropagation/LoopyBeliefPropagation.java:47-116 | the loop stops within [1, iterations], at a converged sweep if before the last, never at the first, and no earlier sweep converged |
| LoopyBeliefPropagations.IterateStops | src/loopybeliefpropagation/LoopyBeliefPropagation.java:47-116 | the loop returns the messages of the sweep it stops at |
| LoopyBeliefPropagations.SolveStops | src/loopybeliefpropagation/LoopyBeliefPropagation.java:37-121 | with at least one sweep, the solution is that of the messages of the first converged sweep from the second on, or of the last allowed one |
| LoopyBeliefPropagations.SolveWithoutSweeps | src/loopybeliefpropagation/LoopyBeliefPropagation.java:41-121 | with no sweep the solution is read from null messages and fails exactly when some mention has a candidate |
| LoopyBeliefPropagations.MessagesAtComplete | src/loopybeliefpropagation/LoopyBeliefPropagation.java:47-116 | over the scorer's mentions every sweep succeeds and its messages are complete |
| LoopyBeliefPropagations.SolveDefined | src/loopybeliefpropagation/LoopyBeliefPropagation.java:37-121 | over the scorer's own well-formed mentions solve always succeeds |
| LoopyBeliefPropagations.BestMessageLoop | src/loopybeliefpropagation/LoopyBeliefPropagation.java:65-78 | the loop over the sender's candidates computes BestMessage and leaves the old messages alone |
| LoopyBeliefPropagations.BatchLoop | src/loopybeliefpropagation/LoopyBeliefPropagation.java:62-100 | one (from, to) step writes the batch SweepPair describes |
| LoopyBeliefPropagations.PutMaxima | src/loopybeliefpropagation/LoopyBeliefPropagation.java:62-89 | the first pass puts each best message and returns their normalising constant |
| LoopyBeliefPropagations.NormaliseLoop | src/loopybeliefpropagation/LoopyBeliefPropagation.java:92-100 | the second pass lowers each message of the batch by the constant |
| LoopyBeliefPropagations.SweepRowLoop | src/loopybeliefpropagation/LoopyBeliefPropagation.java:58-101 | the receiver loop for one sender writes SweepRow |
| LoopyBeliefPropagations.SweepLoop | src/loopybeliefpropagation/LoopyBeliefPropagation.java:49-102 | one sweep writes Sweep's messages into a fresh map, or fails with Sweep's error |
| LoopyBeliefPropagations.PutZeros | src/loopybeliefpropagation/LoopyBeliefPropagation.java:146-149 | puts a zero message to each of the receiver's candidates |
| LoopyBeliefPropagations.LoopyBeliefPropagation.constructor | src/loopybeliefpropagation/LoopyBeliefPropagation.java:30-35 | keeps the mentions, iteration bound and scorer, with no solution yet |
| LoopyBeliefPropagations.LoopyBeliefPropagation.InitializeMessages | src/loopybeliefpropagation/LoopyBeliefPropagation.java:139-153 | a fresh map holding InitMessages |
| LoopyBeliefPropagations.LoopyBeliefPropagation.ComputeDelta | src/loopybeliefpropagation/LoopyBeliefPropagation.java:126-137 | the loop computes Delta |
| LoopyBeliefPropagations.LoopyBeliefPropagation.SweepAndScore | src/loopybeliefpropagation/LoopyBeliefPropagation.java:49-109 | one pass of the loop computes IterationOf |
| LoopyBeliefPropagations.LoopyBeliefPropagation.Solve | src/loopybeliefpropagation/LoopyBeliefPropagation.java:37-124 | on success the solution is SolveSpec's; on failure the exception propagates and the old solution stays |
| LoopyBeliefPropagations.LoopyBeliefPropagation.GetSolutionAnnotations | src/loopybeliefpropagation/LoopyBeliefPropagation.java:155-163 | without a solution the call dereferences null; otherwise one annotation per solved mention |
| MessagesMaps.NeighborSumDefined | src/loopybeliefpropagation/MessagesMap.java:32-38 | the sum of incoming messages is defined exactly when no message from another sender is missing, and otherwise is a NullPointerException |
| MessagesMaps.NeighborSumConcat | src/loopybeliefpropagation/MessagesMap.java:32-38 | summing over two runs of senders adds their sums |
| MessagesMaps.NeighborSumWithout | src/loopybeliefpropagation/MessagesMap.java:41-44 | subtracting one sender's message from the total gives the sum over the other senders |
| MessagesMaps.QueryKeepsTotals | src/loopybeliefpropagation/MessagesMap.java:30-40 | a query changes no total a later query would use; it only records the one it computed |
| MessagesMaps.QuerySound | src/loopybeliefpropagation/MessagesMap.java:28-46 | a sound cache stays sound after a query, and answers as an empty cache would |
| MessagesMaps.CachedIgnoresSenders | src/loopybeliefpropagation/MessagesMap.java:31 | a cached total is returned whatever sender list is passed, and the cache is unchanged |
| MessagesMaps.QueryExcluding | src/loopybeliefpropagation/MessagesMap.java:28-46 | with the excluded sender among the senders, the answer is the sum over all other senders |
| MessagesMaps.QueryFailsOnNull | src/loopybeliefpropagation/MessagesMap.java:28-46 | a query fails only by dereferencing a missing message |
| MessagesMaps.QueryKeepsAllTotals | src/loopybeliefpropagation/MessagesMap.java:30-40 | after a query the cache leads every query to the total it led to before |
| MessagesMaps.SameTotalsQuery | src/loopybeliefpropagation/MessagesMap.java:28-46 | caches with the same totals answer every query alike, and one that is sound keeps the other sound |
| MessagesMaps.NeighborSumFails | src/loopybeliefpropagation/MessagesMap.java:32-38 | once a prefix of the senders fails, the whole sum fails |
| MessagesMaps.MessagesMap.constructor | src/loopybeliefpropagation/MessagesMap.java:13-16 | a new map has no messages and an empty cache |
| MessagesMaps.MessagesMap.Put | src/loopybeliefpropagation/MessagesMap.java:9 | HashMap.put stores the message and leaves the cache as it is |
| MessagesMaps.MessagesMap.SumNeighborMessages | src/loopybeliefpropagation/MessagesMap.java:28-46 | returns Query and leaves the cache as CacheAfter, with the messages unchanged |
| MessagesMaps.MessagesMap.SumIncoming | src/loopybeliefpropagation/MessagesMap.java:32-38 | the loop over the senders computes NeighborSum |
| ScorerBasics.Statics.constructor | src/loopybeliefpropagation/ScorerBasic.java:20 | BETA starts at 1 |
| ScorerBasics.FinalScore | src/loopybeliefpropagation/ScorerBasic.java:88-92 | defined exactly when the mention count is non-zero, and then the neighbour messages plus the compatibility over the count |
| ScorerBasics.ChoiceValues | src/loopybeliefpropagation/ScorerBasic.java:64-86 | one choice per mention |
| ScorerBasics.MessageScoreExcludesReceiver | src/loopybeliefpropagation/ScorerBasic.java:33-44 | a message score is the compatibility over l plus 2 BETA relatedness over l(l-1) plus the messages from every mention other than sender and receiver |
| ScorerBasics.NeighborsExcludingReceiver | src/loopybeliefpropagation/ScorerBasic.java:41-42 | the neighbour part of a message score is the sum over every mention but the sender and the receiver |
| ScorerBasics.MessageScoreNeedsTwo | src/loopybeliefpropagation/ScorerBasic.java:35-37 | with fewer than two mentions l(l-1) is 0, the double quotient is not finite and new BigDecimal throws NumberFormatException |
| ScorerBasics.FinalOfMeaning | src/loopybeliefpropagation/ScorerBasic.java:46-53 | a final score is defined exactly when every incoming message is present, and is then their sum plus the compatibility over l |
| ScorerBasics.ScoresUpToValid | src/loopybeliefpropagation/ScorerBasic.java:46-62 | computeScores builds a well-formed map |
| ScorerBasics.ChooseUpToBest | src/loopybeliefpropagation/ScorerBasic.java:67-82 | the choice loop fails exactly when a final score does, and otherwise keeps the first greatest score |
| ScorerBasics.ChoiceIsFirstMaximum | src/loopybeliefpropagation/ScorerBasic.java:64-86 | the chosen entity is defined exactly when every candidate's final score is, is -1 without candidates, and otherwise is the first candidate of greatest final score |
| ScorerBasics.SolutionUpToDefined | src/loopybeliefpropagation/ScorerBasic.java:64-86 | the solution fails exactly when some mention's choice does |
| ScorerBasics.SolutionUpToPuts | src/loopybeliefpropagation/ScorerBasic.java:64-86 | the solution is each mention's choice put under its key, in mention order |
| ScorerBasics.SolutionEntries | src/loopybeliefpropagation/ScorerBasic.java:64-86 | the solution's keys are exactly the mentions' keys, and a mention not overwritten by a later equal one maps to its choice |
| ScorerBasics.SolutionWithoutMessages | src/loopybeliefpropagation/ScorerBasic.java:64-86 | on null messages the solution fails exactly when some mention has a candidate, and otherwise maps every mention to -1 |
| ScorerBasics.ScoreCandidatesDefined | src/loopybeliefpropagation/ScorerBasic.java:49-59 | the candidate loop fails exactly when a candidate's final score does |
| ScorerBasics.ScoreCandidatesHas | src/loopybeliefpropagation/ScorerBasic.java:49-59 | the candidate loop puts each visited candidate's final score under it |
| ScorerBasics.ScoreCandidatesFrom | src/loopybeliefpropagation/ScorerBasic.java:49-59 | an entry after the candidate loop was there before, unchanged, or is a visited candidate's final score |
| ScorerBasics.ScoreCandidatesKeeps | src/loopybeliefpropagation/ScorerBasic.java:49-59 | the candidate loop keeps every entry, and leaves those of other mentions as they were |
| ScorerBasics.ScoresUpToDefined | src/loopybeliefpropagation/ScorerBasic.java:46-62 | computeScores fails exactly when some candidate's final score does |
| ScorerBasics.ScoresUpToHas | src/loopybeliefpropagation/ScorerBasic.java:46-62 | every candidate of every mention has its final score in the result |
| ScorerBasics.ScoresUpToFrom | src/loopybeliefpropagation/ScorerBasic.java:46-62 | every entry of the result is some mention's candidate, holding its final score |
| ScorerBasics.SameTotalsScoring | src/loopybeliefpropagation/MessagesMap.java:30-44 | caches with the same totals give the same message scores, scores and solution |
| ScorerBasics.SoundCacheScoring | src/loopybeliefpropagation/MessagesMap.java:30-44 | a sound cache scores as an empty one |
| ScorerBasics.ScorerBasic.constructor | src/loopybeliefpropagation/ScorerBasic.java:26-30 | keeps the mentions and fills the relatedness map from the link index |
| ScorerBasics.ScorerBasic.SetBeta | src/loopybeliefpropagation/ScorerBasic.java:98-100 | writes the shared static BETA |
| ScorerBasics.ScorerBasic.ComputeMessageScore | src/loopybeliefpropagation/ScorerBasic.java:33-44 | returns MessageScoreOf on the old messages, keeping the messages and the cache's totals |
| ScorerBasics.ScorerBasic.ComputeScores | src/loopybeliefpropagation/ScorerBasic.java:46-62 | returns ScoresOf, keeping the messages and the cache's totals |
| ScorerBasics.ScorerBasic.ComputeSolution | src/loopybeliefpropagation/ScorerBasic.java:64-86 | returns SolutionOf, on null messages or on the given ones |
| ScorerBasics.ScoresLoop | src/loopybeliefpropagation/ScorerBasic.java:48-60 | the loop over the mentions computes ScoresOf |
| ScorerBasics.ScoresLoopStep | src/loopybeliefpropagation/ScorerBasic.java:48-60 | one pass extends the loop by one mention, or ends it with the failure |
| ScorerBasics.ScoreMention | src/loopybeliefpropagation/ScorerBasic.java:49-59 | the loop over one mention's candidates computes ScoreCandidates |
| ScorerBasics.SolutionLoop | src/loopybeliefpropagation/ScorerBasic.java:66-84 | the loop over the mentions computes SolutionOf |
| ScorerBasics.SolutionLoopStep | src/loopybeliefpropagation/ScorerBasic.java:66-84 | one pass puts the next mention's choice, or ends the loop with the failure |
| ScorerBasics.Choose | src/loopybeliefpropagation/ScorerBasic.java:67-82 | the candidate loop computes ChoiceOf, replacing the best only by a strictly greater score |
| CandidatePairs.CandidateLists | src/loopybeliefpropagation/RelatednessMap.java:28-29 | each mention's candidate entities, in iteration order |
| CandidatePairs.Key | src/loopybeliefpropagation/RelatednessMap.java:35-38 | the PairOfInts key is (min, max), the same for both orders of a pair |
| CandidatePairs.StoreConcat | src/loopybeliefpropagation/RelatednessMap.java:24-49 | storing two runs of pairs is storing the first, then the second |
| CandidatePairs.StoreHas | src/loopybeliefpropagation/RelatednessMap.java:35-39 | a pair with an entry is stored under its key, with its own value unless a later pair with the same key overwrites it |
| CandidatePairs.StoreFrom | src/loopybeliefpropagation/RelatednessMap.java:35-39 | every stored key comes from the initial map or holds the entry of some visited pair with that key |
| CandidatePairs.AllPairsHas | src/loopybeliefpropagation/RelatednessMap.java:24-49 | the loops visit every candidate pair of every two mentions i < j |
| CandidatePairs.AllPairsFrom | src/loopybeliefpropagation/RelatednessMap.java:24-49 | every visited pair comes from the candidates of two mentions i < j |
| CandidatePairs.StoreRow | src/loopybeliefpropagation/RelatednessMap.java:29-46 | the innermost loop stores the pairs of one candidate with each candidate of the other mention |
| CandidatePairs.StoreBlock | src/loopybeliefpropagation/RelatednessMap.java:28-47 | the two candidate loops store every pair of the two mentions' candidates |
| CandidatePairs.StoreMentionRow | src/loopybeliefpropagation/RelatednessMap.java:26-48 | the loop over later mentions stores mention i's pairs with each of them |
| CandidatePairs.StoreAll | src/loopybeliefpropagation/RelatednessMap.java:24-49 | the constructor's loops store every candidate pair of every two mentions i < j, in order |
| RelatednessMaps.Build | src/loopybeliefpropagation/RelatednessMap.java:21-50 | the constructor stores Filled: the pairs of distinct entities whose relatedness reaches EPS |
| RelatednessMaps.GetSymmetric | src/loopybeliefpropagation/RelatednessMap.java:52-61 | get is symmetric, and an entity is related 1 to itself |
| RelatednessMaps.FilledSound | src/loopybeliefpropagation/RelatednessMap.java:21-61 | a pair of distinct entities reads 0, or at least EPS and the relatedness of some candidate pair of two mentions with the same key |
| RelatednessMaps.FilledComplete | src/loopybeliefpropagation/RelatednessMap.java:21-61 | a candidate pair of distinct entities of two mentions whose relatedness reaches EPS reads at least EPS, and exactly its relatedness when that is symmetric |
| CocitationMaps.Build | src/loopybeliefpropagation/CocitationMap.java:22-45 | the constructor stores Filled: every candidate pair's cocitation count, equal entities included |
| CocitationMaps.GetSymmetric | src/loopybeliefpropagation/CocitationMap.java:47-53 | get is symmetric |
| CocitationMaps.FilledSound | src/loopybeliefpropagation/CocitationMap.java:22-53 | a pair reads 0 when it was not stored, and otherwise the count of some candidate pair of two mentions with the same key |
| CocitationMaps.FilledComplete | src/loopybeliefpropagation/CocitationMap.java:22-53 | every candidate pair of two mentions is stored, and reads exactly its count when that is symmetric |
| DFTermIndexBuilders.MapPage | src/knowledgebase/DFTermIndexBuilder.java:63-78 | a page that is not an article emits nothing; an article emits each distinct term of its normalised text once, with value 1 |
| DFTermIndexBuilders.EmitOnceEach | src/knowledgebase/DFTermIndexBuilder.java:74-77 | the loop over the term set emits every term exactly once with value 1 |
| DFTermIndexBuilders.Reduce | src/knowledgebase/DFTermIndexBuilder.java:90-98 | the reducer's total is the sum of the values it receives |
| DFTermIndexBuilders.SumConcat | src/knowledgebase/DFTermIndexBuilder.java:92-95 | the sum of two runs of values is the sum of their sums |
| DFTermIndexBuilders.CombinerAgrees | src/knowledgebase/DFTermIndexBuilder.java:179-180 | the reducer is a valid combiner: summing the partial sums of any grouping gives the sum of all values |
| DFTermIndexBuilders.CountOnes | src/knowledgebase/DFTermIndexBuilder.java:76 | a 1 per true flag sums to the number of true flags |
| DFTermIndexBuilders.JobTermValues | src/knowledgebase/DFTermIndexBuilder.java:54-99 | whatever order each page iterates its term set in, the values the reducer of a term receives from the whole job are a 1 from each page whose terms hold it |
| DFTermIndexBuilders.DocumentFrequency | src/knowledgebase/DFTermIndexBuilder.java:54-99 | the count a term ends with is the number of article pages whose text contains it |
| KeyphrasenessIndexBuilders.AsTokens | src/knowledgebase/KeyphrasenessIndexBuilder.java:95 | the page's words as tokens, in order |
| KeyphrasenessIndexBuilders.GatheredAnchors | src/knowledgebase/KeyphrasenessIndexBuilder.java:98-132 | the circular buffer of n-grams finds the same anchor texts as the runs of 1 to 11 consecutive words |
| KeyphrasenessIndexBuilders.AnchorNgramSet | src/knowledgebase/KeyphrasenessIndexBuilder.java:94-132 | the set holds exactly the anchor texts among the runs of 1 to 11 consecutive words |
| KeyphrasenessIndexBuilders.MapPage | src/knowledgebase/KeyphrasenessIndexBuilder.java:88-149 | a page that is not an article emits nothing; an article emits (1, 1) per link whose normalised anchor is an anchor text, then (0, 1) once for each anchor text of the page that no link uses |
| KeyphrasenessIndexBuilders.EmitLinks | src/knowledgebase/KeyphrasenessIndexBuilder.java:134-142 | the link loop emits (1, 1) per linked anchor text and removes those anchors from the set |
| KeyphrasenessIndexBuilders.EmitRemaining | src/knowledgebase/KeyphrasenessIndexBuilder.java:144-148 | the loop over the remaining set emits each member once with (0, 1) |
| KeyphrasenessIndexBuilders.Reduce | src/knowledgebase/KeyphrasenessIndexBuilder.java:156-167 | the reducer adds up the linked counts and the totals |
| KeyphrasenessIndexBuilders.SumCountsConcat | src/knowledgebase/KeyphrasenessIndexBuilder.java:158-164 | the sums of two runs of pairs add component by component |
| KeyphrasenessIndexBuilders.CombinerAgrees | src/knowledgebase/KeyphrasenessIndexBuilder.java:152-168 | the reducer is a valid combiner: reducing partial sums of any grouping gives the sum of all pairs |
| KeyphrasenessIndexBuilders.ReducePreservesBound | src/knowledgebase/KeyphrasenessIndexBuilder.java:156-167 | pairs with 0 <= linked <= total reduce to such a pair, so an index entry never has more linked than total documents |
| KeyphrasenessIndexBuilders.LinkedEmitsCount | src/knowledgebase/KeyphrasenessIndexBuilder.java:134-142 | there is one linked emission of an anchor text per link that uses it |
| KeyphrasenessIndexBuilders.LinkedAnchorsMeaning | src/knowledgebase/KeyphrasenessIndexBuilder.java:134-142 | an anchor leaves the set exactly when it is an anchor text and some link uses it |
| WikiPages.ValuesForConcat | src/knowledgebase/EntityMentionFrequencyIndexBuilder.java:130-132 | the values emitted under a key by two runs of emissions are those of the first run followed by those of the second |
| WikiPages.EmitEachStep | src/knowledgebase/EntityMentionFrequencyIndexBuilder.java:122-134 | one more link's emission follows the earlier ones, or its failure is the result |
| WikiPages.EmitEachFailure | src/knowledgebase/EntityMentionFrequencyIndexBuilder.java:122-134 | an exception on a link fails the whole page, with that exception |
| WikiPages.EmitEachMeaning | src/knowledgebase/EntityMentionFrequencyIndexBuilder.java:122-134 | when no link fails, the page emits exactly what its links emit |
| EntityMentionFrequencyIndexBuilders.MapPage | src/knowledgebase/EntityMentionFrequencyIndexBuilder.java:115-135 | a page that is not an article emits nothing; otherwise the pairs of its links, in order, or the first exception |
| EntityMentionFrequencyIndexBuilders.ProcessLink | src/knowledgebase/EntityMentionFrequencyIndexBuilder.java:123-133 | the loop body emits LinkEmit |
| EntityMentionFrequencyIndexBuilders.LinkEmitMeaning | src/knowledgebase/EntityMentionFrequencyIndexBuilder.java:123-133 | a link fails exactly when its target cannot be processed, and otherwise emits at most one pair, (normalised anchor, target id), for a known title and a non-blank anchor |
| EntityMentionFrequencyIndexBuilders.LinkEmitAll | src/knowledgebase/EntityMentionFrequencyIndexBuilder.java:128-133 | a link to a known title with a non-blank anchor does emit its pair |
| EntityMentionFrequencyIndexBuilders.MentionEmitsMeaning | src/knowledgebase/EntityMentionFrequencyIndexBuilder.java:122-134 | when the page succeeds, every link's target could be processed and the page emits exactly the pairs its links emit |
| EntityMentionFrequencyIndexBuilders.PutKeptIsTop | src/knowledgebase/EntityMentionFrequencyIndexBuilder.java:155-162 | putting the kept entities in order gives them in that order, each with its count |
| EntityMentionFrequencyIndexBuilders.Reduce | src/knowledgebase/EntityMentionFrequencyIndexBuilder.java:146-166 | an entry is emitted exactly when some entity passes the cutoff; it has the name frequency the number of values and the kept candidates |
| EntityMentionFrequencyIndexBuilders.PutCandidates | src/knowledgebase/EntityMentionFrequencyIndexBuilder.java:155-162 | the loop over the sorted entries puts each one until the first below total * 0.02 |
| EntityMentionFrequencyIndexBuilders.TopCandidatesMeaning | src/knowledgebase/EntityMentionFrequencyIndexBuilder.java:146-166 | the kept candidates are exactly the entities linked at least total * 0.02 times, each with its number of links; none is kept exactly when no entity reaches the cutoff |
| EntityMentionIndexBuilderTop.MapPage | src/knowledgebase/EntityMentionIndexBuilderTop.java:124-154 | the mapper emits, for an article, the pairs of each link in order, and nothing for any other page; a target that cannot be processed fails the page |
| EntityMentionIndexBuilderTop.ProcessLink | src/knowledgebase/EntityMentionIndexBuilderTop.java:135-152 | one link emits ((1, anchor), toId) when the target is a title and the anchor is not blank, and ((2, toId as text), fromId) when both pages are titles |
| EntityMentionIndexBuilderTop.EmitsMeaning | src/knowledgebase/EntityMentionIndexBuilderTop.java:141-152 | a pair is emitted by a link exactly when one of the two rules allows it, and a link emits at most two pairs |
| EntityMentionIndexBuilderTop.PageEmitsMeaning | src/knowledgebase/EntityMentionIndexBuilderTop.java:124-154 | a page that is not an article emits nothing; for an article that succeeds every link target resolves, and a pair is emitted exactly when some link's rule emits it |
| EntityMentionIndexBuilderTop.OutputFile | src/knowledgebase/EntityMentionIndexBuilderTop.java:208-216 | key 1 and key 2 go to two different outputs, and every other key throws IllegalArgumentException |
| EntityMentionIndexBuilderTop.Reduce | src/knowledgebase/EntityMentionIndexBuilderTop.java:176-206 | the reducer writes the candidate list of an anchor (nothing when it is empty) or the ascending linkers of an entity, to the file its key names |
| EntityMentionIndexBuilderTop.EmittedKeysAccepted | src/knowledgebase/EntityMentionIndexBuilderTop.java:141-152 | every key the mapper emits is one the reducer accepts, so getOutputFile never throws on mapper output |
| EntityMentionIndexBuilderTop.CandidatesMeaning | src/knowledgebase/EntityMentionIndexBuilderTop.java:178-194 | the candidates of an anchor are exactly the entities linked at least total * 0.02 times, distinct and by decreasing count; there are none exactly when no entity reaches the cutoff |
| EntityMentionIndexBuilderTop.LinkersMeaning | src/knowledgebase/EntityMentionIndexBuilderTop.java:125-205 | over all pages of a job, an entity's line lists, once each and in ascending order, exactly the title ids of the articles that link to it |
| WikiPages.ValuesForMeaning | src/knowledgebase/EntityMentionIndexBuilderTop.java:196-205 | a value reaches the reducer of key k exactly when some mapper emitted the pair (k, value) |
| EntityMentionIndexBuilderTop.IdsTextParsesBack | src/knowledgebase/EntityMentionIndexBuilderTop.java:195-201 | a list of int ids joined by the separator splits and parses back to the same ids |
| EntityMentionIndexBuilderTop.ReduceOutputReadsBack | src/knowledgebase/EntityMentionIndexBuilderTop.java:176-206 | every line the reducer writes reads back, by the index loaders' split-and-parse, to its candidates or to its ascending linkers, under the key's text |
| EntityLinksIndexBuilders.LinkerPairs | src/knowledgebase/EntityLinksIndexBuilder.java:134-139 | each resolved target t gives the pair ((t, 1), fromId), one per target, in order |
| EntityLinksIndexBuilders.MapPage | src/knowledgebase/EntityLinksIndexBuilder.java:116-147 | the mapper emits the linker pairs of an article with a title id followed by its link count, and the count it passes to the counters is the number of linker pairs |
| EntityLinksIndexBuilders.ResolvedTargetsMeaning | src/knowledgebase/EntityLinksIndexBuilder.java:129-140 | when the page succeeds every link target could be processed, and an id is among the resolved targets exactly when some link's canonical target has that title id |
| EntityLinksIndexBuilders.PageEmitsMeaning | src/knowledgebase/EntityLinksIndexBuilder.java:116-147 | a page that emits anything is an article with a title id; its last pair is (fromId, 0) carrying the number of pairs before it, and every earlier pair is a (target, 1) key with value fromId |
| EntityLinksIndexBuilders.CountKeyComesFirst | src/knowledgebase/EntityLinksIndexBuilder.java:150-156 | an entity's link-count key sorts before its linker keys and is sent to the same reducer, which is what lets the reducer remember noLinks |
| EntityLinksIndexBuilders.JavaDiv | src/knowledgebase/EntityLinksIndexBuilder.java:145 | Java's int division truncates toward zero: the remainder has the dividend's sign and is smaller than the divisor |
| EntityLinksIndexBuilders.PairsIncrement | src/knowledgebase/EntityLinksIndexBuilder.java:145 | the PAIRS_TOTAL increment nlinks * (nlinks - 1) / 2, computed in 32-bit ints, is always an int |
| EntityLinksIndexBuilders.Partition | src/knowledgebase/EntityLinksIndexBuilder.java:153-155 | getPartition throws ArithmeticException exactly when there are no reduce tasks, and otherwise returns an index in [0, n) where n is the absolute number of tasks |
| EntityLinksIndexBuilders.PartitionIsLowBits | src/knowledgebase/EntityLinksIndexBuilder.java:153-155 | clearing the sign bit keeps the low 31 bits, so the partition is (entity mod 2^31) % n, n being the absolute number of tasks; a non-negative entity goes to entity % n, and entities with the same low 31 bits go to the same reducer |
| EntityLinksIndexBuilders.PairsIncrementExact | src/knowledgebase/EntityLinksIndexBuilder.java:145 | the PAIRS_TOTAL increment, computed in 32-bit ints, is the number of unordered pairs of links while nlinks <= 46341 |
| EntityLinksIndexBuilders.LinksOf | src/knowledgebase/EntityLinksIndexBuilder.java:182-184 | each entity of the list is paired with its number of occurrences among the values |
| EntityLinksIndexBuilders.AddEntries | src/knowledgebase/EntityLinksIndexBuilder.java:182-184 | the loop appends to the entry, in order, each entity with its frequency and changes nothing else |
| EntityLinksIndexBuilders.EntityLinksReducer.constructor | src/knowledgebase/EntityLinksIndexBuilder.java:161 | a new reducer remembers no link count (-1) |
| EntityLinksIndexBuilders.EntityLinksReducer.Reduce | src/knowledgebase/EntityLinksIndexBuilder.java:165-187 | a count key stores its first value as noLinks and writes nothing (an empty value list throws NoSuchElement); a linker key writes, under the entity, the record of its values with the remembered noLinks |
| EntityLinksIndexBuilders.SumFrequenciesOf | src/knowledgebase/EntityLinksIndexBuilder.java:173-184 | the frequencies added for a list of entities sum to the number of their occurrences among the values |
| EntityLinksIndexBuilders.InlinksRecordMeaning | src/knowledgebase/EntityLinksIndexBuilder.java:173-184 | the written record has totalFrequency = the number of values and the remembered noLinks; its links are in strictly ascending entity order, name exactly the linking pages, each with its number of links, and their frequencies sum to totalFrequency |

## Left out

- PageRankWithPriors and WeakComponentClusterer (src/baseline/RandomGraphWalk.java:166-188, 340-346) are foreign library calls. The stationary score is an input function `rank`.
- The JUNG `DirectedSparseGraph` is a sequence of edges. Its behaviour on duplicate edges is not modelled.
- cosineDistance, getNorm, computeImportance and getLocalMentionEntityCompatibility (src/md/MentionDetection.java:264-304) are floating-point scoring. The local compatibility is a parameter `compat(offset, entity)`, and a mention's importance is an input.
- ScorerFull and ScorerMaxEnt score with Math.log of ratios. Only ScorerBasic is modelled.
- Both logarithm formulas are uninterpreted parameters, so only their guard cases are modelled:
  - the one in getSemanticRelatedness;
  - `log10` in getIDF.
- `double` values are exact reals, and `BigDecimal` divisions ignore their HALF_UP rounding. The one exception is the zero-mass fallback of constructGraph, where scale-0 rounding decides the weight.
- `HashMap`/`HashSet` iteration order, including `getEntriesSortedByValue` and `keySet`, is a parameter `order` or `keyOrder`, except for the maps held in an `OrderedMap`, whose order is the order of first insertion.
  - A precondition ties it to the key set, plus the sort order where the source sorts.
  - HMapII's own order is not modelled.
- Unescaping, regex tag removal and URLDecoder inside Normalizer are uninterpreted string functions. Case mapping covers ASCII letters only.
- Two separators are not declared in the files of this model. MentionIndex.SEPARATOR is the one EntityMentionIndexBuilderTop joins anchor candidates with. MentionEntitiesKeyphrasenessIndexBuilder.SEPARATOR is the one MentionEntitiesFrequencyIndex.load splits on. Both are taken to be the tab that MentionIndex.load splits on (src/index/MentionIndex.java:31).
- Hadoop plumbing is not modelled: run/main, JobConf, the DistributedCache, counters other than PAIRS_TOTAL, MultipleOutputs and the configure methods.
  - A mapper's output is the sequence of pairs it emits.
  - When a mapper throws, its earlier emissions are discarded, because the failed task's output is lost.
- The titles and redirect indexes are Dafny maps, and a missing title gives -1. TitlesIndex is not part of this model; NOT_CANONICAL_TITLE = -1 follows src/index/TitleIDsIndex.java:14.
- NameEntry is held by value, and getCandidateProbability is left out.
- Every `load` is modelled only through its per-line rule: the file reading and the line loop over a sequence of lines.
- Mention.getContext reads a file and is left out.
- RandomGraphWalk.verifyGraph, verifyRankerScores and printInfoRandomGraphWalk only log. The debug TreeSet in computeSolution and all logging and timing are left out.
- setTitlesIdIndex is left out.
- getSolutionNameAnnotations is left out, because the model keys the solution by position or by MentionKey, which carries no original n-gram.
- The pipeline glue of solve/getCandidateMentions is left out, and so are the extra index arguments of the second MentionDetection constructor.
- RandomGraphWalk's own copy of countOccurences (src/baseline/RandomGraphWalk.java:348-355) is identical to MentionDetection's and is not modelled twice.
- MentionDetection.CountOccurences requires a non-empty needle and 2|text| - |needle| <= Integer.MAX_VALUE. With an empty needle the source loop never ends; past that bound the cursor overflows.
- MentionDetection.GatherNgrams keeps its buffer as an `array` of n-gram values, each updated with `NgramValue.Appended`, which `Ngram.Append` is proved to match.
  - The aliasing between buffer slots and Ngram objects is not modelled.
  - The model sets originalNgram to "", because Ngram.java declares neither setOriginalNgram nor getOriginalNgram (src/md/MentionDetection.java:154-157).
- Mentions.Mention.constructor sets originalNgram to "", where Mention(String, int, int) leaves it null (src/md/Mention.java:36-41). A mention never given setOriginalNgram would make Java's getOriginalNgram().equals(...) in VerifierMentionDetection throw a NullPointerException; the model fails to match instead. The evaluation code sets the field right after construction.
- RandomGraphWalks: vertices are keyed by mention position, because the constructors Vertex.java declares do not match their calls in RandomGraphWalk.java, which pass Mention objects.
- RelatednessMaps and CocitationMaps are built once and then held as map values, not as `HashMap` subclasses.
- LoopyBeliefPropagations.SolveDefined requires l(l-1) <= Integer.MAX_VALUE and at least one iteration. With no iteration src/loopybeliefpropagation/LoopyBeliefPropagation.java:47 never assigns newMessages, so computeSolution receives null, as SolveWithoutSweeps states. LoopyBeliefPropagations.SweepValues and its helpers SweepRowValues and SweepUpToValues require pairwise-distinct mentions, which the TreeSet of extractMentions provides.
  - extractMentions' TreeSet makes the mentions distinct.
  - Without the bound, computeMessageScore's int product overflows.
- The int sums and counts of the reducers (DFTermIndexBuilder, KeyphrasenessIndexBuilder, EntityMentionFrequencyIndexBuilder) are unbounded integers. So are the sums of EntityLinksFrequencyIndex.getCocitation; Java wraps them at 2^31.
- EntityLinksFrequencyIndexes.GetConditionalDenominator: the `long` products and sum of getConditionalDenominator (src/index/EntityLinksFrequencyIndex.java:82-94) are unbounded integers, where Java wraps at 2^63.
- CandidatesEntries.MostFrequentIsFirstMaximum: among entities of equal frequency it picks the first in insertion order. Java picks the first in the HashMap's bucket order, which insertion order stands for here.
- CandidatesEntries.CandidatesEntry.GetMostFrequentEntity: ties are broken by insertion order, as above, not by Java's hash order.
- RandomGraphWalks.ChoiceIsFirstMaximum: ties between candidates are broken by the insertion order of Mention.candidates, not by Java's hash order.
- ScorerBasics.ChoiceIsFirstMaximum: ties between candidates are broken by the insertion order of Mention.candidates, not by Java's hash order.
- CandidatesEntries.CandidatesEntry.ToString and CandidatesEntries.CandidatesEntry.Write list the candidates in insertion order. Java lists them in the HashMap's bucket order.
- EntityLinksFrequencyIndexes.CocitationMeaning states the intended two-cursor merge, not the loop as written; the loop as written is EntityLinksFrequencyIndexes.CocitationAsWritten (see Findings).
- EntityLinksFrequencyIndexes.GetCocitation runs the intended merge; the loop as written is EntityLinksFrequencyIndexes.GetCocitationAsWritten, which is bounded by it (see Findings).
- Strings are sequences of Unicode characters, where a Java `String` is a sequence of UTF-16 code units. Offsets and lengths (Tokens, Ngrams, Mentions, the annotations VerifierMentionDetections and Annotations compare), JavaLang.StringHash (and so Tokens.Hash, Ngrams.Hash, Mentions.Hash) and JavaLang.StringCompare (and so Mentions.CompareTo) match Java only on text with no character outside the Basic Multilingual Plane. A character such as U+1F600 counts once here and twice in Java.
- JavaLang.ParseInt accepts the ASCII digits '0'-'9' only, where Integer.parseInt also accepts every other Unicode decimal digit (Character.digit). So a field such as fullwidth "１２" is a NumberFormatException in the model and 12 in Java. Every int parse of the loaders inherits this.
- Normalizers.ProcessTargetLink: `urlDecode` is an unconstrained parameter, so the model keeps a StringIndexOutOfBoundsException path for decoded text shorter than "http://a.a/". URLDecoder.decode never shortens that ASCII prefix, so in Java substring(11) cannot throw there, and the builders' mappers cannot fail that way.
- The keyphraseness mapper's circular `StringBuilder` buffer is modelled on values, as the set of anchor spans it gathers. The set of known anchors is a parameter.

## Findings

| source | as written | input that shows it | evidently intended | confidence | as-written member | corrected member |
|---|---|---|---|---|---|---|
| src/index/EntityLinksFrequencyIndex.java:66-78 | the loop header's `++i, ++j` runs on top of the increments in each branch, so a match moves both cursors by two and a mismatch moves one cursor by two and the other by one | links [(1,1),(2,1)] and [(2,1)]: the shared linker 2 is skipped and the result is 0 | a two-cursor merge that moves only the cursors the branch names, giving 1 | not executed | EntityLinksFrequencyIndexes.CommonAsWrittenSkipsMatch | EntityLinksFrequencyIndexes.CommonIsSumOfProducts |
