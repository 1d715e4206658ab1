# A verified model of the search core

The search core reads and writes the Zend Search Lucene index format and answers boolean, fuzzy and
phrase queries over it. Nearly every hard part of it is a fast form that must agree with a simple one.
This project writes both forms in Dafny and proves that they agree, for all inputs.

`dafny verify dfyconfig.toml` checks everything.

## What is modelled

Loops are methods with loops, writers are classes whose fields they update, and each is proved against
a function or a predicate that says what it is for; pure code is functions.

* **Bytes.** `Bytes` has the variable-length integers and strings, with their readers, writers and the
  skipper; `Postings` the delta-coded documents and positions; `Stored`, `CompoundFile` and `Norms` the
  other files. Readers are modelled on every byte string, corrupt ones included, with the error they give.
* **Term dictionary.** `TermDict` is the lazy reader: the sampled index, the binary search, resumption
  from a sample, and the four queries, each equal to a filter over the full decode. `TermDictWriter` is
  the writer of all four files, streaming and buffering, and `DictRoundTrip` shows that what it writes is
  what the reader expects.
* **Inversion.** `Inverter` turns documents into terms, positions, norm lengths and stored fields;
  `RoundTrip` carries them through the bytes and back; `WrittenIndex` closes the circle: a term or a
  phrase searched over the written bytes finds exactly the documents that say it and are not deleted.
* **Evaluation.** `Scoring` scores the leaves, `Query` evaluates trees, `BoolTree` compiles boolean trees,
  `BuildQuery` composes the request, `AllowLists` applies filters. Scores are an unspecified type with an
  unspecified addition, so equal scores means the same expression in the same order, not a real number
  reached some other way.
* **Ranking.** `Sorting` and `Ranking` have the two bounded top-K selections, and `Pages` says where each hit
  of a page stands among all matches; `Similarity` the two
  similarities over the reals; `Hybrid` fuses rankings; `Retrieval` is the plain, feedback and hybrid
  search end to end.
* **Sort tables.** `SortTable` reads a field's keys from its terms; `SortDocuments` says for which documents
  that is what their stored values say, `WholeSort` the same over all segments, and `SortVisibility` when
  a ranking shows the difference.
* **Expansion.** `Distance`, `Fuzzy`, `Accents`, `Expansion` and `Utf8Order` turn words into dictionary terms.
* **Segments.** `Segments` is the view over several segments. `WholeIndex` puts written segments with their
  deletions behind it and shows that the reader deserves the trust the searches put in it; `WholeSearch`
  says what each kind of query then finds, in terms of the documents alone.
* **Merging.** `Merge` is the k-way streaming merge with deletions, and `MergeReference` the collecting merge
  it must agree with and the inversion of the live documents that both must equal; `MergeFiles` takes both
  merges down to the same bytes.

## What the proofs found

* The length shortcut of the fuzzy similarity is lossless exactly for thresholds from zero up
  (`FuzzyTerms.PruningExact`); below zero it accepts words the full formula rejects.
* A compiled boolean tree has its classical meaning throughout exactly when every `not` stands directly
  under an `and` with a non-negated child (`BoolTrees.MeaningKeptExactly`); under an `or` a negation drops
  out (`BoolTrees.NegationUnderOr`). Only at the root is a pure negation rescued.
* The numeric sort table is said to pick only where sort values come from, never results
  (sdsearch-core/src/search.rs:632). It does not: which of table and stored values a sort reads depends on how
  many documents matched, and they can differ. `SortVisibility.EmptyKeywordSeen` shows a ranking that turns
  around. `FinalizeSorted` and `SearchPaged` therefore promise the ranking by whichever source is chosen.
  * The table gives a document the key its stored value gives exactly when the document's tokens in the
    field say what its first stored value says: no token exactly when nothing is stored, and a token worth a
    number exactly when the stored value is that number (`SortTables.TableAgreesExactly` over terms,
    `SortDocuments.SegmentSortTable` over the documents before they are indexed, `WholeSort.JointAgrees` over
    all segments).
  * A stored keyword meets this exactly when it is not empty: an empty one is stored but never indexed. An
    indexed value that is not stored, a value stored in one document and indexed only in another, and a text
    whose token is a number the text itself is not, fail it too (`SortDocuments.OthersDisagree`).
  * Over a set of documents the choice shows in no ranking exactly when any two of them compare the same
    way by both sources (`SortVisibility.UnseenExactly`); documents that all meet the condition above do.
* The comment on `lexical_search` (sdsearch-core/src/zsl/runner.rs:15-17) promises a fallback over the text
  when the primary result is empty. The code has none, as the comment on `search_index` below it explains;
  the model follows the code.

## How the code's world is represented

* Strings are sequences of Unicode scalar values; `Utf8Order.SameOrder` shows that comparing them is
  comparing their bytes.
* 64-bit and 32-bit wrap-around is written out where corrupt data can reach it: variable-length integers,
  frequencies cast to 32 bits, document and position sums, and pointer sums wrap as in a release build.
  Combining disjoint bits is written as addition.
* `f32` scores are an unspecified type where equality is the point and reals where an inequality is
  (ranking, fusion, normalization); `f64` similarities and norms are reals. NaN is excluded.
* A hash map is a map, and walking one picks an arbitrary element each time, so results hold for every
  iteration order.
* Library sorting, selection, heaps and ordered sets are modelled by what they promise; the bounded loops
  around them are modelled step by step.
* Parameters stand for what is not modelled: the analyzer, the wildcard regex, the decimal parser, lossy
  UTF-8 of binary values, the free-text subquery, feedback-term selection, the logarithm and the square root;
  the evaluator takes any similarity, and `Similarity` supplies the two there are.
* Preconditions such as `Moderate` and `Fits` bound sizes by the widths the format can express.

## Model

| member | source | states |
|---|---|---|
| `Lex.PrefixRangeEnds` | sdsearch-core/src/zsl/terms.rs:386-440 | Once a sorted scan has left the terms that start with a prefix it never meets one again, which is what lets the prefix scan stop early |
| `Utf8Order.SameOrder` | sdsearch-core/src/zsl/terms.rs:335-368 | Comparing UTF-8 bytes orders strings exactly as comparing code points does, so strings may be modelled as code points throughout |
| `Utf8Order.Utf8Append` | sdsearch-core/src/search.rs:340-382 | The encoding of a concatenation is the concatenation of the encodings, so a prefix of characters is a prefix of bytes |
| `Bytes.WriteVInt` | sdsearch-core/src/serialize.rs:4-14 | Appends exactly the unsigned LEB128 encoding (section 7.6 of DWARF version 5) |
| `Bytes.ReadVInt` | sdsearch-core/src/serialize.rs:23-47 | Agrees, on every byte string, with the recursive decoder: value, end position, truncation and more-than-64-bits errors, and the shift-out of the tenth byte's high bits |
| `Bytes.VIntRoundTrip` | sdsearch-core/src/serialize.rs:4-47 | Reading undoes writing for every 64-bit value, wherever the bytes lie in a larger file |
| `Bytes.BigEndianRoundTrip` | sdsearch-core/src/zsl/bytes.rs:4-16 | A big-endian integer of any width reads back as itself |
| `Bytes.IntRoundTrip` | sdsearch-core/src/zsl/bytes.rs:52-73 | An eight-byte integer reads back as itself at any position |
| `Bytes.WriteModifiedUtf8` | sdsearch-core/src/zsl/bytes.rs:19-29 | Appends the code-point count, then UTF-8 (section 3 of RFC 3629) with NUL as C0 80 |
| `Bytes.ReadModifiedUtf8` | sdsearch-core/src/zsl/bytes.rs:84-122 | Agrees with the recursive string decoder on every byte string, corrupt or not |
| `Bytes.SkipModifiedUtf8` | sdsearch-core/src/zsl/bytes.rs:129-148 | On every byte string, corrupt or not, stops where reading stops and fails with the error reading fails with |
| `Bytes.StringRoundTrip` | sdsearch-core/src/zsl/bytes.rs:19-122 | Reading undoes writing for every Unicode string |
| `Postings.WriteTermPostings` | sdsearch-core/src/zsl/writer/postings.rs:11-38 | Appends the delta encoding of the term's documents and positions after whatever the buffers hold and returns the offsets where it starts |
| `Postings.ReadFreqs` | sdsearch-core/src/zsl/postings.rs:8-27 | Agrees with the reference decoder of `.frq` on every input, errors included |
| `Postings.ForEachPosting` | sdsearch-core/src/zsl/postings.rs:70-98 | Visits exactly the postings the reference decoder lists and stops with its error |
| `Postings.ReadAllPositions` | sdsearch-core/src/zsl/postings.rs:103-114 | Returns all postings or the first error |
| `Postings.ReadPositions` | sdsearch-core/src/zsl/postings.rs:32-63 | Returns the positions of the first posting of the document, before any error behind it |
| `Postings.FreqsAgree` | sdsearch-core/src/zsl/postings.rs:8-114 | Whenever positions decode, decoding frequencies alone succeeds and gives the same documents with the numbers of positions |
| `Postings.TermRoundTrip` | sdsearch-core/src/zsl/postings.rs:70-98 | Postings written anywhere in the two files decode, from their offsets, to exactly the documents, frequencies and positions that were written |
| `TermDict.ResumeDecodesSuffix` | sdsearch-core/src/zsl/terms.rs:201-222 | Decoding from the state past the k-th entry yields the full decode from there: prefix and delta state is recovered from that entry alone |
| `TermDict.Open` | sdsearch-core/src/zsl/terms.rs:250-320 | Opens exactly when the specification does, with the samples, running pointers and synthetic first sample it describes |
| `TermDict.Dict.PartitionPoint` | sdsearch-core/src/zsl/terms.rs:335-345 | The binary search returns the boundary between samples at or below the key and samples above it |
| `TermDict.Dict.FindAnchor` | sdsearch-core/src/zsl/terms.rs:335-350 | The sample chosen resumes the decode at a known entry, with every entry skipped below the key |
| `TermDict.Dict.AnchorLooksUp` | sdsearch-core/src/zsl/terms.rs:335-368 | Looking a key up from the anchor on, after comparing the anchor itself, is looking it up in the whole file |
| `TermDict.Dict.AnchorSelects` | sdsearch-core/src/zsl/terms.rs:386-528 | Selecting by field and by prefix, bounds or nothing from the anchor on loses no entry, wherever the anchor falls, an earlier field included |
| `TermDict.Dict.Info` | sdsearch-core/src/zsl/terms.rs:335-368 | For every sorted file and every sampling of it, the lookup equals the lookup in the full decode, present or absent |
| `TermDict.Dict.TermsWithPrefixLimited` | sdsearch-core/src/zsl/terms.rs:386-440 | The first `limit` terms of the full decode with that field and prefix, in order |
| `TermDict.Dict.TermsInRange` | sdsearch-core/src/zsl/terms.rs:447-490 | The terms of the full decode in that field within the inclusive bounds, either of which may be missing, in order |
| `TermDict.Dict.FieldTerms` | sdsearch-core/src/zsl/terms.rs:497-528 | The entries of the full decode in that field, in order |
| `TermDict.Dict.DecodeAll` | sdsearch-core/src/zsl/terms.rs:537-559 | The loop yields the full decode up to the first undecodable entry |
| `TermDict.EagerAgrees` | sdsearch-core/src/zsl/terms.rs:70-112 | When the eager reader succeeds and uses up the file, the lazy full decode is what it read |
| `TermDictWriter.CommonPrefix` | sdsearch-core/src/zsl/writer/terms.rs:363-375 | The number of leading characters two strings share and the bytes they take in UTF-8 |
| `TermDictWriter.ByteCut` | sdsearch-core/src/zsl/writer/terms.rs:334-375 | Cutting a text's bytes at the shared prefix's byte length leaves the bytes of its characters past the shared ones |
| `TermDictWriter.DumpEntry` | sdsearch-core/src/zsl/writer/terms.rs:334-358 | Appends an entry: shared characters only within a field, suffix, field, frequency, and pointer deltas |
| `TermDictWriter.EntryRoundTrip` | sdsearch-core/src/zsl/terms.rs:625-651 | Decoding an entry with its predecessor's state undoes writing it after that predecessor |
| `TermDictWriter.TermDictStreamWriter.DumpTisEntry` | sdsearch-core/src/zsl/writer/terms.rs:225-270 | Keeps both dictionary files equal to the specified ones for the terms so far, sampling each 128th |
| `TermDictWriter.TermDictStreamWriter.AddTerm` | sdsearch-core/src/zsl/writer/terms.rs:126-147 | One whole term more: all four files stay as specified |
| `TermDictWriter.TermDictStreamWriter.BeginTerm` | sdsearch-core/src/zsl/writer/terms.rs:152-161 | Opens a term at the current ends of the posting files |
| `TermDictWriter.TermDictStreamWriter.AddPosting` | sdsearch-core/src/zsl/writer/terms.rs:166-198 | One posting more of the open term: the posting files stay as specified |
| `TermDictWriter.TermDictStreamWriter.EndTerm` | sdsearch-core/src/zsl/writer/terms.rs:203-217 | Writes the open term's entry, or nothing for a term without postings |
| `TermDictWriter.TermDictStreamWriter.Finish` | sdsearch-core/src/zsl/writer/terms.rs:275-296 | Back-patches both counts, leaving exactly the specified files |
| `TermDictWriter.WriteTermDict` | sdsearch-core/src/zsl/writer/terms.rs:298-320 | The buffering writer leaves the same specified files, so both writers agree byte for byte |
| `TermDictWriter.DictRoundTrip` | sdsearch-core/src/zsl/terms.rs:250-320 | The written files open, the lazy dictionary decodes to exactly the written entries, and its samples are valid for every lazy query |
| `TermDictWriter.FilesRoundTrip` | sdsearch-core/src/zsl/postings.rs:70-98 | Whatever terms surround it, every term's entry in the written files points at bytes that decode to exactly its postings |
| `Inverter.Invert` | sdsearch-core/src/zsl/writer/invert.rs:52-162 | Fields in first-seen order, terms strictly sorted by field name and text with exactly the postings of the documents, norm lengths and stored fields: nothing lost, nothing invented, for all documents |
| `Inverter.AddField` | sdsearch-core/src/zsl/writer/invert.rs:63-124 | One field of one document more keeps the whole accumulator equal to what the documents so far prescribe |
| `Inverter.AddTokens` | sdsearch-core/src/zsl/writer/invert.rs:93-122 | Lists each token of the field at its position and touches no other document or field |
| `Inverter.NormColumns` | sdsearch-core/src/zsl/writer/invert.rs:141-153 | A column of lengths for each indexed field, one entry a document; empty for the others |
| `RoundTrip.OccurrencesExact` | sdsearch-core/src/zsl/writer/invert.rs:93-110 | The positions of a token ascend strictly and are exactly the places where it stands |
| `RoundTrip.InversionExact` | sdsearch-core/src/zsl/writer/invert.rs:52-162 | When no field name repeats within a document, position p is listed for a field, text and document if and only if that token of that field is the text |
| `RoundTrip.FrequenciesSumToNorm` | sdsearch-core/src/zsl/writer/invert.rs:109-153 | Frequencies over all terms of a field in a document sum to its norm length, which is absent exactly when they sum to zero |
| `RoundTrip.InvertedEncodable` | sdsearch-core/src/zsl/writer/postings.rs:11-38 | An inversion meets what the posting writer demands: ascending documents, non-empty ascending positions |
| `RoundTrip.IndexRoundTrip` | sdsearch-core/src/zsl/writer/mod.rs:118-160 | From documents to bytes and back: looking a term up in the written files finds it exactly when some document holds it, and its pointers decode to exactly its documents and positions |
| `WrittenIndex.WrittenBy` | sdsearch-core/src/zsl/writer/mod.rs:118-160 | The files of an inversion, with any documents deleted, are a segment holding exactly the documents' postings, for every field name |
| `WrittenIndex.Reads` | sdsearch-core/src/zsl/segment.rs:245-375 | Over such files the segment's positions and frequencies are those of the documents that are not deleted |
| `WrittenIndex.TermFinds` | sdsearch-core/src/query.rs:92-109 | Over the bytes written for any documents, a term query matches a document exactly when it is not deleted and the term is one of its tokens in that field |
| `WrittenIndex.PhraseFinds` | sdsearch-core/src/search.rs:458-519 | Over the same bytes, a phrase query matches exactly the documents not deleted that hold the words next to each other, in order |
| `WholeIndex.Part.DocFreqIs` | sdsearch-core/src/zsl/segment.rs:245-249 | A written segment's document frequency of a term is the number of its documents that have it, deleted ones included |
| `WholeIndex.Whole.DocFreqsCount` | sdsearch-core/src/zsl/index.rs:77-82 | Over all segments it is the number of documents, of whatever segment, that have it |
| `Postings.AsManyAsCounted` | sdsearch-core/src/zsl/postings.rs:70-98 | A walk that ends without an error visits as many documents as the entry counts |
| `WholeIndex.Whole.Posted` | sdsearch-core/src/zsl/index.rs:84-92 | Over any number of written segments, each with its deletions, a document is in a term's postings exactly when its own segment's document has the term and is live |
| `WholeIndex.Whole.TermFinds` | sdsearch-core/src/zsl/index.rs:84-92 | Over all segments, a term query matches exactly the live documents with that token in that field |
| `WholeIndex.Whole.IsLawful` | sdsearch-core/src/zsl/index.rs:52-190 | The reader over written segments meets everything the filters and searches assume of one: exact live and document counts, postings and positions of live documents only, and term ranges that are the bounded terms |
| `WholeSearch.AccentFinds` | sdsearch-core/src/search.rs:776-786 | Over all segments, an accent-insensitive term matches exactly the live documents with some spelling of it, given the spellings `accent_variant_terms` lists |
| `WholeSearch.WildcardFinds` | sdsearch-core/src/search.rs:234-257 | Over all segments, a wildcard matches only live documents with a term of the literal prefix that the pattern accepts, and all of those unless more terms than the cap share the prefix |
| `WholeSearch.AccentWildcardFinds` | sdsearch-core/src/search.rs:275-309 | The same without accents: a live document matches exactly when it has a term that some spelling of the prefix and the folded pattern reach (as typed when the prefix holds white space), unless more than the cap share those spellings |
| `WholeSearch.FuzzyFinds` | sdsearch-core/src/search.rs:340-402 | Over all segments, a fuzzy word matches only live documents with a term of some bucket more similar than the threshold, by the full formula, and all of those unless 1024 others are more similar |
| `WholeSearch.PhraseFinds` | sdsearch-core/src/search.rs:458-519 | Over all segments, a phrase, accents heeded or not, matches exactly the live documents with its words next to each other, in order, each in an allowed spelling |
| `Sorting.SortSorts` | sdsearch-core/src/search.rs:537-582 | The sort model never puts a smaller element behind a larger one |
| `Sorting.SortAscends` | sdsearch-core/src/search.rs:537-582 | Elements a strict order tells apart are sorted strictly |
| `Sorting.AscendingUnique` | sdsearch-core/src/search.rs:537-582 | A strictly ascending sequence is determined by its elements, so any sorting algorithm gives the same ranking |
| `Scoring.Scorer.UnionScores` | sdsearch-core/src/search.rs:199-222 | Under any restriction, exactly the restricted documents with the left-to-right sum of their term scores, for an addition not assumed associative |
| `Scoring.Scorer.UnionTerm` | sdsearch-core/src/search.rs:171-222 | One term's scores are added for allowed documents and change nothing else |
| `Scoring.Scorer.FuzzyScores` | sdsearch-core/src/search.rs:313-327 | As for a union, each score multiplied by the expansion's boost first |
| `Scoring.Scorer.MergedPositions` | sdsearch-core/src/search.rs:433-451 | Positions of all spellings of a word joined per document, and the number of documents |
| `Scoring.Scorer.PhraseScores` | sdsearch-core/src/search.rs:458-519 | Exactly the allowed documents in which some start position is followed, word by word, by the next positions, with their scores; intersecting candidates first changes nothing |
| `Queries.Env.EvalLeaf` | sdsearch-core/src/query.rs:92-181 | A leaf's map is its values over the target fields, each weighted, in field order |
| `Queries.Env.WeightedInField` | sdsearch-core/src/query.rs:85-181 | A leaf in one field scores its values there, each times the weight given for that very field, or one when none is given |
| `Queries.Env.WeightedInFields` | sdsearch-core/src/query.rs:85-181 | A leaf without a field scores its values over the indexed fields in order, each field's share times that field's own weight |
| `Queries.Env.PostedScore` | sdsearch-core/src/search.rs:171-197 | A document a term lists once scores the similarity of the collection's document frequency, the posting's frequency and the field's length there and on average, times the field's weight |
| `Queries.Env.Eval` | sdsearch-core/src/query.rs:92-208 | Evaluating any query tree under any restriction gives exactly the reference scores of the allowed documents |
| `Queries.Env.EvalBoolean` | sdsearch-core/src/query.rs:212-312 | The evaluator that shrinks candidates, runs the first must last and skips exclusions on an empty set equals the one that evaluates every clause in full: same documents, same score expression |
| `Queries.Env.EvalMusts` | sdsearch-core/src/query.rs:246-264 | However the candidates shrink, what is left is the intersection of all musts, and each must's scores on it are its own |
| `Queries.Env.Sums` | sdsearch-core/src/query.rs:264-276 | Scores of the musts are folded in declared order although they were evaluated in another |
| `Queries.Env.AddClause` | sdsearch-core/src/query.rs:238-285 | A should raises score and count of known documents and, only when there is no must, introduces new ones |
| `Queries.Env.Exclude` | sdsearch-core/src/query.rs:288-299 | Removes exactly the documents some exclusion matches, with exclusions evaluated only on what is left |
| `Queries.Env.RestrictionFilters` | sdsearch-core/src/query.rs:92-312 | For every query and set, the restricted result is the unrestricted result filtered to the set, with identical scores |
| `Queries.Env.BooleanMatches` | sdsearch-core/src/query.rs:212-312 | A boolean matches when no exclusion does and all musts do, or, without musts, some should does |
| `Queries.Env.BooleanScored` | sdsearch-core/src/query.rs:212-312 | A matching boolean scores the sum of its matching clauses, musts before shoulds and each in declared order, times the share of its musts and shoulds that match |
| `Queries.Env.BoostedMatches` | sdsearch-core/src/query.rs:184-191 | A boost multiplies the score and changes no match |
| `Queries.IntersectInPlace` | sdsearch-core/src/query.rs:462-466 | The intersection, whichever side is walked |
| `BoolTrees.StripDoubleNegation` | sdsearch-core/src/query.rs:625-634 | The cursor loop removes exactly the outermost pairs of negations |
| `BoolTrees.StrippedDenotes` | sdsearch-core/src/query.rs:625-634 | Cancelling double negations keeps the classical meaning |
| `BoolTrees.Compiler.MapBoolNode` | sdsearch-core/src/query.rs:647-696 | The recursive compiler equals its specification, errors included |
| `BoolTrees.Compiler.MapAnd` | sdsearch-core/src/query.rs:667-684 | Children of an `and` become musts, negated ones must-nots of the core; the first failure is the result |
| `BoolTrees.Compiler.MapOr` | sdsearch-core/src/query.rs:685-694 | Children of an `or` become shoulds; the first failure is the result |
| `BoolTrees.Compiler.FailsWhenTooDeep` | sdsearch-core/src/query.rs:647-654 | Compilation fails, with the depth error, exactly when the nesting left after cancelling double negations exceeds 32 |
| `BoolTrees.Compiler.CompiledSelects` | sdsearch-core/src/query.rs:647-696 | The compiled query matches exactly what the tree selects under the engine's negation, for every tree |
| `BoolTrees.MeaningKeptExactly` | sdsearch-core/src/query.rs:639-696 | Selection agrees with the classical meaning throughout the tree, for every truth of the phrases, if and only if every `not` sits directly under an `and` that has a non-negated child |
| `BoolTrees.NegationUnderOr` | sdsearch-core/src/query.rs:685-694 | A negation under an `or` classically holds for documents the compiled query does not match |
| `BoolTrees.Compiler.CompilationMeans` | sdsearch-core/src/query.rs:647-696 | A guarded tree within the depth limit compiles, and the compiled query matches exactly the classical denotation |
| `QueryBuilder.Builder.BuildQuery` | sdsearch-core/src/query.rs:789-875 | Fails exactly for a too deep tree or, failing that, a blank field; otherwise the query matches exactly the documents selected by tree or text, filters by sign, and groups over their key fields, with a listing of live documents when nothing requires anything |
| `QueryBuilder.Builder.Body` | sdsearch-core/src/query.rs:790-807 | Refused exactly for a too deep tree; otherwise a document meets all its musts and none of its must-nots exactly when the tree selects it, or, without a tree, the text subquery does if there is text |
| `QueryBuilder.Builder.BodyMatches` | sdsearch-core/src/query.rs:790-807 | The clauses of tree or text match what tree or text selects, hold no should, and hold a must exactly when something is required that does not only negate: a tree that is not a bare negation, or a text that is not blank |
| `QueryBuilder.Builder.BodyFails` | sdsearch-core/src/query.rs:790-807 | Too deep a tree is refused with the depth error, and nothing else is |
| `QueryBuilder.Builder.Wheres` | sdsearch-core/src/query.rs:809-829 | One clause a group, refused when any field is blank |
| `QueryBuilder.Builder.Ins` | sdsearch-core/src/query.rs:831-862 | All groups' values as alternatives, refused when any field is blank |
| `QueryBuilder.KeyFieldIs` | sdsearch-core/src/query.rs:779-786 | The field an `in` group filters on holds `_key` at some position; it is the group's name exactly when that holds it already, and the name with the suffix otherwise |
| `QueryBuilder.Builder.OneInGroup` | sdsearch-core/src/query.rs:831-873 | A request of one `in` group selects exactly the documents with one of its values in the field so named |
| `QueryBuilder.BlankIsTrimmedAway` | sdsearch-core/src/query.rs:789-812 | A text or field is blank exactly when trimming white space at both ends leaves nothing |
| `QueryBuilder.WhitespaceIs` | sdsearch-core/src/query.rs:789-812 | White space is the 25 characters of Unicode's property (section 4.6 of the Unicode Standard) |
| `QueryBuilder.Builder.TreeAlone` | sdsearch-core/src/query.rs:789-875 | A tree with no other clause: guarded, it selects its denotation; only negating at the root, it selects the live documents satisfying it |
| `AllowLists.IntersectAllow` | sdsearch-core/src/query.rs:470-478 | No list allows everything; two lists allow their intersection |
| `AllowLists.Corpus.UniversalListsAll` | sdsearch-core/src/query.rs:417-422 | A list as long as the live count may be dropped: what it lists does not change; it is dropped exactly when some documents are live and all of them pass |
| `AllowLists.Corpus.RangeAllowList` | sdsearch-core/src/query.rs:427-448 | Lists exactly the live documents with a term within the bounds of every filter; no list exactly when there is no filter or some documents are live and all of them pass |
| `AllowLists.Corpus.MatchAllAllowList` | sdsearch-core/src/query.rs:494-540 | Lists exactly the live documents holding every word of every filter, whatever the rarest-first order and the early exits; no list exactly when no filter has a word or some documents are live and all of them pass |
| `AllowLists.Corpus.AllowList` | sdsearch-core/src/query.rs:482-487 | The two lists together list exactly what passes every filter of either kind |
| `AllowLists.Corpus.ScoredAreLive` | sdsearch-core/src/zsl/segment.rs:251-261 | No query matches a deleted document |
| `AllowLists.Corpus.AllowListFilters` | sdsearch-core/src/query.rs:361-386 | Evaluation under the allow-list equals the unrestricted result filtered to live documents meeting every filter, a list dropped as universal included |
| `Ranking.TopIsPrefix` | sdsearch-core/src/search.rs:537-582 | The part of a split that precedes the rest sorts to the start of the sorted whole |
| `Ranking.PagesTile` | sdsearch-core/src/search.rs:537-582 | Consecutive pages of a ranking together are the page of both |
| `Ranking.FinalizePaged` | sdsearch-core/src/search.rs:537-582 | Quickselect and truncation return exactly the slice of the fully sorted matches at or above the threshold, and the capped total |
| `Pages.RelevancePlaces` | sdsearch-core/src/search.rs:537-582 | A page by relevance has as many hits as the matches at or above the threshold leave from the offset on, up to the limit; each is such a match with its stored fields, and the one at place i has exactly offset + i of them before it: a higher score, or the same and a smaller id |
| `Ranking.ShuffledRelevance` | sdsearch-core/src/search.rs:537-582 | The relevance ranking does not depend on the order the matches come in |
| `Ranking.KeysOrdered` | sdsearch-core/src/search.rs:86-105 | Sort keys are totally ordered: numbers, then texts, then missing |
| `Ranking.EarlierChains` | sdsearch-core/src/search.rs:112-145 | The entry order is strict and total on distinct ids in both directions, and a missing value comes after any other in both |
| `Ranking.EarlierStands` | sdsearch-core/src/search.rs:86-145 | The entry order case by case: numbers by size, texts by code points, numbers before texts, all turned around when descending, ties by higher score and then smaller id, missing values last |
| `Ranking.Offer` | sdsearch-core/src/search.rs:667-674 | One more entry keeps a heap of at most `want` entries that precede all dropped ones |
| `Ranking.Retain` | sdsearch-core/src/search.rs:644-675 | After all matches the heap holds exactly the first entries of the full sort, keyed by the table where there is one and by stored values where there is none |
| `Ranking.FinalizeSorted` | sdsearch-core/src/search.rs:616-699 | The bounded heap returns exactly the slice of all matches sorted, in either direction, by the keys of the source chosen for that many matches, with the capped total and no missing value before another; where table and stored values agree on the matches, it is the slice sorted by stored values |
| `Ranking.SortSource.ChosenWhen` | sdsearch-core/src/search.rs:592-603 | The table is used for at least one match, as soon as 128 documents for each and 128 more would exceed the index |
| `Pages.FieldPlaces` | sdsearch-core/src/search.rs:616-699 | A page by a field has as many hits as the matches leave, and the hit at place i has exactly offset + i matches before it in that order, in either direction and from either source of keys |
| `Ranking.MissingLast` | sdsearch-core/src/search.rs:112-145 | On a page sorted by a field, in either direction, a missing value is followed by missing values only |
| `Ranking.ShuffledField` | sdsearch-core/src/search.rs:616-699 | The field ranking does not depend on the order the matches come in |
| `SortTables.NumericSortValues` | sdsearch-core/src/zsl/segment.rs:299-318 | A table exactly when every term is numeric and no document has two; each document then has its term's number |
| `SortTables.TableAgreesExactly` | sdsearch-core/src/zsl/segment.rs:299-318 | Whatever the field stores and indexes: a table that is offered gives some documents the keys their stored values give if and only if, for each of them, nothing is stored exactly when no term lists it, and a number is stored exactly when a term of that number lists it |
| `SortTables.TableAgreesUnlessEmpty` | sdsearch-core/src/zsl/segment.rs:299-318 | For a field of stored keywords the exact condition is that none of the documents stores an empty value |
| `SortDocuments.FieldTermsList` | sdsearch-core/src/zsl/segment.rs:299-318 | The terms a written segment reads for a field are its tokens, each once, with exactly the documents that have them, each once |
| `SortDocuments.StoredValueRead` | sdsearch-core/src/zsl/segment.rs:280-297 | The value read from the stored files for a field is the first the document stores under that name, or none |
| `SortDocuments.SegmentSortTable` | sdsearch-core/src/zsl/segment.rs:299-318 | A written segment offers a table exactly when no document names the field, or it is indexed, all its tokens are numbers and no document has two; the table holds each document's token, and agrees with the stored values exactly where each document's tokens say what its first stored value says, a condition on the document alone, before it is indexed |
| `SortDocuments.KeywordSays` | sdsearch-core/src/zsl/segment.rs:299-318 | A stored keyword meets that condition if and only if it is not empty |
| `SortDocuments.OthersDisagree` | sdsearch-core/src/zsl/segment.rs:299-318 | A keyword that is not stored, a value that is stored only, and a stored text `10!` tokenized to `10` fail it |
| `SortVisibility.UnseenExactly` | sdsearch-core/src/search.rs:612-699 | No ranking of any of the documents, with any scores, shows which source its keys came from if and only if any two of the documents compare the same way by both sources in both directions |
| `SortVisibility.AgreeingUnseen` | sdsearch-core/src/search.rs:612-699 | Agreeing keys cannot be told apart by any ranking |
| `SortVisibility.EmptyKeywordSeen` | sdsearch-core/src/search.rs:612-699 | An empty keyword beside `7` in an index of 384: sorted downward it comes first among two matches, where stored values are read, and last by the table that a third match brings in |
| `WholeSort.JointTable` | sdsearch-core/src/zsl/index.rs:69-75 | The joint table exists when every segment offers its own and says at base plus local id what the segment's says |
| `WholeSort.JointAgrees` | sdsearch-core/src/zsl/index.rs:69-75 | It exists exactly when every segment's documents allow it, and agrees with the stored values on some documents exactly when the tokens of each of them say what its first stored value says |
| `WholeSort.AgreeingUnseen` | sdsearch-core/src/search.rs:612-699 | Where every live document does, no search can tell which source it was sorted by |
| `Distance.LevenshteinBytes` | sdsearch-core/src/distance.rs:5-25 | Two overwritten rows compute the edit-distance recurrence |
| `Distance.DistanceIsLeast` | sdsearch-core/src/distance.rs:5-25 | The distance is attained by a sequence of single-byte edits and by no shorter one |
| `Distance.NoShorterRewriting` | sdsearch-core/src/distance.rs:5-25 | No sequence of edits is shorter than the distance |
| `Distance.ShortestRewriting` | sdsearch-core/src/distance.rs:5-25 | Some sequence of edits is as long as the distance |
| `Distance.AtLeastLengthDifference` | sdsearch-core/src/search.rs:406-429 | The distance is at least the difference in length |
| `FuzzyTerms.ZendSimilarity` | sdsearch-core/src/search.rs:406-429 | The similarity with the length shortcut, for empty words and prefixes too |
| `FuzzyTerms.PruningLosesNothing` | sdsearch-core/src/search.rs:406-429 | For thresholds from zero up the shortcut rejects only words the full formula rejects, and leaves accepted similarities alone |
| `FuzzyTerms.NegativeThreshold` | sdsearch-core/src/search.rs:406-429 | Below zero the shortcut accepts a word the full formula rejects |
| `FuzzyTerms.PruningExact` | sdsearch-core/src/search.rs:406-429 | The shortcut changes no verdict if and only if the threshold is not negative |
| `FuzzyTerms.ShortcutTaken` | sdsearch-core/src/search.rs:406-429 | Up to a threshold of one the shortcut is taken exactly when the lengths differ by more than the edits the threshold allows, and above one when they differ at all or the excess is a whole edit; otherwise the similarity is the full one |
| `FuzzyTerms.BoostInRange` | sdsearch-core/src/search.rs:398-401 | A boost is in (0, 1], one exactly for full similarity, and is to one as the similarity is to full similarity, both measured from the threshold |
| `FuzzyTerms.Word.OneOffset` | sdsearch-core/src/search.rs:349-382 | One byte offset ends the shared prefix in every candidate's folded form |
| `FuzzyTerms.Word.AlikeIs` | sdsearch-core/src/search.rs:340-396 | Compared are the bytes past the shared prefix of both words, without accents exactly when accents do not count |
| `FuzzyTerms.Word.Bucket` | sdsearch-core/src/search.rs:365-386 | One bucket more: exactly its accepted terms join, none twice |
| `FuzzyTerms.Word.Matches` | sdsearch-core/src/search.rs:340-386 | All buckets together hold exactly the accepted terms, each once, bucket by bucket in the order the spellings are tried and in dictionary order within |
| `FuzzyTerms.Word.FuzzyTerms` | sdsearch-core/src/search.rs:340-402 | Every listed term is accepted, once, with its boost; an accepted term is missing only when 1024 more similar ones are listed; terms within the cap stay in the order they were found, and of more the most similar come first |
| `FuzzyTerms.Word.AcceptsAlike` | sdsearch-core/src/search.rs:406-429 | For thresholds from zero up, the shortcut accepts exactly the terms whose full similarity exceeds the threshold |
| `Accents.AccentVariants` | sdsearch-core/src/analysis.rs:51-72 | The token first, then its folded form, then from left to right every spelling with one accent more than that; none twice, and no other |
| `Accents.VariantIs` | sdsearch-core/src/analysis.rs:22-72 | Letter by letter: the token, its folded form, and for up to 64 letters the folded form with one of its vowels in one of the six accented forms |
| `Accents.VariantsFoldAlike` | sdsearch-core/src/analysis.rs:22-72 | All variants have the token's length and its folded form |
| `Accents.BucketsDisjoint` | sdsearch-core/src/search.rs:275-309 | Different variants of one length start no common term |
| `Expansion.Expander.WildcardTerms` | sdsearch-core/src/search.rs:234-257 | At most the cap, none twice: of the first terms with the literal prefix, as many as the cap, exactly those that match the pattern; so all that match, unless more terms than the cap share the prefix |
| `Expansion.Expander.AccentWildcardTerms` | sdsearch-core/src/search.rs:275-309 | At most the cap, none twice, each reached by some spelling of the prefix; bucket by bucket, the typed spelling first, each bucket's first terms fill the room left by the ones before; all that are reached unless more than the cap share those spellings |
| `Expansion.Expander.SpelledMatches` | sdsearch-core/src/search.rs:292-308 | Fills the cap bucket by bucket over all spellings of the prefix, lists no term twice and loses none when the spelled terms fit the cap |
| `Expansion.FilledExactly` | sdsearch-core/src/search.rs:292-308 | A term survives the cap if and only if its bucket's terms before it leave it within the room that the buckets before left |
| `Expansion.AccentVariantTerms` | sdsearch-core/src/search.rs:776-786 | Exactly the spellings of the token that some document has, none twice, in the order the spellings are tried |
| `Segments.Open` | sdsearch-core/src/zsl/index.rs:24-41 | Bases chain the segments end to end |
| `Segments.Index.LocateInverts` | sdsearch-core/src/zsl/index.rs:44-49 | Locating base plus local id gives back the segment and the local id |
| `Segments.Index.LocateExact` | sdsearch-core/src/zsl/index.rs:44-49 | Exactly the ids below the total are located, each in the segment that owns it |
| `Segments.Index.PostingsFor` | sdsearch-core/src/zsl/index.rs:84-92 | Strictly ascending ids; a posting is listed exactly when its owner lists the local one |
| `Segments.Index.NumericSortValues` | sdsearch-core/src/zsl/index.rs:69-75 | A table when every segment has one, holding each segment's value at base plus local id |
| `Segments.Index.TermsWithPrefix` | sdsearch-core/src/zsl/index.rs:131-137 | The ascending union of the segments' terms, without repetition |
| `Segments.Index.TermsWithPrefixLimited` | sdsearch-core/src/zsl/index.rs:139-148 | Merging each segment's first `limit` terms gives exactly the first `limit` of the full union |
| `Segments.LimitedMerge` | sdsearch-core/src/zsl/index.rs:139-148 | No term among the first `limit` of a union lies beyond the first `limit` of a list that holds it |
| `Stored.ReadStoredRaw` | sdsearch-core/src/zsl/stored.rs:25-61 | All entries of the document, or the first error, or nothing past the last document |
| `Stored.ReadStoredField` | sdsearch-core/src/zsl/stored.rs:74-109 | Skipping unwanted values: the first entry with that number before any error; whenever the full read succeeds, its first such entry |
| `Stored.StoredStreamWriter.AddDoc` | sdsearch-core/src/zsl/writer/stored.rs:32-48 | One document more: both files stay as specified |
| `Stored.WriteStored` | sdsearch-core/src/zsl/writer/stored.rs:59-74 | The buffering writer leaves the same files as the streaming one |
| `Stored.StoredRoundTrip` | sdsearch-core/src/zsl/stored.rs:25-61 | Every written document reads back as its entries in order |
| `Stored.RunRoundTrip` | sdsearch-core/src/zsl/stored.rs:41-47 | A length-prefixed run of any bytes reads back where it was written, at the very end of the file too |
| `Stored.RunFails` | sdsearch-core/src/zsl/stored.rs:41-47 | Such a run fails exactly when its length does not decode or fewer bytes are left than it says |
| `Stored.BlockBeyond` | sdsearch-core/src/zsl/stored.rs:25-36 | A document beyond the offsets has no stored fields and no error; any other follows its offset |
| `CompoundFiles.WriteCfs` | sdsearch-core/src/zsl/writer/cfs.rs:13-33 | Directory with back-patched offsets, then the data |
| `CompoundFiles.PatchedDir` | sdsearch-core/src/zsl/writer/cfs.rs:13-33 | Overwriting one reserved offset gives the directory with that offset and nothing else changed |
| `CompoundFiles.WriteCfsStreaming` | sdsearch-core/src/zsl/writer/cfs.rs:94-126 | Succeeds exactly when every source can be read at its measured length, and then writes the bytes of the buffering writer; nothing is written when a length cannot be measured |
| `CompoundFiles.Open` | sdsearch-core/src/zsl/cfs.rs:13-46 | Exactly the directory's sub-files, each ending where the next starts; fails for an undecodable directory or offsets out of order or out of range |
| `CompoundFiles.PackRoundTrip` | sdsearch-core/src/zsl/cfs.rs:13-58 | Sub-files with distinct extensions come back byte for byte under their names |
| `Norms.DecodeAscends` | sdsearch-core/src/zsl/norms.rs:26-32 | Decoded norms ascend strictly with the byte |
| `Norms.BitsDecoded` | sdsearch-core/src/zsl/norms.rs:26-32 | A norm byte decodes to the single-precision float whose bits are the byte shifted by 21 plus 0x30000000 (section 3.4 of IEEE 754) |
| `Norms.Doubles` | sdsearch-core/src/zsl/norms.rs:26-32 | Four bytes on the value doubles; 120, 124 and 128 stand for a half, one and two |
| `Norms.EncodeNorm` | sdsearch-core/src/zsl/writer/norms.rs:30-54 | The byte of the nearest table value for every positive number, the smaller of two equally near, 0 below, 255 for infinity |
| `Norms.DecodeThenEncode` | sdsearch-core/src/zsl/writer/norms.rs:30-54 | Encoding a decoded byte gives it back, for all 256 |
| `Norms.ErrorWithinEighth` | sdsearch-core/src/zsl/writer/norms.rs:30-54 | Within the table's range the error is at most an eighth of the value |
| `Hybrid.AddList` | sdsearch-core/src/hybrid.rs:27-45 | One list more: each of its documents gains its reciprocal-rank share and a representative if it had none |
| `Hybrid.FuseRrf` | sdsearch-core/src/hybrid.rs:27-57 | Each document of any list once, with the sum of its shares, best first, ties by id; one is missing only when `limit` better ones are listed |
| `Hybrid.ScoreIsTotal` | sdsearch-core/src/hybrid.rs:27-45 | A document's fused score is the sum of one share a list, which times k plus its rank there is one, and zero where it is not listed |
| `Hybrid.OneListKept` | sdsearch-core/src/hybrid.rs:27-57 | Fusing one list keeps its order, cut at the limit, and the hit at place i, counted from zero, scores one over k + i + 1 |
| `Hybrid.EarlierOutscores` | sdsearch-core/src/hybrid.rs:27-45 | A document that stands before another wherever that is listed, and is listed somewhere, outscores it |
| `Hybrid.EarlierStays` | sdsearch-core/src/hybrid.rs:27-57 | A document that stands before another in every list that holds the other stands before it in the fused list |
| `Retrieval.Normalized` | sdsearch-core/src/query.rs:373-379 | Every match once, divided by the best score when that is positive |
| `Retrieval.ScoreNonNegative` | sdsearch-core/src/query.rs:92-312 | A similarity that never scores below zero, with non-negative weights and boosts, gives non-negative scores for every query tree |
| `Similarities.Similarity.ScoreNotNegative` | sdsearch-core/src/score.rs:40-65 | Neither BM25 nor TF-IDF scores a document below zero, whatever the sign of the inverse document frequency |
| `Similarities.Similarity.Bm25Scored` | sdsearch-core/src/score.rs:40-65 | The BM25 score by its equation, with 1.2 and 0.75, an empty field counting as one word and an average that is not positive as one |
| `Similarities.Similarity.TfIdfScored` | sdsearch-core/src/score.rs:40-65 | The TF-IDF score by its equation: root of the frequency, the idf twice, over the root of the length |
| `Similarities.Similarity.IdfIs` | sdsearch-core/src/score.rs:9-38 | Both inverse document frequencies, BM25's floored at zero |
| `Similarities.Similarity.MeetsNonNegative` | sdsearch-core/src/score.rs:20-65 | An index scoring by either similarity meets what the completeness of plain, two-pass and hybrid search asks for |
| `Similarities.NegativeIdf` | sdsearch-core/src/score.rs:9-29 | The inverse document frequency of TF-IDF falls below zero for a document frequency large against the number of documents, so completeness cannot rest on its sign |
| `Retrieval.Searcher.SearchPaged` | sdsearch-core/src/query.rs:361-386 | The page of the normalized matches, by relevance or by the field's keys from the source chosen for that many matches, and the capped total; where both sources agree on the matches, the page sorted by stored values |
| `Retrieval.Searcher.RanksAgree` | sdsearch-core/src/query.rs:361-386 | Two calls rank the same matches with the same scores, whatever order their hash maps yield |
| `Retrieval.Searcher.CallsTile` | sdsearch-core/src/query.rs:361-386 | Pages by relevance asked for in separate calls tile one ranking |
| `Retrieval.Searcher.FieldCallsTile` | sdsearch-core/src/query.rs:361-386 | So do pages by a field, whatever order the calls' hash maps yield and whether or not the sort table agrees with the stored values |
| `Retrieval.Searcher.BestIsOne` | sdsearch-core/src/query.rs:361-379 | A positive best score becomes one and no score exceeds it |
| `Retrieval.Searcher.Plain` | sdsearch-core/src/query.rs:327-355 | The hits are found documents at or above the threshold, each with its score relative to the best and its stored fields, best first and ties by id; one is missing only below the threshold, or when the limit is reached by hits that all come before it |
| `Retrieval.Searcher.LexicalSearch` | sdsearch-core/src/zsl/runner.rs:18-40 | Under every limit, the hits are the live documents that pass the filters and the request selects, scored relative to the best, best first; one is missing only below the threshold, or when the limit is reached by hits that all come before it |
| `Retrieval.Searcher.SearchPrf` | sdsearch-core/src/prf.rs:64-160 | The first pass takes exactly the best `top_k` hits of the base query at no threshold, the terms are chosen from their ids in order, and the result is the search for the augmented query; it is the plain search when feedback is off, the base is a listing or no term is chosen, and empty when the first pass is; no document evades the filters, and plain search's are all there at a zero threshold and no limit |
| `Retrieval.Searcher.FeedbackFinds` | sdsearch-core/src/prf.rs:117-159 | With feedback at work, at a zero threshold and no limit, exactly the permitted documents are found that the request selects or that have one of the chosen terms |
| `Retrieval.Searcher.AugmentedScored` | sdsearch-core/src/prf.rs:134-159 | The second pass scores the base's score plus the feedback's times its weight, times the share of the two that match |
| `Retrieval.Searcher.SearchHybrid` | sdsearch-core/src/zsl/runner.rs:92-111 | The fusion by rank of the lexical search and the two-pass search, each for as many candidates as the larger of depth and limit, or all when either is unlimited; no document evades the filters, and plain search's are all there, once, at a zero threshold and no limit |
| `Merging.DenseMaps` | sdsearch-core/src/zsl/writer/merge.rs:279-336 | Live documents are numbered densely, segment after segment; deleted ones get no number |
| `Merging.GatherTerm` | sdsearch-core/src/zsl/writer/merge.rs:382-416 | Popping one heap run takes the least key left from exactly the segments that hold it, each once, and moves only them |
| `Merging.MergeTerm` | sdsearch-core/src/zsl/writer/merge.rs:418-447 | The contributing segments in index order give the key's live postings over all segments, renumbered |
| `Merging.MergeStreaming` | sdsearch-core/src/zsl/writer/merge.rs:382-450 | The k-way walk takes every key with live postings, once, ascending, with exactly those postings |
| `MergeFiles.MergeFilesStreaming` | sdsearch-core/src/zsl/writer/merge.rs:350-450 | Feeding the dictionary writer one posting at a time as the walk goes, the streaming merge leaves byte for byte the dictionary and postings files that any merge of the segments must have |
| `MergeFiles.StreamTerm` | sdsearch-core/src/zsl/writer/merge.rs:425-448 | One key streamed posting by posting adds exactly its merged term, or nothing when no live document keeps it |
| `MergeFiles.MergeFilesBatch` | sdsearch-core/src/zsl/writer/merge.rs:145-196 | The batch merge, sorted and handed to the buffering writer, leaves the same files |
| `MergeFiles.SameFiles` | sdsearch-core/src/zsl/writer/merge.rs:191-203 | Files that every merge must have are equal, so the two merges agree byte for byte |
| `MergeFiles.SoFarIsPrefix` | sdsearch-core/src/zsl/writer/merge.rs:350-450 | At every step of the walk, what has been emitted is the start of the finished merge |
| `MergeFiles.MergeExists` | sdsearch-core/src/zsl/writer/merge.rs:145-176 | Any segments have a merge |
| `MergeFiles.FieldUnion` | sdsearch-core/src/zsl/writer/merge.rs:250-264 | Fields are numbered by first appearance over the segments and indexed when any segment's is |
| `MergeFiles.UnionNumbers` | sdsearch-core/src/zsl/writer/merge.rs:250-264 | Every term of a segment whose terms name its own fields finds its field's number in the union |
| `Merging.MergeUnique` | sdsearch-core/src/zsl/writer/merge.rs:191-203 | There is only one such merge, so any two ways of computing it agree |
| `MergeReference.MergeBatch` | sdsearch-core/src/zsl/writer/merge.rs:145-176 | The collecting merge through maps computes the same merge as the streaming one, term by term and posting by posting |
| `MergeReference.MergedAscends` | sdsearch-core/src/zsl/writer/merge.rs:418-424 | Renumbered postings ascend strictly, so streaming them needs no sort |
| `MergeReference.MergedIsLive` | sdsearch-core/src/zsl/writer/merge.rs:382-450 | A merged posting list is the posting list of the live documents laid end to end |
| `MergeReference.MergeIsReinversion` | sdsearch-core/src/zsl/writer/merge.rs:382-450 | Merging segments equals inverting their live documents afresh |
| `MergeReference.InvertedIndexes` | sdsearch-core/src/zsl/writer/invert.rs:52-162 | Every inversion is a segment the merge accepts, with any of its documents deleted |

## Left out

- The in-memory index, its own segment format and its reader: a second, simpler storage behind the same reader interface, whose default methods are left out with it.
- More Like This, its term selection under a posting budget, and `MinShouldMatch`: selection enters the feedback search as an arbitrary function of the first pass's hits.
- The synonym dictionary's codec and the composition of the free-text subquery: any query may stand there.
- The sampled average field length, and the rounding of logarithms and square roots in BM25 and TF-IDF: the average is an arbitrary number, and both formulas are over the reals.
- The wildcard regex engine and the tokenizer: taken as arbitrary functions.
- `f32` rounding: the encoding of norms, the similarity, and normalization by the best score are exact over the reals.
- The `.fnm` field-name table, the `.del` bitmap, base-36 segment names and the `.nrm` file as a whole: a segment is modelled with its field names, its deletions and its norms already read.
- Index generations, locking, atomic renames, durability, memory mapping and directory scans: promises of the operating system.
- I/O errors of sinks: writers append to buffers that cannot fail; only copying a source into a compound file can.
- Overflow of `doc_id * 8` and of a position plus one: not reachable from files whose sizes are addressable.
- Staging files of the streaming merge and its copying of stored fields and norm bytes: `MergeFiles` covers the dictionary and postings files and the union of the fields.
- Capacity hints and the eager reader's own queries: memory only, and the full decode is the reference here.
- The balanced tree behind the ordered set of term unions: it is insertion into an ascending sequence here.
