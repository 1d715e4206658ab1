/** Searching the whole index, leaf by leaf: what each kind of query matches, said of the documents'
    own tokens. */
module WholeSearch {
  import opened Wrappers
  import opened Inverter
  import opened RoundTrip
  import opened Scoring
  import opened Queries
  import opened Accents
  import opened Expansion
  import opened WholeIndex
  import FuzzyTerms
  import Lex
  import Postings
  import TermDict
  import Utf8Order
  import WrittenIndex

  // ----- leaves over several terms -----

  lemma {:induction false} UnionHas<S(!new)>(w: Whole, env: Env<S>, field: string, ts: seq<string>, id: nat)
    requires w.Valid() && w.Serves(env.index)
    ensures env.Sc().UnionValues(field, ts, id) != [] <==> exists i | 0 <= i < |ts| :: w.Has(id, field, ts[i])
  {
    hide Whole.Has, Whole.Serves, Scorer.TermValues, Part.Written, Part.ShownBy;
    if ts != [] {
      var n := |ts| - 1;
      UnionHas(w, env, field, ts[..n], id);
      w.HitsHave(env, field, ts[n], id);
      assert forall i | 0 <= i < n :: ts[..n][i] == ts[i];
    }
  }

  lemma {:induction false} FuzzyHas<S(!new)>(w: Whole, env: Env<S>, field: string, ts: seq<(string, S)>, id: nat)
    requires w.Valid() && w.Serves(env.index)
    ensures env.Sc().FuzzyValues(field, ts, id) != [] <==> exists i | 0 <= i < |ts| :: w.Has(id, field, ts[i].0)
  {
    hide Whole.Has, Whole.Serves, Scorer.TermValues, Part.Written, Part.ShownBy;
    if ts != [] {
      var n := |ts| - 1;
      FuzzyHas(w, env, field, ts[..n], id);
      w.HitsHave(env, field, ts[n].0, id);
      assert forall i | 0 <= i < n :: ts[..n][i] == ts[i];
    }
  }

  /** A leaf over one field matches when it contributes something there. */
  lemma {:induction false} LeafMatches<S(!new)>(env: Env<S>, q: Query<S>, field: string, id: nat)
    requires q.Leaf() && q.field == Some(field)
    ensures env.Matches(q, id) <==> env.FieldValues(q, field, id) != []
  {
    hide Env.FieldValues, Arith.Fold;
    assert env.TargetFields(q.field) == [field];
    WrittenIndex.LeafOfOne(env, q, field, id);
  }

  lemma {:induction false} UnionMatches<S(!new)>(env: Env<S>, q: Query<S>, field: string, ts: seq<string>, id: nat)
    requires (q.AccentTerm? && ts == env.index.accentTerms(field, q.text))
          || (q.Wildcard? && ts == env.index.wildcardTerms(field, q.pattern, q.minPrefixLen, q.accentInsensitive))
    requires q.field == Some(field)
    ensures env.Matches(q, id) <==> env.Sc().UnionValues(field, ts, id) != []
  {
    hide Arith.Fold, Scorer.UnionValues, Env.Matches;
    LeafMatches(env, q, field, id);
  }

  lemma {:induction false} FuzzyMatches<S(!new)>(env: Env<S>, q: Query<S>, field: string, id: nat)
    requires q.Fuzzy? && q.field == Some(field)
    ensures env.Matches(q, id) <==>
            env.Sc().FuzzyValues(field, env.index.fuzzyTerms(field, q.text, q.similarity, q.prefixLen, q.accentInsensitive), id) != []
  {
    hide Arith.Fold, Scorer.FuzzyValues, Env.Matches;
    LeafMatches(env, q, field, id);
  }

  // ----- accent-insensitive terms -----

  /** A term some live document has is counted. */
  lemma {:induction false} Counted<S>(w: Whole, reader: Reader<S>, field: string, t: string, id: nat)
    requires w.Valid() && w.Serves(reader) && w.Has(id, field, t)
    ensures reader.docFreq(field, t) > 0
  {
    hide Whole.Has, Part.Written, Part.ShownBy, Whole.PostingsAre, Whole.PositionsAre, Whole.DocFreqs;
    var ps := reader.postings(field, t);
    assert w.PostingsAre(ps, field, t) && reader.docFreq(field, t) == w.DocFreqs(field, t, |w.parts|);
    w.Posted(ps, field, t, id);
    if reader.docFreq(field, t) == 0 {
      w.Uncounted(ps, field, t);
      assert false;
    }
  }

  /** An accent-insensitive term matches exactly the documents that have a spelling of it. */
  lemma {:induction false} AccentFinds<S(!new)>(w: Whole, env: Env<S>, field: string, text: string, id: nat)
    requires w.Valid() && w.Serves(env.index)
    requires forall v: string :: v in env.index.accentTerms(field, text) <==> IsVariant(v, text) && env.index.docFreq(field, v) > 0
    ensures env.Matches(AccentTerm(Some(field), text), id) <==> exists v: string :: IsVariant(v, text) && w.Has(id, field, v)
  {
    hide Whole.Has, Part.Written, Part.ShownBy, Whole.Serves, IsVariant, Env.Matches, Scorer.UnionValues;
    var ts := env.index.accentTerms(field, text);
    UnionMatches(env, Query<S>.AccentTerm(Some(field), text), field, ts, id);
    UnionHas(w, env, field, ts, id);
    if i :| 0 <= i < |ts| && w.Has(id, field, ts[i]) {
      assert ts[i] in ts;
    }
    if v: string :| IsVariant(v, text) && w.Has(id, field, v) {
      Counted(w, env.index, field, v, id);
      var i :| 0 <= i < |ts| && ts[i] == v;
    }
  }

  // ----- expansions over the dictionary -----

  /** `ts` lists the field's terms, of all segments, each once. */
  ghost predicate Lists(w: Whole, ts: seq<string>, field: string) {
    Distinct(ts) && forall t :: t in ts <==> w.SomeTerm(field, TermDict.Every, t)
  }

  /** What a live document has is a term of the dictionary. */
  lemma {:induction false} HadIsTerm(w: Whole, field: string, t: string, id: nat)
    requires w.Valid() && w.Has(id, field, t)
    ensures w.SomeTerm(field, TermDict.Every, t)
  {
    hide WrittenIndex.Says, AllDistinct, PostingsOf, PositionsIn, Part.ShownBy, TermDict.Opened, TermDict.Lookup, Answers, Whole.Owner, Whole.Has;
    w.HasIs(id, field, t);
    var (i, d) := w.Owner(id).value;
    var part := w.parts[i];
    assert part.Written(w.analyze);
    if d >= |part.docs| {
      WrittenIndex.NobodySays(part.docs, d, field, t, w.analyze);
      assert false;
    }
    WrittenIndex.NonEmptySays(part.docs, d, field, t, w.analyze);
    PostingsNonEmpty(part.docs, |part.docs|, field, t, w.analyze);
    LookedUp(part, field, t, w.analyze);
    assert t in w.parts[i].Terms(field, TermDict.Every);
  }

  lemma {:induction false} LookedUp(part: Part, field: string, t: string, analyze: string -> seq<string>)
    requires part.Written(analyze) && PostingsOf(part.docs, |part.docs|, field, t, analyze) != []
    ensures t in part.Terms(field, TermDict.Every)
  {
    hide AllDistinct, PostingsOf, TermDict.Opened, TermDict.Lookup, TermDict.Select, Postings.TermPostings;
    var es := part.Entries();
    assert Answers(TermDict.Lookup(es, Lex.Key(field, t)), part.seg.files, PostingsOf(part.docs, |part.docs|, field, t, analyze));
    if forall i | 0 <= i < |es| :: es[i].Key() != Lex.Key(field, t) {
      TermDict.LookupAbsent(es, Lex.Key(field, t));
      assert false;
    }
    var i :| 0 <= i < |es| && es[i].Key() == Lex.Key(field, t);
    var sel := TermDict.Select(es, field, TermDict.Every);
    part.Selected(es, field, TermDict.Every, es[i]);
    var k: nat :| k < |sel| && sel[k] == es[i];
    assert TermDict.Texts(sel)[k] == t;
  }

  /** The document has a term that the pattern reaches as typed. */
  ghost predicate HasAsTyped(w: Whole, expander: Expander, field: string, pattern: string, minLen: nat, id: nat)
    requires w.Valid()
  {
    var prefix, re := LiteralPrefix(pattern), expander.compile(pattern);
    |Utf8Order.Utf8(prefix)| >= minLen && re.Some? && exists t: string :: prefix <= t && re.value(t) && w.Has(id, field, t)
  }

  /** The document has a term that the folded pattern reaches through some spelling of the typed prefix. */
  ghost predicate HasUnaccented(w: Whole, expander: Expander, field: string, pattern: string, id: nat)
    requires w.Valid()
  {
    var re := expander.compile(FoldAccents(pattern));
    re.Some? && exists t: string :: StartsWithVariant(t, LiteralPrefix(pattern)) && re.value(FoldAccents(t)) && w.Has(id, field, t)
  }

  /** A wildcard matches exactly the documents with a term that the pattern reaches, unless more terms
      than the cap share its literal prefix; it never matches another document. */
  lemma {:induction false} WildcardFinds<S(!new)>(w: Whole, env: Env<S>, expander: Expander, field: string, pattern: string, minLen: nat, id: nat)
    requires w.Valid() && w.Serves(env.index) && Lists(w, expander.terms(field), field)
    requires env.index.wildcardTerms(field, pattern, minLen, false) == expander.WildcardTerms(field, pattern, minLen)
    ensures var reached := HasAsTyped(w, expander, field, pattern, minLen, id);
            var matches := env.Matches(Wildcard(Some(field), pattern, minLen, false), id);
            && (matches ==> reached)
            && (|WithPrefix(expander.terms(field), LiteralPrefix(pattern))| <= 4096 && reached ==> matches)
  {
    hide Whole.Has, Part.Written, Part.ShownBy, Whole.Serves, Env.Matches, Scorer.UnionValues, LiteralPrefix, Utf8Order.Utf8, WithPrefix, FirstN, Expander.WildcardTerms, Whole.SomeTerm;
    var ts := expander.WildcardTerms(field, pattern, minLen);
    UnionMatches(env, Query<S>.Wildcard(Some(field), pattern, minLen, false), field, ts, id);
    UnionHas(w, env, field, ts, id);
    if i :| 0 <= i < |ts| && w.Has(id, field, ts[i]) {
      assert ts[i] in ts;
    }
    forall t: string | w.Has(id, field, t) ensures t in expander.terms(field) {
      HadIsTerm(w, field, t, id);
    }
    if |WithPrefix(expander.terms(field), LiteralPrefix(pattern))| <= 4096 {
      forall t: string | t in ts && w.Has(id, field, t) ensures exists i | 0 <= i < |ts| :: w.Has(id, field, ts[i]) {
        var i :| 0 <= i < |ts| && ts[i] == t;
      }
    }
  }

  /** The same without accents: the typed prefix in any spelling, then the folded pattern. A prefix with
      white space falls back to the pattern as typed. */
  lemma {:induction false} AccentWildcardFinds<S(!new)>(w: Whole, env: Env<S>, expander: Expander, field: string, pattern: string, minLen: nat, id: nat)
    requires w.Valid() && w.Serves(env.index) && Lists(w, expander.terms(field), field)
    requires expander.AccentExpands(field, pattern, minLen, env.index.wildcardTerms(field, pattern, minLen, true))
    ensures var terms, folded := expander.terms(field), LiteralPrefix(FoldAccents(pattern));
            var spaced := expander.HasWhitespace(folded);
            var reached := |Utf8Order.Utf8(folded)| >= minLen
                           && if spaced then HasAsTyped(w, expander, field, pattern, minLen, id) else HasUnaccented(w, expander, field, pattern, id);
            var fits := (if spaced then |WithPrefix(terms, LiteralPrefix(pattern))| else |SpelledTerms(terms, LiteralPrefix(pattern))|) <= 4096;
            var matches := env.Matches(Wildcard(Some(field), pattern, minLen, true), id);
            (matches ==> reached) && (fits && reached ==> matches)
  {
    hide Whole.Has, Part.Written, Part.ShownBy, Whole.Serves, Env.Matches, Scorer.UnionValues, LiteralPrefix, Utf8Order.Utf8, Expander.WildcardTerms, Whole.SomeTerm,
         StartsWithVariant, SpelledTerms, FoldAccents, Spellings, Filled, Expander.HasWhitespace, WithPrefix, FirstN;
    var ts := env.index.wildcardTerms(field, pattern, minLen, true);
    UnionMatches(env, Query<S>.Wildcard(Some(field), pattern, minLen, true), field, ts, id);
    UnionHas(w, env, field, ts, id);
    if i :| 0 <= i < |ts| && w.Has(id, field, ts[i]) {
      assert ts[i] in ts;
    }
    forall t: string | w.Has(id, field, t) ensures t in expander.terms(field) {
      HadIsTerm(w, field, t, id);
    }
    forall t: string | t in ts && w.Has(id, field, t) ensures exists i | 0 <= i < |ts| :: w.Has(id, field, ts[i]) {
      var i :| 0 <= i < |ts| && ts[i] == t;
    }
  }

  /** A fuzzy word matches exactly the documents with a term of some bucket that is more similar than the
      threshold by the full formula, unless 1024 terms are; it never matches another document. */
  lemma {:induction false} FuzzyFinds(w: Whole, env: Env<real>, ts: seq<string>, field: string, word: FuzzyTerms.Word, minSim: real, id: nat)
    requires w.Valid() && w.Serves(env.index) && Lists(w, ts, field) && minSim >= 0.0
    requires word.Expands(ts, minSim, env.index.fuzzyTerms(field, word.term, minSim, word.prefixLength, word.accentInsensitive))
    ensures var listed := env.index.fuzzyTerms(field, word.term, minSim, word.prefixLength, word.accentInsensitive);
            var alike := exists t: string :: word.InBuckets(t) && word.Alike(t) > minSim && w.Has(id, field, t);
            var matches := env.Matches(Fuzzy(Some(field), word.term, minSim, word.prefixLength, word.accentInsensitive), id);
            (matches ==> alike) && (|listed| < 1024 && alike ==> matches)
  {
    hide Whole.Has, Part.Written, Part.ShownBy, Whole.Serves, Env.Matches, Scorer.FuzzyValues, Whole.SomeTerm, FuzzyTerms.Word.InBuckets, FuzzyTerms.Word.Alike,
         FuzzyTerms.Word.Seen, FuzzyTerms.Boost, FuzzyTerms.MoreSimilar, FuzzyTerms.Word.Accepts;
    var q := Query<real>.Fuzzy(Some(field), word.term, minSim, word.prefixLength, word.accentInsensitive);
    var listed := env.index.fuzzyTerms(field, word.term, minSim, word.prefixLength, word.accentInsensitive);
    FuzzyMatches(env, q, field, id);
    FuzzyHas(w, env, field, listed, id);
    forall t: string ensures word.Accepts(ts, t, minSim) <==> t in ts && word.InBuckets(t) && word.Alike(t) > minSim {
      word.AcceptsAlike(ts, t, minSim);
    }
    if i :| 0 <= i < |listed| && w.Has(id, field, listed[i].0) {
      assert word.Accepts(ts, listed[i].0, minSim);
    }
    if |listed| < 1024 {
      if t: string :| word.InBuckets(t) && word.Alike(t) > minSim && w.Has(id, field, t) {
        HadIsTerm(w, field, t, id);
        assert word.Accepts(ts, t, minSim);
        var i :| 0 <= i < |listed| && listed[i].0 == t;
        assert w.Has(id, field, listed[i].0);
      }
    }
  }

  // ----- phrases -----

  /** The positions a reader has for a document are those of its own tokens, while it is live. */
  lemma {:induction false} PositionsSay(w: Whole, m: map<nat, seq<nat>>, field: string, t: string, id: nat)
    requires w.Valid() && w.PositionsAre(m, field, t)
    ensures var ps := Scoring.Get(m, id);
            && (ps.Some? <==> w.Has(id, field, t))
            && (ps.Some? ==> forall p: nat :: p in ps.value <==> w.Says(id, field, t, p))
  {
    hide WrittenIndex.Written, WrittenIndex.Says, AllDistinct, Part.ShownBy, PositionsIn, Postings.Collected, WrittenIndex.Segment.AllPositions, Whole.Owner, Whole.Has;
    w.HasIs(id, field, t);
    if w.Owner(id).Some? {
      var (i, d) := w.Owner(id).value;
      var part := w.parts[i];
      assert part.Written(w.analyze);
      WrittenIndex.PositionsAre(part.seg, part.docs, w.analyze, field, t, d);
      if d < |part.docs| {
        WrittenIndex.NonEmptySays(part.docs, d, field, t, w.analyze);
        forall p: nat ensures p in PositionsIn(part.docs[d].fields, field, t, w.analyze) <==> WrittenIndex.Says(part.docs, d, field, t, p, w.analyze) {
          WrittenIndex.PositionsSay(part.docs, d, field, t, p, w.analyze);
        }
      } else {
        WrittenIndex.NobodySays(part.docs, d, field, t, w.analyze);
      }
    }
  }

  /** Some of the spellings stands at the position. */
  ghost predicate SomeSays(w: Whole, id: nat, field: string, variants: seq<string>, p: nat)
    requires w.Valid()
  {
    exists i | 0 <= i < |variants| :: w.Says(id, field, variants[i], p)
  }

  lemma {:induction false} WordSays<S(!new)>(w: Whole, env: Env<S>, field: string, variants: seq<string>, id: nat)
    requires w.Valid() && w.Serves(env.index)
    ensures var ps := env.Sc().WordPositions(field, variants, id);
            && (ps.Some? <==> exists p: nat :: SomeSays(w, id, field, variants, p))
            && (ps.Some? ==> forall p: nat :: p in ps.value <==> SomeSays(w, id, field, variants, p))
  {
    hide Part.Written, Part.ShownBy, Whole.Says, Whole.Serves, SomeSays;
    if variants == [] {
      NobodySpells(w, id, field);
    } else {
      var n := |variants| - 1;
      var v := variants[n];
      WordSays(w, env, field, variants[..n], id);
      ServesPositions(w, env.index, field, v);
      PositionsSay(w, env.index.positions(field, v), field, v, id);
      forall p: nat ensures SomeSays(w, id, field, variants, p) <==> SomeSays(w, id, field, variants[..n], p) || w.Says(id, field, v, p) {
        OneSpellingMore(w, id, field, variants, p);
      }
    }
  }

  lemma {:induction false} ServesPositions<S>(w: Whole, reader: Reader<S>, field: string, t: string)
    requires w.Valid() && w.Serves(reader)
    ensures w.PositionsAre(reader.positions(field, t), field, t)
  {
    hide Part.Written, Part.ShownBy, Whole.PositionsAre, Whole.PostingsAre;
  }

  lemma {:induction false} NobodySpells(w: Whole, id: nat, field: string)
    requires w.Valid()
    ensures forall p: nat :: !SomeSays(w, id, field, [], p)
  {
  }

  lemma {:induction false} OneSpellingMore(w: Whole, id: nat, field: string, variants: seq<string>, p: nat)
    requires w.Valid() && variants != []
    ensures var n := |variants| - 1;
            SomeSays(w, id, field, variants, p) <==> SomeSays(w, id, field, variants[..n], p) || w.Says(id, field, variants[n], p)
  {
    hide Part.Written, Part.ShownBy, Whole.Says;
    var n := |variants| - 1;
    assert forall i | 0 <= i < n :: variants[..n][i] == variants[i];
  }

  /** `v` is how the phrase word may be spelled. */
  ghost predicate Spells(v: string, word: string, accentInsensitive: bool) {
    if accentInsensitive then IsVariant(v, word) else v == word
  }

  /** From `p` on, the live document has the words next to each other, each in some spelling. */
  ghost predicate SaysInOrder(w: Whole, id: nat, field: string, words: seq<string>, accentInsensitive: bool, p: nat)
    requires w.Valid()
  {
    forall i | 0 <= i < |words| :: Spelled(w, id, field, words[i], accentInsensitive, p + i)
  }

  ghost predicate Spelled(w: Whole, id: nat, field: string, word: string, accentInsensitive: bool, p: nat)
    requires w.Valid()
  {
    exists v: string :: Spells(v, word, accentInsensitive) && w.Says(id, field, v, p)
  }

  /** The reader's spellings of a word are those the document may have. */
  lemma {:induction false} VariantsSpell<S(!new)>(w: Whole, env: Env<S>, field: string, word: string, accentInsensitive: bool, id: nat, p: nat)
    requires w.Valid() && w.Serves(env.index)
    requires forall v: string :: v in env.index.accentTerms(field, word) <==> IsVariant(v, word) && env.index.docFreq(field, v) > 0
    ensures SomeSays(w, id, field, env.Sc().Variants(field, word, accentInsensitive), p) <==> Spelled(w, id, field, word, accentInsensitive, p)
  {
    hide Part.Written, Part.ShownBy, Whole.Says, Whole.Serves, IsVariant;
    var variants := env.Sc().Variants(field, word, accentInsensitive);
    if i :| 0 <= i < |variants| && w.Says(id, field, variants[i], p) {
      assert variants[i] in variants;
      assert Spells(variants[i], word, accentInsensitive);
    }
    if v: string :| Spells(v, word, accentInsensitive) && w.Says(id, field, v, p) {
      assert w.Has(id, field, v);
      Counted(w, env.index, field, v, id);
      assert v in variants;
      var i :| 0 <= i < |variants| && variants[i] == v;
    }
  }

  /** A phrase, accents heeded or not, matches exactly the live documents that have its words next to
      each other, in order. */
  lemma {:induction false} PhraseFinds<S(!new)>(w: Whole, env: Env<S>, field: string, words: seq<string>, accentInsensitive: bool, id: nat)
    requires w.Valid() && w.Serves(env.index)
    requires forall word: string, v: string :: v in env.index.accentTerms(field, word) <==> IsVariant(v, word) && env.index.docFreq(field, v) > 0
    ensures env.Matches(Phrase(Some(field), words, accentInsensitive), id) <==>
            words != [] && exists p: nat :: SaysInOrder(w, id, field, words, accentInsensitive, p)
  {
    hide Part.Written, Part.ShownBy, Whole.Serves, Env.Matches, IsVariant, Scorer.WordPositions, Spelled, Scorer.Variants, Scorer.PhraseIn;
    PhraseMatches(env, field, words, accentInsensitive, id);
    forall i | 0 <= i < |words|
      ensures var ps := env.Sc().WordPositions(field, env.Sc().Variants(field, words[i], accentInsensitive), id);
              && (ps.Some? <==> exists p: nat :: Spelled(w, id, field, words[i], accentInsensitive, p))
              && (ps.Some? ==> forall p: nat :: p in ps.value <==> Spelled(w, id, field, words[i], accentInsensitive, p))
    {
      WordSays(w, env, field, env.Sc().Variants(field, words[i], accentInsensitive), id);
      forall p: nat ensures SomeSays(w, id, field, env.Sc().Variants(field, words[i], accentInsensitive), p) <==> Spelled(w, id, field, words[i], accentInsensitive, p) {
        VariantsSpell(w, env, field, words[i], accentInsensitive, id, p);
      }
    }
    InOrder(w, env, field, words, accentInsensitive, id);
  }

  lemma {:induction false} PhraseMatches<S(!new)>(env: Env<S>, field: string, words: seq<string>, accentInsensitive: bool, id: nat)
    ensures env.Matches(Phrase(Some(field), words, accentInsensitive), id) <==> env.Sc().PhraseIn(field, words, accentInsensitive, id)
  {
    hide Scorer.PhraseIn, Arith.Fold, Scorer.WordValues, Env.Matches;
    LeafMatches(env, Query<S>.Phrase(Some(field), words, accentInsensitive), field, id);
  }

  lemma {:induction false} InOrder<S(!new)>(w: Whole, env: Env<S>, field: string, words: seq<string>, accentInsensitive: bool, id: nat)
    requires w.Valid()
    requires forall i | 0 <= i < |words| ::
               var ps := env.Sc().WordPositions(field, env.Sc().Variants(field, words[i], accentInsensitive), id);
               && (ps.Some? <==> exists p: nat :: Spelled(w, id, field, words[i], accentInsensitive, p))
               && (ps.Some? ==> forall p: nat :: p in ps.value <==> Spelled(w, id, field, words[i], accentInsensitive, p))
    ensures env.Sc().PhraseIn(field, words, accentInsensitive, id) <==>
            words != [] && exists p: nat :: SaysInOrder(w, id, field, words, accentInsensitive, p)
  {
    hide Part.Written, Part.ShownBy, Scorer.WordPositions, Spelled, Scorer.Variants;
    var sc := env.Sc();
    if sc.PhraseIn(field, words, accentInsensitive, id) {
      var p: nat :| p in sc.WordPositions(field, sc.Variants(field, words[0], accentInsensitive), id).value
                 && forall i | 1 <= i < |words| :: p + i in sc.WordPositions(field, sc.Variants(field, words[i], accentInsensitive), id).value;
      assert SaysInOrder(w, id, field, words, accentInsensitive, p);
    }
    if words != [] && exists p: nat :: SaysInOrder(w, id, field, words, accentInsensitive, p) {
      var p: nat :| SaysInOrder(w, id, field, words, accentInsensitive, p);
      assert forall i | 0 <= i < |words| :: Spelled(w, id, field, words[i], accentInsensitive, p + i);
      assert Spelled(w, id, field, words[0], accentInsensitive, p + 0);
    }
  }
}
