/** From documents to bytes and back: inversion is exact, and the files written from it answer every
    lookup with exactly what the documents hold. */
module RoundTrip {
  import opened Wrappers
  import opened Bytes
  import opened Lex
  import opened Inverter
  import Postings
  import TermDict
  import TermDictWriter

  /** No field name repeats within a document. */
  predicate DistinctNames(fields: seq<Field>) {
    forall i, j | 0 <= i < j < |fields| :: fields[i].name != fields[j].name
  }

  predicate AllDistinct(docs: seq<Doc>) {
    forall d | 0 <= d < |docs| :: DistinctNames(docs[d].fields)
  }

  // ----- positions -----

  predicate StrictlyAscends(ps: seq<nat>) {
    forall i, j | 0 <= i < j < |ps| :: ps[i] < ps[j]
  }

  /** Position `p` is listed exactly when the token there is `t`. */
  lemma {:induction false} OccurrencesExact(tokens: seq<string>, t: string, from: nat)
    ensures StrictlyAscends(Occurrences(tokens, t, from)) && |Occurrences(tokens, t, from)| <= |tokens|
    ensures forall p: nat :: p in Occurrences(tokens, t, from) <==> from <= p < from + |tokens| && tokens[p - from] == t
  {
    if tokens != [] {
      var before := tokens[..|tokens| - 1];
      OccurrencesExact(before, t, from);
      var ps, last := Occurrences(before, t, from), from + |tokens| - 1;
      assert Occurrences(tokens, t, from) == if tokens[|tokens| - 1] == t then ps + [last] else ps;
      forall i | 0 <= i < |ps| ensures ps[i] < last {
        assert ps[i] in ps;
      }
      forall p: nat ensures p in Occurrences(tokens, t, from) <==> from <= p < from + |tokens| && tokens[p - from] == t {
        assert p in ps + [last] <==> p in ps || p == last;
        assert from <= p < last ==> before[p - from] == tokens[p - from];
      }
    }
  }

  /** Without repeated names, the positions under a name are those of the one field that has it. */
  lemma {:induction false} OneField(fields: seq<Field>, q: nat, t: string, analyze: string -> seq<string>)
    requires DistinctNames(fields) && q < |fields|
    ensures PositionsIn(fields, fields[q].name, t, analyze) == FieldPositions(fields[q], t, analyze)
    ensures LengthIn(fields, fields[q].name, analyze)
         == if Tokens(fields[q], analyze) == [] then None else Some(|Tokens(fields[q], analyze)|)
  {
    hide FieldPositions, Tokens;
    var before := fields[..|fields| - 1];
    if q < |fields| - 1 {
      assert before[q] == fields[q];
      OneField(before, q, t, analyze);
    } else {
      UnseenEmpty(before, fields[q].name, t, analyze);
    }
  }

  /** The `p`-th token of the field is `t` (counted from one in a text; a keyword is one token at zero). */
  predicate TokenAt(f: Field, p: nat, t: string, analyze: string -> seq<string>) {
    var tokens, first := Tokens(f, analyze), FirstPosition(f);
    first <= p < first + |tokens| && tokens[p - first] == t
  }

  /** The inverted terms list position `p` of `text` in field `num` of document `d`. */
  ghost predicate Listed(terms: seq<TermDictWriter.Term>, num: nat, text: string, d: nat, p: nat) {
    exists i, j | 0 <= i < |terms| && 0 <= j < |terms[i].docs| ::
      terms[i].fieldNum == num && terms[i].text == text && terms[i].docs[j].doc == d && p in terms[i].docs[j].positions
  }

  /** `ps` lists each document below `n` that holds the term, once, in ascending order, with its positions. */
  ghost predicate ListsDocs(ps: seq<Postings.Posting>, docs: seq<Doc>, n: nat, name: string, t: string, analyze: string -> seq<string>)
    requires n <= |docs|
  {
    && (forall i, j | 0 <= i < j < |ps| :: ps[i].doc < ps[j].doc)
    && (forall i | 0 <= i < |ps| ::
          ps[i].doc < n && ps[i].positions == PositionsIn(docs[ps[i].doc].fields, name, t, analyze) != [])
    && (forall d | 0 <= d < n && PositionsIn(docs[d].fields, name, t, analyze) != [] :: exists i | 0 <= i < |ps| :: ps[i].doc == d)
  }

  lemma {:induction false} PostingsExact(docs: seq<Doc>, n: nat, name: string, t: string, analyze: string -> seq<string>)
    requires n <= |docs|
    ensures ListsDocs(PostingsOf(docs, n, name, t, analyze), docs, n, name, t, analyze)
  {
    hide PositionsIn, ListsDocs;
    if n == 0 {
      NoDocs(docs, name, t, analyze);
    } else {
      PostingsExact(docs, n - 1, name, t, analyze);
      var before, ps := PostingsOf(docs, n - 1, name, t, analyze), PositionsIn(docs[n - 1].fields, name, t, analyze);
      if ps == [] {
        assert before + [] == before;
      }
      OneDocMore(before, docs, n - 1, name, t, analyze);
    }
  }

  lemma {:induction false} NoDocs(docs: seq<Doc>, name: string, t: string, analyze: string -> seq<string>)
    ensures ListsDocs([], docs, 0, name, t, analyze)
  {
  }

  lemma {:induction false} OneDocMore(before: seq<Postings.Posting>, docs: seq<Doc>, n: nat, name: string, t: string, analyze: string -> seq<string>)
    requires n < |docs| && ListsDocs(before, docs, n, name, t, analyze)
    ensures var ps := PositionsIn(docs[n].fields, name, t, analyze);
            ListsDocs(if ps == [] then before else before + [Postings.Posting(n, ps)], docs, n + 1, name, t, analyze)
  {
    hide PositionsIn;
    var ps := PositionsIn(docs[n].fields, name, t, analyze);
    var all := if ps == [] then before else before + [Postings.Posting(n, ps)];
    forall d | 0 <= d < n + 1 && PositionsIn(docs[d].fields, name, t, analyze) != []
      ensures exists i | 0 <= i < |all| :: all[i].doc == d
    {
      if d < n {
        var i :| 0 <= i < |before| && before[i].doc == d;
        assert all[i].doc == d;
      } else {
        assert all[|before|].doc == d;
      }
    }
  }

  /** Inversion loses and invents nothing: position `p` is listed for a term of a field in a document
      exactly when the field's token there is that term. */
  lemma {:induction false} InversionExact(inv: Inverted, docs: seq<Doc>, analyze: string -> seq<string>, d: nat, q: nat, num: nat, text: string, p: nat)
    requires Inverts(inv, docs, analyze) && AllDistinct(docs)
    requires d < |docs| && q < |docs[d].fields| && num < |inv.fields| && inv.fields[num].name == docs[d].fields[q].name
    ensures Listed(inv.terms, num, text, d, p) <==> TokenAt(docs[d].fields[q], p, text, analyze)
  {
    hide Inverts, TermsAre, PostingsOf, PositionsIn, Occurrences, Tokens, FirstPosition;
    var f, terms := docs[d].fields[q], inv.terms;
    var ps := PositionsIn(docs[d].fields, f.name, text, analyze);
    OneField(docs[d].fields, q, text, analyze);
    OccurrencesExact(Tokens(f, analyze), text, FirstPosition(f));
    assert p in ps <==> TokenAt(f, p, text, analyze);
    if p in ps {
      var i, j := Found(inv, docs, analyze, num, text, d);
      assert terms[i].docs[j].positions == ps;
    }
    if Listed(terms, num, text, d, p) {
      var i, j :| 0 <= i < |terms| && 0 <= j < |terms[i].docs|
               && terms[i].fieldNum == num && terms[i].text == text && terms[i].docs[j].doc == d && p in terms[i].docs[j].positions;
      ListedPostings(inv, docs, analyze, i);
      PostingsExact(docs, |docs|, f.name, text, analyze);
    }
  }

  lemma {:induction false} ListedPostings(inv: Inverted, docs: seq<Doc>, analyze: string -> seq<string>, i: nat)
    requires Inverts(inv, docs, analyze) && i < |inv.terms|
    ensures var t := inv.terms[i];
            && t.fieldNum < |inv.fields| && t.docs != []
            && t.docs == PostingsOf(docs, |docs|, inv.fields[t.fieldNum].name, t.text, analyze)
  {
    hide PostingsOf, NormsAre, StoredHold, FirstSeen, IsIndexed;
  }

  /** Where the terms list a document that holds `text`. */
  lemma {:induction false} Found(inv: Inverted, docs: seq<Doc>, analyze: string -> seq<string>, num: nat, text: string, d: nat) returns (i: nat, j: nat)
    requires Inverts(inv, docs, analyze) && d < |docs| && num < |inv.fields|
    requires PositionsIn(docs[d].fields, inv.fields[num].name, text, analyze) != []
    ensures i < |inv.terms| && inv.terms[i].fieldNum == num && inv.terms[i].text == text
    ensures j < |inv.terms[i].docs| && inv.terms[i].docs[j].doc == d
    ensures inv.terms[i].docs[j].positions == PositionsIn(docs[d].fields, inv.fields[num].name, text, analyze)
  {
    hide PositionsIn, PostingsOf, NormsAre, StoredHold, FirstSeen, IsIndexed;
    var name := inv.fields[num].name;
    PostingsNonEmpty(docs, |docs|, name, text, analyze);
    assert PostingsOf(docs, |docs|, Names(inv.fields)[num], text, analyze) != [];
    i :| 0 <= i < |inv.terms| && inv.terms[i].fieldNum == num && inv.terms[i].text == text;
    PostingsExact(docs, |docs|, name, text, analyze);
    j :| 0 <= j < |inv.terms[i].docs| && inv.terms[i].docs[j].doc == d;
  }

  // ----- frequencies add up to the norm length -----

  function FreqIn(ps: seq<Postings.Posting>, d: nat): nat {
    if ps == [] then 0
    else FreqIn(ps[..|ps| - 1], d) + (if ps[|ps| - 1].doc == d then |ps[|ps| - 1].positions| else 0)
  }

  /** Frequencies in document `d`, over all terms of field `num`. */
  function FreqSum(terms: seq<TermDictWriter.Term>, num: nat, d: nat): nat {
    if terms == [] then 0
    else
      var last := terms[|terms| - 1];
      FreqSum(terms[..|terms| - 1], num, d) + (if last.fieldNum == num then FreqIn(last.docs, d) else 0)
  }

  lemma {:induction false} FreqInStep(before: seq<Postings.Posting>, p: Postings.Posting, d: nat)
    ensures FreqIn(before + [p], d) == FreqIn(before, d) + if p.doc == d then |p.positions| else 0
  {
    assert (before + [p])[..|before|] == before;
  }

  lemma {:induction false} PostingsStep(docs: seq<Doc>, n: nat, name: string, t: string, analyze: string -> seq<string>)
    requires 0 < n <= |docs|
    ensures var before, ps := PostingsOf(docs, n - 1, name, t, analyze), PositionsIn(docs[n - 1].fields, name, t, analyze);
            PostingsOf(docs, n, name, t, analyze) == if ps == [] then before else before + [Postings.Posting(n - 1, ps)]
  {
    hide PositionsIn;
    assert PostingsOf(docs, n - 1, name, t, analyze) + [] == PostingsOf(docs, n - 1, name, t, analyze);
  }

  lemma {:induction false} FreqInIs(docs: seq<Doc>, n: nat, name: string, t: string, analyze: string -> seq<string>, d: nat)
    requires n <= |docs| && d < |docs|
    ensures FreqIn(PostingsOf(docs, n, name, t, analyze), d) == if d < n then |PositionsIn(docs[d].fields, name, t, analyze)| else 0
  {
    hide PositionsIn, FreqIn, PostingsOf;
    if n == 0 {
      NoFreqIn(docs, name, t, analyze, d);
    } else {
      FreqInNext(docs, n, name, t, analyze, d);
      FreqInIs(docs, n - 1, name, t, analyze, d);
    }
  }

  lemma {:induction false} NoFreqIn(docs: seq<Doc>, name: string, t: string, analyze: string -> seq<string>, d: nat)
    ensures FreqIn(PostingsOf(docs, 0, name, t, analyze), d) == 0
  {
    hide PositionsIn;
  }

  lemma {:induction false} FreqInNext(docs: seq<Doc>, n: nat, name: string, t: string, analyze: string -> seq<string>, d: nat)
    requires 0 < n <= |docs|
    ensures FreqIn(PostingsOf(docs, n, name, t, analyze), d)
         == FreqIn(PostingsOf(docs, n - 1, name, t, analyze), d)
          + if d == n - 1 then |PositionsIn(docs[n - 1].fields, name, t, analyze)| else 0
  {
    hide PositionsIn, FreqIn, PostingsOf;
    PostingsStep(docs, n, name, t, analyze);
    FreqInStep(PostingsOf(docs, n - 1, name, t, analyze), Postings.Posting(n - 1, PositionsIn(docs[n - 1].fields, name, t, analyze)), d);
  }

  function Count(terms: seq<TermDictWriter.Term>, num: nat, text: string): nat {
    if terms == [] then 0
    else
      var last := terms[|terms| - 1];
      Count(terms[..|terms| - 1], num, text) + (if last.fieldNum == num && last.text == text then 1 else 0)
  }

  /** Occurrences in `tokens` of the terms of field `num`. */
  function OccurrenceSum(terms: seq<TermDictWriter.Term>, num: nat, tokens: seq<string>, from: nat): nat {
    if terms == [] then 0
    else
      var last := terms[|terms| - 1];
      OccurrenceSum(terms[..|terms| - 1], num, tokens, from)
      + (if last.fieldNum == num then |Occurrences(tokens, last.text, from)| else 0)
  }

  ghost predicate IsTerm(terms: seq<TermDictWriter.Term>, num: nat, text: string) {
    exists i | 0 <= i < |terms| :: terms[i].fieldNum == num && terms[i].text == text
  }

  ghost predicate TermsDiffer(terms: seq<TermDictWriter.Term>) {
    forall i, j | 0 <= i < j < |terms| :: terms[i].fieldNum != terms[j].fieldNum || terms[i].text != terms[j].text
  }

  lemma {:induction false} CountedOnce(terms: seq<TermDictWriter.Term>, num: nat, text: string)
    requires TermsDiffer(terms)
    ensures Count(terms, num, text) == if IsTerm(terms, num, text) then 1 else 0
  {
    if terms != [] {
      CountedOnce(terms[..|terms| - 1], num, text);
      if i :| 0 <= i < |terms| - 1 && terms[i].fieldNum == num && terms[i].text == text {
        assert terms[..|terms| - 1][i] == terms[i];
      }
    }
  }

  lemma {:induction false} NoOccurrences(terms: seq<TermDictWriter.Term>, num: nat, from: nat)
    ensures OccurrenceSum(terms, num, [], from) == 0
  {
    if terms != [] {
      NoOccurrences(terms[..|terms| - 1], num, from);
    }
  }

  lemma {:induction false} OneTokenMore(terms: seq<TermDictWriter.Term>, num: nat, tokens: seq<string>, from: nat)
    requires tokens != []
    ensures OccurrenceSum(terms, num, tokens, from)
         == OccurrenceSum(terms, num, tokens[..|tokens| - 1], from) + Count(terms, num, tokens[|tokens| - 1])
  {
    if terms != [] {
      OneTokenMore(terms[..|terms| - 1], num, tokens, from);
    }
  }

  /** When every token is some term, and terms do not repeat, each token is counted once. */
  lemma {:induction false} EachTokenOnce(terms: seq<TermDictWriter.Term>, num: nat, tokens: seq<string>, from: nat)
    requires TermsDiffer(terms)
    requires forall k | 0 <= k < |tokens| :: IsTerm(terms, num, tokens[k])
    ensures OccurrenceSum(terms, num, tokens, from) == |tokens|
  {
    hide TermsDiffer, OccurrenceSum, IsTerm;
    if tokens == [] {
      NoOccurrences(terms, num, from);
    } else {
      var before, last := tokens[..|tokens| - 1], tokens[|tokens| - 1];
      forall k | 0 <= k < |before| ensures IsTerm(terms, num, before[k]) {
        assert before[k] == tokens[k];
      }
      EachTokenOnce(terms, num, before, from);
      OneTokenMore(terms, num, tokens, from);
      CountedOnce(terms, num, last);
    }
  }

  lemma {:induction false} TermsDoDiffer(inv: Inverted, docs: seq<Doc>, analyze: string -> seq<string>)
    requires Inverts(inv, docs, analyze)
    ensures TermsDiffer(inv.terms)
  {
    hide PostingsOf, NormsAre, StoredHold, FirstSeen, IsIndexed, KeyLess;
    var names := Names(inv.fields);
    forall i, j | 0 <= i < j < |inv.terms|
      ensures inv.terms[i].fieldNum != inv.terms[j].fieldNum || inv.terms[i].text != inv.terms[j].text
    {
      assert TermOrder(names)(inv.terms[i], inv.terms[j]);
      KeyAsymmetric(KeyOf(names, inv.terms[i]), KeyOf(names, inv.terms[j]));
    }
  }

  /** Over any of the terms, frequencies in `d` are occurrences in the tokens of the field called that. */
  lemma {:induction false} FreqsAre(inv: Inverted, docs: seq<Doc>, analyze: string -> seq<string>, num: nat, d: nat, q: nat, n: nat)
    requires Inverts(inv, docs, analyze) && AllDistinct(docs) && n <= |inv.terms|
    requires d < |docs| && q < |docs[d].fields| && num < |inv.fields| && inv.fields[num].name == docs[d].fields[q].name
    ensures var f := docs[d].fields[q];
            FreqSum(inv.terms[..n], num, d) == OccurrenceSum(inv.terms[..n], num, Tokens(f, analyze), FirstPosition(f))
    decreases n
  {
    hide Inverts, PostingsOf, PositionsIn, Occurrences, Tokens, FirstPosition, FreqIn;
    if n > 0 {
      FreqsAre(inv, docs, analyze, num, d, q, n - 1);
      assert inv.terms[..n][..n - 1] == inv.terms[..n - 1];
      var t := inv.terms[n - 1];
      if t.fieldNum == num {
        ListedPostings(inv, docs, analyze, n - 1);
        FreqInIs(docs, |docs|, inv.fields[num].name, t.text, analyze, d);
        OneField(docs[d].fields, q, t.text, analyze);
      }
    }
  }

  lemma {:induction false} NoFreqs(inv: Inverted, docs: seq<Doc>, analyze: string -> seq<string>, num: nat, d: nat, n: nat)
    requires Inverts(inv, docs, analyze) && n <= |inv.terms|
    requires d < |docs| && num < |inv.fields|
    requires forall q | 0 <= q < |docs[d].fields| :: docs[d].fields[q].name != inv.fields[num].name
    ensures FreqSum(inv.terms[..n], num, d) == 0
    decreases n
  {
    hide Inverts, PostingsOf, PositionsIn, FreqIn, LengthIn;
    if n > 0 {
      NoFreqs(inv, docs, analyze, num, d, n - 1);
      assert inv.terms[..n][..n - 1] == inv.terms[..n - 1];
      var t := inv.terms[n - 1];
      if t.fieldNum == num {
        ListedPostings(inv, docs, analyze, n - 1);
        FreqInIs(docs, |docs|, inv.fields[num].name, t.text, analyze, d);
        UnseenEmpty(docs[d].fields, inv.fields[num].name, t.text, analyze);
      }
    }
  }

  /** Each token of a field is a term of it. */
  lemma {:induction false} TokensAreTerms(inv: Inverted, docs: seq<Doc>, analyze: string -> seq<string>, num: nat, d: nat, q: nat)
    requires Inverts(inv, docs, analyze) && AllDistinct(docs)
    requires d < |docs| && q < |docs[d].fields| && num < |inv.fields| && inv.fields[num].name == docs[d].fields[q].name
    ensures var tokens := Tokens(docs[d].fields[q], analyze);
            forall k | 0 <= k < |tokens| :: IsTerm(inv.terms, num, tokens[k])
  {
    hide Inverts, PostingsOf, PositionsIn, Occurrences, Tokens, FirstPosition;
    var f := docs[d].fields[q];
    var tokens := Tokens(f, analyze);
    forall k | 0 <= k < |tokens| ensures IsTerm(inv.terms, num, tokens[k]) {
      OneField(docs[d].fields, q, tokens[k], analyze);
      OccurrencesExact(tokens, tokens[k], FirstPosition(f));
      assert FirstPosition(f) + k in Occurrences(tokens, tokens[k], FirstPosition(f)) by {
        assert tokens[FirstPosition(f) + k - FirstPosition(f)] == tokens[k];
      }
      var i, j := Found(inv, docs, analyze, num, tokens[k], d);
    }
  }

  /** Term frequencies over a field of a document sum to its norm length; a sum of zero has no norm. */
  lemma {:induction false} FrequenciesSumToNorm(inv: Inverted, docs: seq<Doc>, analyze: string -> seq<string>, num: nat, d: nat)
    requires Inverts(inv, docs, analyze) && AllDistinct(docs)
    requires d < |docs| && num < |inv.fields| && inv.fields[num].indexed
    ensures |inv.normLengths| == |inv.fields| && |inv.normLengths[num]| == |docs|
    ensures var sum := FreqSum(inv.terms, num, d);
            inv.normLengths[num][d] == if sum == 0 then None else Some(sum)
  {
    hide Inverts, LengthIn, Tokens, FirstPosition, FreqSum, OccurrenceSum;
    var name := inv.fields[num].name;
    assert inv.terms[..|inv.terms|] == inv.terms;
    NormIs(inv, docs, analyze, num, d);
    if q: nat :| q < |docs[d].fields| && docs[d].fields[q].name == name {
      var f := docs[d].fields[q];
      OneField(docs[d].fields, q, "", analyze);
      FreqsAre(inv, docs, analyze, num, d, q, |inv.terms|);
      TermsDoDiffer(inv, docs, analyze);
      TokensAreTerms(inv, docs, analyze, num, d, q);
      EachTokenOnce(inv.terms, num, Tokens(f, analyze), FirstPosition(f));
    } else {
      NoFreqs(inv, docs, analyze, num, d, |inv.terms|);
      UnseenEmpty(docs[d].fields, name, "", analyze);
    }
  }

  lemma {:induction false} NormIs(inv: Inverted, docs: seq<Doc>, analyze: string -> seq<string>, num: nat, d: nat)
    requires Inverts(inv, docs, analyze) && d < |docs| && num < |inv.fields| && inv.fields[num].indexed
    ensures |inv.normLengths| == |inv.fields| && |inv.normLengths[num]| == |docs|
    ensures inv.normLengths[num][d] == LengthIn(docs[d].fields, inv.fields[num].name, analyze)
  {
    hide TermsAre, StoredHold, FirstSeen, IsIndexed, LengthIn;
  }

  // ----- the inverted terms are what the writer takes -----

  /** Counts within the format's 32-bit fields. */
  predicate Moderate(docs: seq<Doc>, analyze: string -> seq<string>) {
    && |docs| < U32
    && forall d, q | 0 <= d < |docs| && 0 <= q < |docs[d].fields| :: |Tokens(docs[d].fields[q], analyze)| < U32
  }

  ghost predicate NoEmptyTokens(analyze: string -> seq<string>) {
    forall s, k | 0 <= k < |analyze(s)| :: analyze(s)[k] != ""
  }

  lemma {:induction false} AscendingWhen(prev: nat, ps: seq<nat>)
    requires StrictlyAscends(ps) && forall i | 0 <= i < |ps| :: prev <= ps[i] < U32
    ensures Postings.Ascending(prev, ps)
    decreases ps
  {
    if ps != [] {
      AscendingWhen(ps[0], ps[1..]);
    }
  }

  lemma {:induction false} EncodableWhen(prev: nat, ps: seq<Postings.Posting>)
    requires forall i, j | 0 <= i < j < |ps| :: ps[i].doc < ps[j].doc
    requires forall i | 0 <= i < |ps| ::
               prev <= ps[i].doc < U32 && 0 < |ps[i].positions| < U32 && Postings.Ascending(0, ps[i].positions)
    ensures Postings.Encodable(prev, ps)
    decreases ps
  {
    hide Postings.Ascending;
    if ps != [] {
      EncodableWhen(ps[0].doc, ps[1..]);
    }
  }

  lemma {:induction false} PositionsEncodable(docs: seq<Doc>, d: nat, name: string, t: string, analyze: string -> seq<string>)
    requires AllDistinct(docs) && Moderate(docs, analyze) && d < |docs|
    ensures var ps := PositionsIn(docs[d].fields, name, t, analyze);
            |ps| < U32 && Postings.Ascending(0, ps)
  {
    hide PositionsIn, Occurrences, Tokens, LengthIn, Postings.Ascending;
    if q: nat :| q < |docs[d].fields| && docs[d].fields[q].name == name {
      var f := docs[d].fields[q];
      var ps := PositionsIn(docs[d].fields, name, t, analyze);
      OneField(docs[d].fields, q, t, analyze);
      OccurrencesExact(Tokens(f, analyze), t, FirstPosition(f));
      forall i | 0 <= i < |ps| ensures 0 <= ps[i] < U32 {
        assert ps[i] in ps;
        assert |Tokens(f, analyze)| < U32;
      }
      AscendingWhen(0, ps);
    } else {
      UnseenEmpty(docs[d].fields, name, t, analyze);
      AscendingWhen(0, []);
    }
  }

  lemma {:induction false} InvertedEncodable(inv: Inverted, docs: seq<Doc>, analyze: string -> seq<string>)
    requires Inverts(inv, docs, analyze) && AllDistinct(docs) && Moderate(docs, analyze)
    ensures TermDictWriter.Encodables(inv.terms)
  {
    hide Inverts, PositionsIn, PostingsOf, AllDistinct, Moderate, Postings.Ascending, Postings.Encodable;
    forall i | 0 <= i < |inv.terms| ensures Postings.Encodable(0, inv.terms[i].docs) {
      var t := inv.terms[i];
      ListedPostings(inv, docs, analyze, i);
      var name := inv.fields[t.fieldNum].name;
      PostingsExact(docs, |docs|, name, t.text, analyze);
      forall j | 0 <= j < |t.docs| ensures t.docs[j].doc < U32 && 0 < |t.docs[j].positions| < U32 && Postings.Ascending(0, t.docs[j].positions) {
        PositionsEncodable(docs, t.docs[j].doc, name, t.text, analyze);
        assert |docs| < U32 by { ModerateDocs(docs, analyze); }
      }
      EncodableWhen(0, t.docs);
    }
  }

  lemma {:induction false} ModerateDocs(docs: seq<Doc>, analyze: string -> seq<string>)
    requires Moderate(docs, analyze)
    ensures |docs| < U32
  {
  }

  lemma {:induction false} SomeMember(ps: seq<nat>)
    requires ps != []
    ensures exists p: nat :: p in ps
  {
    assert ps[0] in ps;
  }

  lemma {:induction false} EmptyTextNowhere(fields: seq<Field>, name: string, analyze: string -> seq<string>)
    requires NoEmptyTokens(analyze)
    ensures PositionsIn(fields, name, "", analyze) == []
  {
    hide Occurrences;
    if fields != [] {
      var f := fields[|fields| - 1];
      EmptyTextNowhere(fields[..|fields| - 1], name, analyze);
      var ps := FieldPositions(f, "", analyze);
      OccurrencesExact(Tokens(f, analyze), "", FirstPosition(f));
      assert forall p: nat :: p !in ps;
      if ps != [] {
        SomeMember(ps);
      }
    }
  }

  /** The dictionary's entries are well formed: canonical order, no empty text. */
  lemma {:induction false} EntriesWellFormed(inv: Inverted, docs: seq<Doc>, analyze: string -> seq<string>)
    requires Inverts(inv, docs, analyze) && NoEmptyTokens(analyze) && TermDictWriter.Encodables(inv.terms)
    ensures TermDict.WellFormed(TermDictWriter.Entries(TermDictWriter.Recs(inv.terms), Names(inv.fields)))
  {
    hide PositionsIn, PostingsOf, NormsAre, StoredHold, FirstSeen, IsIndexed, KeyLess, NoEmptyTokens,
         TermDictWriter.FrqFile, TermDictWriter.PrxFile, Postings.Encodable;
    var names := Names(inv.fields);
    var es := TermDictWriter.Entries(TermDictWriter.Recs(inv.terms), names);
    forall i, j | 0 <= i < j < |es| ensures KeyLess(es[i].Key(), es[j].Key()) {
      assert TermOrder(names)(inv.terms[i], inv.terms[j]);
    }
    forall i | 0 <= i < |es| ensures es[i].text != "" {
      var t := inv.terms[i];
      if t.text == "" {
        PostingsNonEmpty(docs, |docs|, names[t.fieldNum], "", analyze);
        var d :| 0 <= d < |docs| && PositionsIn(docs[d].fields, names[t.fieldNum], "", analyze) != [];
        EmptyTextNowhere(docs[d].fields, names[t.fieldNum], analyze);
        assert false;
      }
    }
  }

  lemma {:induction false} LookupFinds(es: seq<TermDict.Entry>, i: nat)
    requires TermDict.Sorted(es) && i < |es|
    ensures TermDict.Lookup(es, es[i].Key()) == Some(es[i].info)
  {
    hide KeyLess;
    if i > 0 {
      KeyAsymmetric(es[0].Key(), es[i].Key());
      LookupFinds(es[1..], i - 1);
    }
  }

  /** What looking `text` up in field `num` of the written files finds. */
  lemma {:induction false} LookupWritten(inv: Inverted, docs: seq<Doc>, analyze: string -> seq<string>, num: nat, text: string)
    requires Inverts(inv, docs, analyze) && TermDictWriter.Encodables(inv.terms) && num < |inv.fields|
    requires TermDict.WellFormed(TermDictWriter.Entries(TermDictWriter.Recs(inv.terms), Names(inv.fields)))
    ensures var es := TermDictWriter.Entries(TermDictWriter.Recs(inv.terms), Names(inv.fields));
            var r, ps := TermDict.Lookup(es, Key(inv.fields[num].name, text)), PostingsOf(docs, |docs|, inv.fields[num].name, text, analyze);
            && (ps == [] ==> r == None)
            && (ps != [] ==> exists i | 0 <= i < |inv.terms| :: r == Some(es[i].info) && inv.terms[i].docs == ps)
  {
    hide PostingsOf, NormsAre, StoredHold, IsIndexed, KeyLess, TermDict.Lookup, TermDictWriter.FrqFile, TermDictWriter.PrxFile, Postings.Encodable;
    var names, terms := Names(inv.fields), inv.terms;
    var es := TermDictWriter.Entries(TermDictWriter.Recs(terms), names);
    var key, ps := Key(inv.fields[num].name, text), PostingsOf(docs, |docs|, names[num], text, analyze);
    if ps != [] {
      var i :| 0 <= i < |terms| && terms[i].fieldNum == num && terms[i].text == text;
      assert es[i].Key() == key;
      LookupFinds(es, i);
    } else {
      forall i | 0 <= i < |es| ensures es[i].Key() != key {
        assert terms[i].docs == PostingsOf(docs, |docs|, names[terms[i].fieldNum], terms[i].text, analyze);
      }
      TermDict.LookupAbsent(es, key);
    }
  }

  /** A name no document has is no entry's either. */
  lemma {:induction false} LookupUnnamed(inv: Inverted, docs: seq<Doc>, analyze: string -> seq<string>, name: string, text: string)
    requires Inverts(inv, docs, analyze) && TermDictWriter.Encodables(inv.terms)
    requires forall num | 0 <= num < |inv.fields| :: inv.fields[num].name != name
    ensures TermDict.Lookup(TermDictWriter.Entries(TermDictWriter.Recs(inv.terms), Names(inv.fields)), Key(name, text)) == None
    ensures PostingsOf(docs, |docs|, name, text, analyze) == []
  {
    hide NormsAre, StoredHold, IsIndexed, TermDict.Lookup, PostingsOf, PositionsIn, TermDictWriter.Encodables;
    var es := TermDictWriter.Entries(TermDictWriter.Recs(inv.terms), Names(inv.fields));
    forall i | 0 <= i < |es| ensures es[i].Key() != Key(name, text) {
      assert inv.terms[i].fieldNum < |inv.fields|;
    }
    TermDict.LookupAbsent(es, Key(name, text));
    forall d | 0 <= d < |docs| ensures PositionsIn(docs[d].fields, name, text, analyze) == [] {
      forall q | 0 <= q < |docs[d].fields| ensures docs[d].fields[q].name != name {
        InFlattened(docs, d, q);
        assert docs[d].fields[q].name in FirstSeen(Flatten(docs));
      }
      UnseenEmpty(docs[d].fields, name, text, analyze);
    }
    PostingsNonEmpty(docs, |docs|, name, text, analyze);
  }

  /** From documents to bytes and back: the files written from an inversion open, are valid for every
      lazy query, and looking a term up finds it exactly when some document holds it, with pointers
      that decode to exactly its documents and positions. */
  lemma {:induction false} IndexRoundTrip(inv: Inverted, docs: seq<Doc>, analyze: string -> seq<string>)
    requires Inverts(inv, docs, analyze) && AllDistinct(docs) && Moderate(docs, analyze) && NoEmptyTokens(analyze)
    requires TermDictWriter.Encodables(inv.terms) ==>
               TermDictWriter.Writable(inv.terms) && |TermDictWriter.Files(inv.terms).tis| < U64
    ensures TermDictWriter.Writable(inv.terms)
    ensures var f := TermDictWriter.Files(inv.terms);
            var r := TermDict.Opened(f.tis, f.tii, Names(inv.fields));
            && r.Success? && r.value.Valid()
            && forall name: string, text: string ::
                 Answers(TermDict.Lookup(r.value.All(), Key(name, text)), f, PostingsOf(docs, |docs|, name, text, analyze))
  {
    hide Inverts, PostingsOf, AllDistinct, Moderate, NoEmptyTokens, Names, TermDictWriter.Encodables, TermDictWriter.Writable,
         TermDictWriter.Files, TermDict.Opened, TermDict.Lookup, TermDict.WellFormed, TermDict.Dict.Valid, Postings.TermPostings;
    InvertedEncodable(inv, docs, analyze);
    EntriesWellFormed(inv, docs, analyze);
    TermDictWriter.FilesRoundTrip(inv.terms, Names(inv.fields));
    var f := TermDictWriter.Files(inv.terms);
    forall name: string, text: string
      ensures Answers(TermDict.Lookup(TermDict.Opened(f.tis, f.tii, Names(inv.fields)).value.All(), Key(name, text)), f,
                      PostingsOf(docs, |docs|, name, text, analyze))
    {
      if num: nat :| num < |inv.fields| && inv.fields[num].name == name {
        LookupWritten(inv, docs, analyze, num, text);
      } else {
        LookupUnnamed(inv, docs, analyze, name, text);
      }
    }
  }

  /** A lookup's result names `ps`, or is nothing when `ps` is empty. */
  predicate Answers(r: Option<Postings.TermInfo>, f: TermDictWriter.DictFiles, ps: seq<Postings.Posting>) {
    if ps == [] then r == None
    else r.Some? && Postings.TermPostings(f.frq, f.prx, r.value) == Scan(ps, None)
  }
}
