/** A field's sort table, from the documents: which documents make a segment offer one, and for which
    it says what their stored values say. */
module SortDocuments {
  import opened Wrappers
  import opened Lex
  import opened Ranking
  import opened SortTables
  import opened Inverter
  import opened RoundTrip
  import opened WrittenIndex
  import Bytes
  import Postings
  import Stored
  import TermDict

  // ----- read off a document, before it is indexed -----

  /** The first stored value under the name. */
  function FirstStored(fields: seq<Field>, name: string): Option<string> {
    if fields == [] then None
    else if fields[0].stored && fields[0].name == name then Some(fields[0].value)
    else FirstStored(fields[1..], name)
  }

  ghost predicate HasToken(doc: Doc, name: string, t: string, analyze: string -> seq<string>) {
    exists q | 0 <= q < |doc.fields| :: doc.fields[q].name == name && t in Tokens(doc.fields[q], analyze)
  }

  /** The document's tokens in the field say what its first stored value says: there are none exactly
      when nothing is stored, and one is worth a number exactly when the value is. */
  ghost predicate TokensSay(doc: Doc, name: string, analyze: string -> seq<string>, parse: string -> Option<int>) {
    var value := FirstStored(doc.fields, name);
    && (value.None? <==> forall t: string :: !HasToken(doc, name, t, analyze))
    && forall v: int :: value.Some? && parse(value.value) == Some(v) <==> exists t: string :: HasToken(doc, name, t, analyze) && parse(t) == Some(v)
  }

  ghost predicate Named(docs: seq<Doc>, name: string) {
    exists q | 0 <= q < |Flatten(docs)| :: Flatten(docs)[q].name == name
  }

  /** Every token of the field is a number. */
  ghost predicate NumericTokens(docs: seq<Doc>, name: string, analyze: string -> seq<string>, parse: string -> Option<int>) {
    forall d: nat, t: string | d < |docs| && HasToken(docs[d], name, t, analyze) :: parse(t).Some?
  }

  /** No document has two tokens in the field. */
  ghost predicate SingleTokens(docs: seq<Doc>, name: string, analyze: string -> seq<string>) {
    forall d: nat, t: string, u: string | d < |docs| && HasToken(docs[d], name, t, analyze) && HasToken(docs[d], name, u, analyze) :: t == u
  }

  /** No document has the field; or it is indexed, every token of it is a number, and no document has two. */
  ghost predicate Offers(docs: seq<Doc>, name: string, analyze: string -> seq<string>, parse: string -> Option<int>) {
    || !Named(docs, name)
    || (IsIndexed(Flatten(docs), name) && NumericTokens(docs, name, analyze, parse) && SingleTokens(docs, name, analyze))
  }

  lemma {:induction false} TokenPositions(fields: seq<Field>, name: string, t: string, analyze: string -> seq<string>)
    ensures PositionsIn(fields, name, t, analyze) != [] <==> HasToken(Doc(fields), name, t, analyze)
  {
    hide Tokens, FieldPositions;
    if fields != [] {
      var n := |fields| - 1;
      TokenPositions(fields[..n], name, t, analyze);
      FieldHas(fields[n], t, analyze);
      if q :| 0 <= q < n && fields[q].name == name && t in Tokens(fields[q], analyze) {
        assert fields[..n][q] == fields[q];
      }
      if q :| 0 <= q < n && fields[..n][q].name == name && t in Tokens(fields[..n][q], analyze) {
        assert fields[..n][q] == fields[q];
      }
    }
  }

  lemma {:induction false} FieldHas(f: Field, t: string, analyze: string -> seq<string>)
    ensures FieldPositions(f, t, analyze) != [] <==> t in Tokens(f, analyze)
  {
    hide Tokens, Occurrences;
    var tokens, from := Tokens(f, analyze), FirstPosition(f);
    OccurrencesExact(tokens, t, from);
    if FieldPositions(f, t, analyze) != [] {
      var p := FieldPositions(f, t, analyze)[0];
      assert p in Occurrences(tokens, t, from);
      assert tokens[p - from] == t;
    }
    if t in tokens {
      var i: nat :| i < |tokens| && tokens[i] == t;
      assert tokens[from + i - from] == t;
      assert from + i in Occurrences(tokens, t, from);
    }
  }

  // ----- the terms a segment reads -----

  /** `terms` are the field's: each once, with the documents that have it, each once. */
  ghost predicate ListsField(terms: seq<TermDocs>, docs: seq<Doc>, name: string, analyze: string -> seq<string>) {
    && (forall i | 0 <= i < |terms| :: terms[i].docs.Some? && terms[i].docs.value != [])
    && (forall i, j | 0 <= i < j < |terms| :: terms[i].text != terms[j].text)
    && (forall i, j, k | 0 <= i < |terms| && 0 <= j < k < |terms[i].docs.value| :: terms[i].docs.value[j] != terms[i].docs.value[k])
    && (forall i: nat, d: nat | i < |terms| :: d in terms[i].docs.value <==> d < |docs| && HasToken(docs[d], name, terms[i].text, analyze))
    && (forall d: nat, t: string | d < |docs| && HasToken(docs[d], name, t, analyze) :: exists i | 0 <= i < |terms| :: terms[i].text == t)
  }

  /** The documents of one entry, by `.frq` alone. */
  function DocsAt(seg: Segment, info: Postings.TermInfo): Option<seq<nat>> {
    match Postings.FreqsAt(seg.files.frq, info.freqPointer, 0, info.docFreq)
    case Failure(_) => None
    case Success(p) => Some(seq(|p.value|, i requires 0 <= i < |p.value| => p.value[i].doc))
  }

  /** `field_terms`, each with the documents `read_freqs` gives. */
  function FieldTerms(seg: Segment, field: string): seq<TermDocs> {
    match TermDict.Opened(seg.files.tis, seg.files.tii, seg.names)
    case Failure(_) => []
    case Success(dict) =>
      var es := TermDict.Select(dict.All(), field, TermDict.Every);
      seq(|es|, i requires 0 <= i < |es| => TermDocs(es[i].text, DocsAt(seg, es[i].info)))
  }

  lemma {:induction false} SelectMembers(es: seq<TermDict.Entry>, field: string)
    requires TermDict.Sorted(es)
    ensures var sel := TermDict.Select(es, field, TermDict.Every);
            && (forall e :: e in sel <==> e in es && e.field == field)
            && forall i, j | 0 <= i < j < |sel| :: sel[i].text != sel[j].text
  {
    hide KeyLess;
    if es != [] {
      SelectMembers(es[1..], field);
      assert es == [es[0]] + es[1..];
      var rest := TermDict.Select(es[1..], field, TermDict.Every);
      forall j | 0 <= j < |rest| && es[0].field == field ensures rest[j].text != es[0].text {
        assert rest[j] in es[1..];
        var k :| 0 <= k < |es[1..]| && es[1..][k] == rest[j];
        assert es[k + 1] == rest[j];
        KeyAsymmetric(es[0].Key(), es[k + 1].Key());
      }
    }
  }

  /** One entry of the written dictionary lists exactly the documents that have its text. */
  lemma {:induction false} EntryLists(seg: Segment, docs: seq<Doc>, analyze: string -> seq<string>, name: string, e: TermDict.Entry)
    requires Written(seg, docs, analyze) && e.field == name
    requires e in TermDict.Opened(seg.files.tis, seg.files.tii, seg.names).value.All()
    ensures var ds := DocsAt(seg, e.info);
            && ds.Some? && ds.value != [] && (forall j, k | 0 <= j < k < |ds.value| :: ds.value[j] != ds.value[k])
            && forall d: nat :: d in ds.value <==> d < |docs| && HasToken(docs[d], name, e.text, analyze)
  {
    hide PostingsOf, PositionsIn, TermDict.Lookup, TermDict.Opened, Postings.PostingsAt, Postings.FreqsAt, Postings.Frequencies, KeyLess, HasToken;
    var all := TermDict.Opened(seg.files.tis, seg.files.tii, seg.names).value.All();
    var k :| 0 <= k < |all| && all[k] == e;
    LookupFinds(all, k);
    var ps := PostingsOf(docs, |docs|, name, e.text, analyze);
    assert Answers(TermDict.Lookup(all, Key(name, e.text)), seg.files, ps);
    Postings.FreqsAgree(seg.files.frq, e.info.freqPointer, seg.files.prx, e.info.proxPointer, 0, e.info.docFreq);
    FrequenciesAt(ps);
    PostingsExact(docs, |docs|, name, e.text, analyze);
    var ds := DocsAt(seg, e.info).value;
    assert |ds| == |ps| && forall j | 0 <= j < |ds| :: ds[j] == ps[j].doc;
    forall d: nat ensures d in ds <==> d < |docs| && HasToken(docs[d], name, e.text, analyze) {
      ListedAt(ps, docs, name, e.text, analyze, d);
      if d < |docs| {
        TokenPositions(docs[d].fields, name, e.text, analyze);
      }
      if i :| 0 <= i < |ps| && ps[i].doc == d {
        assert ds[i] == d;
      }
      if d in ds {
        var i :| 0 <= i < |ds| && ds[i] == d;
        assert ps[i].doc == d;
      }
    }
  }

  /** Every token of the field is an entry of the written dictionary. */
  lemma {:induction false} TokenEntry(seg: Segment, docs: seq<Doc>, analyze: string -> seq<string>, name: string, d: nat, t: string)
    requires Written(seg, docs, analyze) && d < |docs| && HasToken(docs[d], name, t, analyze)
    ensures exists e :: e in TermDict.Opened(seg.files.tis, seg.files.tii, seg.names).value.All() && e.field == name && e.text == t
  {
    hide PostingsOf, PositionsIn, TermDict.Lookup, TermDict.Opened, Postings.TermPostings, HasToken;
    var all := TermDict.Opened(seg.files.tis, seg.files.tii, seg.names).value.All();
    TokenPositions(docs[d].fields, name, t, analyze);
    PostingsNonEmpty(docs, |docs|, name, t, analyze);
    assert Answers(TermDict.Lookup(all, Key(name, t)), seg.files, PostingsOf(docs, |docs|, name, t, analyze));
    if forall i | 0 <= i < |all| :: all[i].Key() != Key(name, t) {
      TermDict.LookupAbsent(all, Key(name, t));
      assert false;
    }
    var i :| 0 <= i < |all| && all[i].Key() == Key(name, t);
    assert all[i] in all;
  }

  /** What is read back from the written files is what the documents have. */
  lemma {:induction false} FieldTermsList(seg: Segment, docs: seq<Doc>, analyze: string -> seq<string>, name: string)
    requires Written(seg, docs, analyze)
    ensures ListsField(FieldTerms(seg, name), docs, name, analyze)
  {
    hide PostingsOf, PositionsIn, TermDict.Lookup, TermDict.Opened, TermDict.Select, HasToken, DocsAt, KeyLess, Answers;
    var all := TermDict.Opened(seg.files.tis, seg.files.tii, seg.names).value.All();
    SelectMembers(all, name);
    var es := TermDict.Select(all, name, TermDict.Every);
    var terms := FieldTerms(seg, name);
    forall i | 0 <= i < |terms|
      ensures terms[i].docs.Some? && terms[i].docs.value != []
      ensures forall j, k | 0 <= j < k < |terms[i].docs.value| :: terms[i].docs.value[j] != terms[i].docs.value[k]
      ensures forall d: nat :: d in terms[i].docs.value <==> d < |docs| && HasToken(docs[d], name, terms[i].text, analyze)
    {
      assert es[i] in es;
      EntryLists(seg, docs, analyze, name, es[i]);
    }
    forall d: nat, t: string | d < |docs| && HasToken(docs[d], name, t, analyze) ensures exists i | 0 <= i < |terms| :: terms[i].text == t {
      TokenEntry(seg, docs, analyze, name, d, t);
      var e :| e in all && e.field == name && e.text == t;
      assert e in es;
      var i :| 0 <= i < |es| && es[i] == e;
      assert terms[i].text == t;
    }
  }

  // ----- the stored values a segment reads -----

  /** `.fdt` entries carry numbers; the first with the field's number is the first stored under its name. */
  lemma {:induction false} StoredIsFirst(stored: seq<StoredField>, fields: seq<Field>, names: seq<string>, num: nat)
    requires num < |names| && forall i, j | 0 <= i < j < |names| :: names[i] != names[j]
    requires |stored| == |Inverter.StoredOnly(fields)| && forall q | 0 <= q < |stored| :: Stores(stored[q], Inverter.StoredOnly(fields)[q], names)
    ensures Stored.FirstNumbered(Stored.AsRead(stored), num) == FirstStored(fields, names[num])
  {
    StoredFirst(fields, names[num]);
    NumberedFirst(stored, Inverter.StoredOnly(fields), names, num);
  }

  lemma {:induction false} NumberedFirst(stored: seq<StoredField>, kept: seq<Field>, names: seq<string>, num: nat)
    requires num < |names| && forall i, j | 0 <= i < j < |names| :: names[i] != names[j]
    requires |stored| == |kept| && forall q | 0 <= q < |stored| :: Stores(stored[q], kept[q], names) && kept[q].stored
    ensures Stored.FirstNumbered(Stored.AsRead(stored), num) == FirstStored(kept, names[num])
  {
    if stored != [] {
      NumberedFirst(stored[1..], kept[1..], names, num);
      assert Stored.AsRead(stored)[1..] == Stored.AsRead(stored[1..]);
    }
  }

  lemma {:induction false} StoredFirst(fields: seq<Field>, name: string)
    ensures FirstStored(fields, name) == FirstStored(Inverter.StoredOnly(fields), name)
    ensures forall q | 0 <= q < |Inverter.StoredOnly(fields)| :: Inverter.StoredOnly(fields)[q].stored
  {
    if fields != [] {
      var n := |fields| - 1;
      StoredFirst(fields[..n], name);
      FirstOfJoined(fields[..n], [fields[n]], name);
      assert fields == fields[..n] + [fields[n]];
      if fields[n].stored {
        FirstOfJoined(Inverter.StoredOnly(fields[..n]), [fields[n]], name);
      } else {
        assert Inverter.StoredOnly(fields[..n]) + [] == Inverter.StoredOnly(fields[..n]);
      }
    }
  }

  lemma {:induction false} FirstOfJoined(a: seq<Field>, b: seq<Field>, name: string)
    ensures FirstStored(a + b, name) == if FirstStored(a, name).Some? then FirstStored(a, name) else FirstStored(b, name)
  {
    if a == [] {
      assert a + b == b;
    } else {
      FirstOfJoined(a[1..], b, name);
      assert (a + b)[1..] == a[1..] + b;
    }
  }

  /** Reading one stored field of a written document gives the first value stored under the field's name. */
  lemma {:induction false} StoredValueRead(inv: Inverted, docs: seq<Doc>, analyze: string -> seq<string>, num: nat, d: nat, lossy: seq<Bytes.Byte> -> string)
    requires Inverts(inv, docs, analyze) && num < |inv.fields| && d < |docs|
    requires |inv.stored| == |docs| && Stored.Fits(inv.stored[d]) && |Stored.FdtBytes(inv.stored)| < Bytes.U64
    ensures Stored.FieldOf(Stored.FieldsAt(Stored.FdxBytes(inv.stored), Stored.FdtBytes(inv.stored), d, lossy), num)
         == Success(FirstStored(docs[d].fields, inv.fields[num].name))
  {
    hide TermsAre, NormsAre, IsIndexed, Stored.FieldsAt, Stored.FdxBytes, Stored.FdtBytes, FirstStored, Stored.FirstNumbered, Stored.Fits;
    Stored.StoredRoundTrip(inv.stored, d, lossy);
    StoredIsFirst(inv.stored[d], docs[d].fields, Names(inv.fields), num);
    assert FieldsOf(docs)[d] == docs[d].fields;
  }

  function StoredValues(docs: seq<Doc>, name: string): (values: seq<Option<string>>)
    ensures |values| == |docs| && forall d | 0 <= d < |docs| :: values[d] == FirstStored(docs[d].fields, name)
  {
    seq(|docs|, d requires 0 <= d < |docs| => FirstStored(docs[d].fields, name))
  }

  // ----- the table of a written segment -----

  lemma {:induction false} TermsAreTokens(terms: seq<TermDocs>, docs: seq<Doc>, name: string, analyze: string -> seq<string>, parse: string -> Option<int>, d: nat)
    requires ListsField(terms, docs, name, analyze) && d < |docs|
    ensures HasTerm(terms, d) <==> exists t: string :: HasToken(docs[d], name, t, analyze)
    ensures forall v: int :: HasNumber(terms, parse, d, v) <==> exists t: string :: HasToken(docs[d], name, t, analyze) && parse(t) == Some(v)
  {
    hide HasToken;
    forall t: string ensures HasToken(docs[d], name, t, analyze) <==> exists i: nat, j: nat :: At(terms, i, j, d) && terms[i].text == t {
      ListedToken(terms, docs, name, analyze, d, t);
    }
    forall v: int ensures HasNumber(terms, parse, d, v) <==> exists t: string :: HasToken(docs[d], name, t, analyze) && parse(t) == Some(v) {
      if HasNumber(terms, parse, d, v) {
        var i: nat, j: nat :| At(terms, i, j, d) && parse(terms[i].text) == Some(v);
        assert HasToken(docs[d], name, terms[i].text, analyze);
      }
      if t: string :| HasToken(docs[d], name, t, analyze) && parse(t) == Some(v) {
        var i: nat, j: nat :| At(terms, i, j, d) && terms[i].text == t;
      }
    }
    if HasTerm(terms, d) {
      var i: nat, j: nat :| At(terms, i, j, d);
      assert HasToken(docs[d], name, terms[i].text, analyze);
    }
  }

  lemma {:induction false} ListedToken(terms: seq<TermDocs>, docs: seq<Doc>, name: string, analyze: string -> seq<string>, d: nat, t: string)
    requires ListsField(terms, docs, name, analyze) && d < |docs|
    ensures HasToken(docs[d], name, t, analyze) <==> exists i: nat, j: nat :: At(terms, i, j, d) && terms[i].text == t
  {
    hide HasToken;
    if HasToken(docs[d], name, t, analyze) {
      var i: nat :| i < |terms| && terms[i].text == t;
      assert d in terms[i].docs.value;
      var j: nat :| j < |terms[i].docs.value| && terms[i].docs.value[j] == d;
      assert At(terms, i, j, d);
    }
    if i: nat, j: nat :| At(terms, i, j, d) && terms[i].text == t {
      assert d in terms[i].docs.value;
    }
  }

  lemma {:induction false} ListedHas(terms: seq<TermDocs>, docs: seq<Doc>, name: string, analyze: string -> seq<string>, i: nat, d: nat)
    requires ListsField(terms, docs, name, analyze) && i < |terms| && d in terms[i].docs.value
    ensures d < |docs| && HasToken(docs[d], name, terms[i].text, analyze)
  {
    hide HasToken;
  }

  lemma {:induction false} NumericTerms(terms: seq<TermDocs>, docs: seq<Doc>, name: string, analyze: string -> seq<string>, parse: string -> Option<int>)
    requires ListsField(terms, docs, name, analyze)
    ensures Numeric(terms, parse, |docs|) <==> NumericTokens(docs, name, analyze, parse)
  {
    hide HasToken;
    forall i: nat, j: nat | i < |terms| && j < |terms[i].docs.value|
      ensures terms[i].docs.value[j] < |docs| && HasToken(docs[terms[i].docs.value[j]], name, terms[i].text, analyze)
    {
      var d: nat := terms[i].docs.value[j];
      ListedHas(terms, docs, name, analyze, i, d);
    }
    if NumericTokens(docs, name, analyze, parse) {
      forall i: nat | i < |terms| ensures parse(terms[i].text).Some? {
        assert HasToken(docs[terms[i].docs.value[0]], name, terms[i].text, analyze);
      }
    }
    if Numeric(terms, parse, |docs|) {
      forall d: nat, t: string | d < |docs| && HasToken(docs[d], name, t, analyze) ensures parse(t).Some? {
        var i: nat :| i < |terms| && terms[i].text == t;
      }
    }
  }

  lemma {:induction false} SingleTerms(terms: seq<TermDocs>, docs: seq<Doc>, name: string, analyze: string -> seq<string>)
    requires ListsField(terms, docs, name, analyze)
    ensures SingleValued(terms) <==> SingleTokens(docs, name, analyze)
  {
    hide HasToken;
    if SingleTokens(docs, name, analyze) {
      forall i: nat, j: nat, k: nat, l: nat, d: nat | At(terms, i, j, d) && At(terms, k, l, d) ensures i == k && j == l {
        ListedHas(terms, docs, name, analyze, i, d);
        ListedHas(terms, docs, name, analyze, k, d);
      }
    }
    if SingleValued(terms) {
      forall d: nat, t: string, u: string | d < |docs| && HasToken(docs[d], name, t, analyze) && HasToken(docs[d], name, u, analyze) ensures t == u {
        ListedToken(terms, docs, name, analyze, d, t);
        ListedToken(terms, docs, name, analyze, d, u);
        var i: nat, j: nat :| At(terms, i, j, d) && terms[i].text == t;
        var k: nat, l: nat :| At(terms, k, l, d) && terms[k].text == u;
      }
    }
  }

  /** On some documents, the table gives the keys their stored values give exactly when the tokens of each
      of them say what its first stored value says. */
  ghost predicate TableSaysWhere(docs: seq<Doc>, name: string, analyze: string -> seq<string>, parse: string -> Option<int>,
                                 table: seq<Option<int>>, totalDocs: nat, ids: set<nat>) {
    SortSource((id: nat) => ValueAt(StoredValues(docs, name), id), Some(table), parse, totalDocs).Agrees(ids)
    <==> forall d | d in ids && d < |docs| :: TokensSay(docs[d], name, analyze, parse)
  }

  /** The sort table of a segment holding these documents: offered exactly as they allow, and then holding
      at each document the number its token is worth. */
  ghost predicate IsTable(r: Option<seq<Option<int>>>, docs: seq<Doc>, name: string, analyze: string -> seq<string>, parse: string -> Option<int>) {
    && (r.Some? <==> Offers(docs, name, analyze, parse))
    && (r.Some? ==>
          && |r.value| == |docs|
          && (forall d: nat, v: int | d < |docs| ::
                r.value[d] == Some(v) <==> exists t: string :: HasToken(docs[d], name, t, analyze) && parse(t) == Some(v))
          && forall totalDocs: nat, ids: set<nat> :: TableSaysWhere(docs, name, analyze, parse, r.value, totalDocs, ids))
  }

  /** Reads the table from the written files. */
  method SegmentSortTable(seg: Segment, inv: Inverted, docs: seq<Doc>, name: string, analyze: string -> seq<string>, parse: string -> Option<int>)
    returns (r: Option<seq<Option<int>>>)
    requires Inverts(inv, docs, analyze) && Written(seg, docs, analyze)
    ensures IsTable(r, docs, name, analyze, parse)
  {
    hide Inverts, Written, HasToken, Numeric, SingleValued, Tabulates, FieldTerms, NumericTokens, SingleTokens, Named, IsIndexed, ListsField, TableSaysWhere;
    var num := 0;
    while num < |inv.fields| && inv.fields[num].name != name
      invariant num <= |inv.fields| && forall k | 0 <= k < num :: inv.fields[k].name != name
    {
      num := num + 1;
    }
    var terms := [];
    var presence := Absent;
    if num < |inv.fields| {
      presence := if inv.fields[num].indexed then Indexed else FieldPresence.StoredOnly;
      terms := FieldTerms(seg, name);
      assert Names(inv.fields)[num] == name;
      FieldTermsList(seg, docs, analyze, name);
      FieldPresent(inv, docs, analyze, num);
    } else {
      FieldAbsent(inv, docs, analyze, name);
      NoTerms(docs, name, analyze, parse);
    }
    NumericTerms(terms, docs, name, analyze, parse);
    SingleTerms(terms, docs, name, analyze);
    r := NumericSortValues(presence, terms, |docs|, parse);
    if r.Some? {
      TableSays(terms, docs, name, analyze, parse, r.value);
    }
  }

  lemma {:induction false} FieldPresent(inv: Inverted, docs: seq<Doc>, analyze: string -> seq<string>, num: nat)
    requires Inverts(inv, docs, analyze) && num < |inv.fields|
    ensures Named(docs, inv.fields[num].name) && (inv.fields[num].indexed <==> IsIndexed(Flatten(docs), inv.fields[num].name))
  {
    hide TermsAre, NormsAre, StoredHold, IsIndexed;
    assert Names(inv.fields)[num] in FirstSeen(Flatten(docs));
  }

  lemma {:induction false} FieldAbsent(inv: Inverted, docs: seq<Doc>, analyze: string -> seq<string>, name: string)
    requires Inverts(inv, docs, analyze) && forall k | 0 <= k < |inv.fields| :: inv.fields[k].name != name
    ensures !Named(docs, name) && ListsField([], docs, name, analyze)
  {
    hide TermsAre, NormsAre, StoredHold, IsIndexed;
    assert name !in Names(inv.fields);
    assert Names(inv.fields) == FirstSeen(Flatten(docs));
    forall d: nat, t: string | d < |docs| ensures !HasToken(docs[d], name, t, analyze) {
      if q :| 0 <= q < |docs[d].fields| && docs[d].fields[q].name == name {
        InFlattened(docs, d, q);
        assert false;
      }
    }
  }

  /** A field without terms has an empty table, and says nothing. */
  lemma {:induction false} NoTerms(docs: seq<Doc>, name: string, analyze: string -> seq<string>, parse: string -> Option<int>)
    ensures Numeric([], parse, |docs|) && SingleValued([]) && Tabulates(seq(|docs|, _ => None), [], parse)
  {
  }

  lemma {:induction false} TableSays(terms: seq<TermDocs>, docs: seq<Doc>, name: string, analyze: string -> seq<string>, parse: string -> Option<int>, table: seq<Option<int>>)
    requires ListsField(terms, docs, name, analyze) && Numeric(terms, parse, |docs|) && Tabulates(table, terms, parse) && |table| == |docs|
    ensures forall d: nat, v: int | d < |docs| ::
              table[d] == Some(v) <==> exists t: string :: HasToken(docs[d], name, t, analyze) && parse(t) == Some(v)
    ensures forall totalDocs: nat, ids: set<nat> ::
              TableSaysWhere(docs, name, analyze, parse, table, totalDocs, ids)
  {
    hide HasToken, Numeric, ListsField, SortSource.Agrees, TokensSay, TermsSay;
    var values := StoredValues(docs, name);
    forall d: nat | d < |docs|
      ensures forall v: int :: HasNumber(terms, parse, d, v) <==> exists t: string :: HasToken(docs[d], name, t, analyze) && parse(t) == Some(v)
      ensures TermsSay(values[d], terms, parse, d) <==> TokensSay(docs[d], name, analyze, parse)
    {
      TermsAreTokens(terms, docs, name, analyze, parse, d);
      SaysAlike(values[d], terms, parse, docs, name, analyze, d);
    }
    forall d: nat, v: int | d < |docs|
      ensures table[d] == Some(v) <==> exists t: string :: HasToken(docs[d], name, t, analyze) && parse(t) == Some(v)
    {
      assert table[d] == Some(v) <==> HasNumber(terms, parse, d, v);
    }
    forall totalDocs: nat, ids: set<nat>
      ensures TableSaysWhere(docs, name, analyze, parse, table, totalDocs, ids)
    {
      TableAgreesExactly(values, terms, table, parse, totalDocs, ids);
    }
  }

  lemma {:induction false} SaysAlike(value: Option<string>, terms: seq<TermDocs>, parse: string -> Option<int>, docs: seq<Doc>, name: string, analyze: string -> seq<string>, d: nat)
    requires d < |docs| && value == FirstStored(docs[d].fields, name)
    requires HasTerm(terms, d) <==> exists t: string :: HasToken(docs[d], name, t, analyze)
    requires forall v: int :: HasNumber(terms, parse, d, v) <==> exists t: string :: HasToken(docs[d], name, t, analyze) && parse(t) == Some(v)
    ensures TermsSay(value, terms, parse, d) <==> TokensSay(docs[d], name, analyze, parse)
  {
    hide HasToken, HasTerm, HasNumber, FirstStored;
  }

  // ----- which documents disagree -----

  /** A document with one field: its tokens are the document's. */
  lemma {:induction false} OneFieldTokens(f: Field, t: string, analyze: string -> seq<string>)
    ensures HasToken(Doc([f]), f.name, t, analyze) <==> t in Tokens(f, analyze)
    ensures FirstStored(Doc([f]).fields, f.name) == if f.stored then Some(f.value) else None
  {
    hide Tokens;
    assert Doc([f]).fields[0] == f;
    assert FirstStored([f][1..], f.name) == None;
  }

  /** A stored keyword disagrees only when it is empty: it is stored, but no term. */
  lemma {:induction false} KeywordSays(value: string, name: string, analyze: string -> seq<string>, parse: string -> Option<int>)
    requires parse("") == None
    ensures TokensSay(Doc([Field(name, value, Keyword, true)]), name, analyze, parse) <==> value != ""
  {
    hide HasToken, FirstStored;
    var f := Field(name, value, Keyword, true);
    forall t: string ensures HasToken(Doc([f]), name, t, analyze) <==> value != "" && t == value {
      OneFieldTokens(f, t, analyze);
    }
    OneFieldTokens(f, value, analyze);
  }

  /** A keyword that is not stored, one that is stored only, and a text whose token is not its value. */
  lemma {:induction false} OthersDisagree(name: string, analyze: string -> seq<string>, parse: string -> Option<int>)
    requires analyze("10!") == ["10"] && parse("10") == Some(10) && parse("10!") == None
    ensures !TokensSay(Doc([Field(name, "10", Keyword, false)]), name, analyze, parse)
    ensures !TokensSay(Doc([Field(name, "10", UnIndexed, true)]), name, analyze, parse)
    ensures !TokensSay(Doc([Field(name, "10!", FieldKind.Text, true)]), name, analyze, parse)
  {
    hide HasToken, FirstStored;
    OneFieldTokens(Field(name, "10", Keyword, false), "10", analyze);
    OneFieldTokens(Field(name, "10!", FieldKind.Text, true), "10", analyze);
    forall t: string {
      OneFieldTokens(Field(name, "10", UnIndexed, true), t, analyze);
    }
    OneFieldTokens(Field(name, "10", UnIndexed, true), "", analyze);
    assert parse("10") == Some(10);
  }
}
