/** A segment's numeric sort table: a whole field read once from its terms, offered only when the terms
    determine every document's value. */
module SortTables {
  import opened Wrappers
  import opened Ranking

  /** One term of the field with the documents of its postings; `None` when they do not decode. */
  datatype TermDocs = TermDocs(text: string, docs: Option<seq<nat>>)

  datatype FieldPresence = Absent | StoredOnly | Indexed

  /** Every term is a number and decodes to documents of the segment. */
  predicate Numeric(terms: seq<TermDocs>, parse: string -> Option<int>, maxDoc: nat) {
    forall i | 0 <= i < |terms| ::
      parse(terms[i].text).Some? && terms[i].docs.Some? && forall j | 0 <= j < |terms[i].docs.value| :: terms[i].docs.value[j] < maxDoc
  }

  /** Document `d` is the `j`-th of term `i`. */
  predicate At(terms: seq<TermDocs>, i: nat, j: nat, d: nat) {
    i < |terms| && terms[i].docs.Some? && j < |terms[i].docs.value| && terms[i].docs.value[j] == d
  }

  /** No document occurs twice, in one term or in two. */
  ghost predicate SingleValued(terms: seq<TermDocs>) {
    forall i: nat, j: nat, k: nat, l: nat, d: nat | At(terms, i, j, d) && At(terms, k, l, d) :: i == k && j == l
  }

  /** The table holds `v` at `d` exactly when a term worth `v` lists `d`. */
  ghost predicate Tabulates(table: seq<Option<int>>, terms: seq<TermDocs>, parse: string -> Option<int>) {
    forall d: nat, v: int | d < |table| :: table[d] == Some(v) <==> exists i: nat, j: nat :: At(terms, i, j, d) && parse(terms[i].text) == Some(v)
  }

  /** Reads before `(n, m)` in order: whole terms below `n`, and the first `m` documents of term `n`. */
  predicate Before(i: nat, j: nat, n: nat, m: nat) {
    i < n || (i == n && j < m)
  }

  ghost predicate Read(table: seq<Option<int>>, terms: seq<TermDocs>, parse: string -> Option<int>, maxDoc: nat, n: nat, m: nat) {
    && |table| == maxDoc
    && (forall i: nat, j: nat, d: nat | At(terms, i, j, d) && Before(i, j, n, m) :: d < maxDoc && parse(terms[i].text).Some? && table[d] == parse(terms[i].text))
    && (forall d: nat | d < maxDoc && table[d].Some? :: exists i: nat, j: nat :: At(terms, i, j, d) && Before(i, j, n, m))
    && (forall i: nat, j: nat, k: nat, l: nat, d: nat | At(terms, i, j, d) && At(terms, k, l, d) && Before(i, j, n, m) && Before(k, l, n, m) :: i == k && j == l)
  }

  lemma {:induction false} ReadNext(table: seq<Option<int>>, terms: seq<TermDocs>, parse: string -> Option<int>, maxDoc: nat, n: nat, m: nat, d: nat)
    requires Read(table, terms, parse, maxDoc, n, m) && At(terms, n, m, d) && d < maxDoc && parse(terms[n].text).Some?
    ensures table[d].None? ==> Read(table[d := parse(terms[n].text)], terms, parse, maxDoc, n, m + 1)
    ensures table[d].Some? ==> !SingleValued(terms)
  {
    if table[d].None? {
      var table' := table[d := parse(terms[n].text)];
      forall e: nat | e < maxDoc && table'[e].Some? ensures exists i: nat, j: nat :: At(terms, i, j, e) && Before(i, j, n, m + 1) {
        if e == d {
          assert Before(n, m, n, m + 1);
        } else {
          var i: nat, j: nat :| At(terms, i, j, e) && Before(i, j, n, m);
          assert Before(i, j, n, m + 1);
        }
      }
    } else {
      var i: nat, j: nat :| At(terms, i, j, d) && Before(i, j, n, m);
    }
  }

  /** Offers a table exactly when the field is absent, or is indexed with numeric terms of which no
      document has two; the table then says what the terms say. */
  method NumericSortValues(presence: FieldPresence, terms: seq<TermDocs>, maxDoc: nat, parse: string -> Option<int>)
    returns (r: Option<seq<Option<int>>>)
    ensures presence.Absent? ==> r == Some(seq(maxDoc, _ => None))
    ensures presence.StoredOnly? ==> r.None?
    ensures presence.Indexed? ==> (r.Some? <==> Numeric(terms, parse, maxDoc) && SingleValued(terms))
    ensures presence.Indexed? && r.Some? ==> |r.value| == maxDoc && Tabulates(r.value, terms, parse)
  {
    var table: seq<Option<int>> := seq(maxDoc, _ => None);
    match presence {
      case Absent => return Some(table);
      case StoredOnly => return None;
      case Indexed =>
    }
    hide Read, SingleValued;
    NothingRead(table, terms, parse);
    for n := 0 to |terms|
      invariant Numeric(terms[..n], parse, maxDoc) && |table| == maxDoc
      invariant Read(table, terms, parse, maxDoc, n, 0)
    {
      var value := parse(terms[n].text);
      if value.None? || terms[n].docs.None? {
        return None;
      }
      var docs := terms[n].docs.value;
      for m := 0 to |docs|
        invariant |table| == maxDoc && forall j | 0 <= j < m :: docs[j] < maxDoc
        invariant Read(table, terms, parse, maxDoc, n, m)
      {
        var d := docs[m];
        if d >= maxDoc {
          return None;
        }
        ReadNext(table, terms, parse, maxDoc, n, m, d);
        if table[d].Some? {
          return None;
        }
        table := table[d := value];
      }
      TermRead(table, terms, parse, maxDoc, n, |docs|);
    }
    assert terms[..|terms|] == terms;
    AllRead(table, terms, parse, maxDoc);
    return Some(table);
  }

  lemma {:induction false} NothingRead(table: seq<Option<int>>, terms: seq<TermDocs>, parse: string -> Option<int>)
    requires forall d | 0 <= d < |table| :: table[d].None?
    ensures Read(table, terms, parse, |table|, 0, 0)
  {
  }

  lemma {:induction false} TermRead(table: seq<Option<int>>, terms: seq<TermDocs>, parse: string -> Option<int>, maxDoc: nat, n: nat, m: nat)
    requires Read(table, terms, parse, maxDoc, n, m) && n < |terms| && terms[n].docs.Some? && m == |terms[n].docs.value|
    ensures Read(table, terms, parse, maxDoc, n + 1, 0)
  {
    assert forall i: nat, j: nat, d: nat | At(terms, i, j, d) :: Before(i, j, n + 1, 0) <==> Before(i, j, n, m);
  }

  lemma {:induction false} AllRead(table: seq<Option<int>>, terms: seq<TermDocs>, parse: string -> Option<int>, maxDoc: nat)
    requires Read(table, terms, parse, maxDoc, |terms|, 0)
    ensures SingleValued(terms) && Tabulates(table, terms, parse)
  {
    forall i: nat, j: nat, d: nat | At(terms, i, j, d) ensures Before(i, j, |terms|, 0) {
    }
    forall d: nat, v: int | d < |table|
      ensures table[d] == Some(v) <==> exists i: nat, j: nat :: At(terms, i, j, d) && parse(terms[i].text) == Some(v)
    {
      if table[d] == Some(v) {
        var i: nat, j: nat :| At(terms, i, j, d) && Before(i, j, |terms|, 0);
      }
    }
  }

  // ----- when the table says what the stored values say -----

  function ValueAt(values: seq<Option<string>>, id: nat): Option<string> {
    if id < |values| then values[id] else None
  }

  ghost predicate HasTerm(terms: seq<TermDocs>, d: nat) {
    exists i: nat, j: nat :: At(terms, i, j, d)
  }

  /** A term worth `v` lists `d`. */
  ghost predicate HasNumber(terms: seq<TermDocs>, parse: string -> Option<int>, d: nat, v: int) {
    exists i: nat, j: nat :: At(terms, i, j, d) && parse(terms[i].text) == Some(v)
  }

  /** Document by document: no stored value exactly when no term, and a stored number exactly when a term
      is worth it. */
  ghost predicate TermsSay(value: Option<string>, terms: seq<TermDocs>, parse: string -> Option<int>, d: nat) {
    && (value.None? <==> !HasTerm(terms, d))
    && forall v: int :: value.Some? && parse(value.value) == Some(v) <==> HasNumber(terms, parse, d, v)
  }

  lemma {:induction false} Tabulated(values: seq<Option<string>>, terms: seq<TermDocs>, table: seq<Option<int>>, parse: string -> Option<int>,
                                     totalDocs: nat, d: nat)
    requires Numeric(terms, parse, |values|) && Tabulates(table, terms, parse) && |table| == |values| && d < |values|
    ensures var source := SortSource((id: nat) => ValueAt(values, id), Some(table), parse, totalDocs);
            source.FromTable(table, d) == source.FromStored(d) <==> TermsSay(values[d], terms, parse, d)
  {
    forall v: int ensures table[d] == Some(v) <==> HasNumber(terms, parse, d, v) {
    }
    if HasTerm(terms, d) {
      var i: nat, j: nat :| At(terms, i, j, d);
      assert HasNumber(terms, parse, d, parse(terms[i].text).value);
    }
    if table[d].Some? {
      assert HasNumber(terms, parse, d, table[d].value);
    }
  }

  /** For any field that offers a table: the table gives the keys the stored values give, on some
      documents, exactly when the terms of each of them say what its stored value says. */
  lemma {:induction false} TableAgreesExactly(values: seq<Option<string>>, terms: seq<TermDocs>, table: seq<Option<int>>, parse: string -> Option<int>,
                                              totalDocs: nat, ids: set<nat>)
    requires Numeric(terms, parse, |values|) && Tabulates(table, terms, parse) && |table| == |values|
    ensures SortSource((id: nat) => ValueAt(values, id), Some(table), parse, totalDocs).Agrees(ids)
       <==> forall d | d in ids && d < |values| :: TermsSay(values[d], terms, parse, d)
  {
    hide TermsSay, Numeric, Tabulates;
    var source := SortSource((id: nat) => ValueAt(values, id), Some(table), parse, totalDocs);
    forall d: nat
      ensures (source.FromTable(table, d) == source.FromStored(d)) <==> (d < |values| ==> TermsSay(values[d], terms, parse, d))
    {
      if d < |values| {
        Tabulated(values, terms, table, parse, totalDocs, d);
      }
    }
  }

  /** The terms of a keyword field: each document with a non-empty value is listed under it. */
  ghost predicate Keywords(values: seq<Option<string>>, terms: seq<TermDocs>) {
    && (forall i: nat, j: nat, d: nat | At(terms, i, j, d) :: d < |values| && values[d] == Some(terms[i].text) && terms[i].text != "")
    && (forall d: nat | d < |values| && values[d].Some? && values[d].value != "" :: HasTerm(terms, d))
  }

  /** A field of stored keywords: only an empty value sets the two apart, being stored but no term. */
  lemma {:induction false} TableAgreesUnlessEmpty(values: seq<Option<string>>, terms: seq<TermDocs>, table: seq<Option<int>>, parse: string -> Option<int>,
                                                  totalDocs: nat, ids: set<nat>)
    requires Keywords(values, terms) && Numeric(terms, parse, |values|) && Tabulates(table, terms, parse) && |table| == |values|
    requires parse("") == None
    ensures SortSource((id: nat) => ValueAt(values, id), Some(table), parse, totalDocs).Agrees(ids)
       <==> forall d | d in ids && d < |values| :: values[d] != Some("")
  {
    hide TermsSay, Tabulates;
    TableAgreesExactly(values, terms, table, parse, totalDocs, ids);
    forall d | d in ids && d < |values| ensures TermsSay(values[d], terms, parse, d) <==> values[d] != Some("") {
      KeywordSays(values, terms, parse, d);
    }
  }

  lemma {:induction false} KeywordSays(values: seq<Option<string>>, terms: seq<TermDocs>, parse: string -> Option<int>, d: nat)
    requires Keywords(values, terms) && Numeric(terms, parse, |values|) && parse("") == None && d < |values|
    ensures TermsSay(values[d], terms, parse, d) <==> values[d] != Some("")
  {
    if values[d].Some? && values[d].value != "" {
      var i: nat, j: nat :| At(terms, i, j, d);
      forall v: int ensures parse(values[d].value) == Some(v) <==> HasNumber(terms, parse, d, v) {
        if parse(values[d].value) == Some(v) {
          assert At(terms, i, j, d) && parse(terms[i].text) == Some(v);
        }
      }
    }
  }
}
