/** Inversion of a batch of documents into sorted terms with postings, norm lengths and stored fields. */
module Inverter {
  import opened Wrappers
  import opened Lex
  import opened Sorting
  import Postings
  import TermDict
  import TermDictWriter

  datatype FieldKind = Text | Keyword | UnIndexed {
    predicate Indexed() {
      Text? || Keyword?
    }
  }

  datatype Field = Field(name: string, value: string, kind: FieldKind, stored: bool)

  datatype Doc = Doc(fields: seq<Field>)

  datatype FieldMeta = FieldMeta(name: string, indexed: bool)

  datatype StoredField = StoredField(fieldNum: nat, value: string, tokenized: bool)

  datatype Inverted = Inverted(
    fields: seq<FieldMeta>, terms: seq<TermDictWriter.Term>, normLengths: seq<seq<Option<nat>>>,
    stored: seq<seq<StoredField>>, docCount: nat)

  // ----- what a batch contains, read off the documents -----

  /** The tokens a field contributes; a keyword is one term, its whole value. */
  function Tokens(f: Field, analyze: string -> seq<string>): seq<string> {
    match f.kind
    case Text => analyze(f.value)
    case Keyword => if f.value == "" then [] else [f.value]
    case UnIndexed => []
  }

  /** Positions count from one in a text; a keyword sits at zero. */
  function FirstPosition(f: Field): nat {
    if f.kind.Text? then 1 else 0
  }

  /** Where `t` occurs among `tokens`, the first of them at position `from`. */
  function Occurrences(tokens: seq<string>, t: string, from: nat): seq<nat> {
    if tokens == [] then []
    else Occurrences(tokens[..|tokens| - 1], t, from)
         + (if tokens[|tokens| - 1] == t then [from + |tokens| - 1] else [])
  }

  function FieldPositions(f: Field, t: string, analyze: string -> seq<string>): seq<nat> {
    Occurrences(Tokens(f, analyze), t, FirstPosition(f))
  }

  /** Positions of `t` over all fields called `name`, in field order. */
  function PositionsIn(fields: seq<Field>, name: string, t: string, analyze: string -> seq<string>): seq<nat> {
    if fields == [] then []
    else
      var last := fields[|fields| - 1];
      PositionsIn(fields[..|fields| - 1], name, t, analyze)
      + (if last.name == name then FieldPositions(last, t, analyze) else [])
  }

  /** The length that feeds the norm: tokens of the last non-empty field of that name. */
  function LengthIn(fields: seq<Field>, name: string, analyze: string -> seq<string>): Option<nat> {
    if fields == [] then None
    else
      var last := fields[|fields| - 1];
      if last.name == name && Tokens(last, analyze) != [] then Some(|Tokens(last, analyze)|)
      else LengthIn(fields[..|fields| - 1], name, analyze)
  }

  /** Names in order of first appearance. */
  function FirstSeen(fields: seq<Field>): (names: seq<string>)
    ensures forall n :: n in names <==> exists i | 0 <= i < |fields| :: fields[i].name == n
    ensures forall i, j | 0 <= i < j < |names| :: names[i] != names[j]
  {
    if fields == [] then []
    else
      var names, last := FirstSeen(fields[..|fields| - 1]), fields[|fields| - 1];
      assert fields == fields[..|fields| - 1] + [last];
      if last.name in names then names else names + [last.name]
  }

  function Flatten(docs: seq<Doc>): seq<Field> {
    if docs == [] then [] else Flatten(docs[..|docs| - 1]) + docs[|docs| - 1].fields
  }

  lemma {:induction false} InFlattened(docs: seq<Doc>, d: nat, q: nat)
    requires d < |docs| && q < |docs[d].fields|
    ensures docs[d].fields[q] in Flatten(docs)
  {
    var n := |docs| - 1;
    if d < n {
      InFlattened(docs[..n], d, q);
    }
  }

  // ----- the accumulator: (field number, text) -> doc -> positions -----

  type TermKey = (nat, string)

  type TermMap = map<TermKey, map<nat, seq<nat>>>

  function Get(tm: TermMap, k: TermKey, doc: nat): seq<nat> {
    if k in tm && doc in tm[k] then tm[k][doc] else []
  }

  /** `entry(key).or_default().entry(doc).or_default().push(position)` */
  function Push(tm: TermMap, k: TermKey, doc: nat, position: nat): TermMap {
    var docs: map<nat, seq<nat>> := if k in tm then tm[k] else map[];
    tm[k := docs[doc := (if doc in docs then docs[doc] else []) + [position]]]
  }

  /** No entry of the map is empty. */
  ghost predicate Tidy(tm: TermMap) {
    forall k | k in tm :: tm[k] != map[] && forall d | d in tm[k] :: tm[k][d] != []
  }

  lemma {:induction false} PushGets(tm: TermMap, k: TermKey, doc: nat, position: nat)
    ensures forall k2, d2 :: Get(Push(tm, k, doc, position), k2, d2)
                          == if k2 == k && d2 == doc then Get(tm, k2, d2) + [position] else Get(tm, k2, d2)
    ensures Tidy(tm) ==> Tidy(Push(tm, k, doc, position))
    ensures Push(tm, k, doc, position).Keys == tm.Keys + {k}
  {
    var docs: map<nat, seq<nat>> := if k in tm then tm[k] else map[];
    var docs' := docs[doc := (if doc in docs then docs[doc] else []) + [position]];
    assert doc in docs';
  }

  /** One indexed field of one document: every token is pushed at its position. */
  method AddTokens(tm: TermMap, num: nat, doc: nat, f: Field, analyze: string -> seq<string>) returns (r: TermMap)
    requires Tidy(tm)
    ensures Tidy(r)
    ensures forall k, d :: Get(r, k, d)
                        == if k.0 == num && d == doc then Get(tm, k, d) + FieldPositions(f, k.1, analyze) else Get(tm, k, d)
    ensures forall k | k in r :: k in tm || k.0 == num
  {
    hide Get, Tidy, Push;
    r := tm;
    var tokens := Tokens(f, analyze);
    var position := FirstPosition(f);
    assert tokens[..0] == [];
    for i := 0 to |tokens|
      invariant Tidy(r) && position == FirstPosition(f) + i
      invariant forall k | k in r :: k in tm || k.0 == num
      invariant forall k, d :: Get(r, k, d) == if k.0 == num && d == doc
                            then Get(tm, k, d) + Occurrences(tokens[..i], k.1, FirstPosition(f)) else Get(tm, k, d)
    {
      assert tokens[..i + 1][..i] == tokens[..i];
      PushGets(r, (num, tokens[i]), doc, position);
      r := Push(r, (num, tokens[i]), doc, position);
      position := position + 1;
    }
    assert tokens[..|tokens|] == tokens;
  }

  /** The running state of the inversion. */
  datatype Acc = Acc(
    index: map<string, nat>, fields: seq<FieldMeta>, tm: TermMap,
    lengths: map<(nat, nat), nat>, stored: seq<seq<StoredField>>)

  function Names(fields: seq<FieldMeta>): (names: seq<string>)
    ensures |names| == |fields| && forall i | 0 <= i < |fields| :: names[i] == fields[i].name
  {
    seq(|fields|, i requires 0 <= i < |fields| => fields[i].name)
  }

  function LengthOf(lengths: map<(nat, nat), nat>, num: nat, doc: nat): Option<nat> {
    if (num, doc) in lengths then Some(lengths[(num, doc)]) else None
  }

  function StoredOnly(fields: seq<Field>): seq<Field> {
    if fields == [] then []
    else StoredOnly(fields[..|fields| - 1]) + (if fields[|fields| - 1].stored then [fields[|fields| - 1]] else [])
  }

  /** `s` is `f` as stored, its number naming it. */
  predicate Stores(s: StoredField, f: Field, names: seq<string>) {
    s.fieldNum < |names| && names[s.fieldNum] == f.name && s.value == f.value && s.tokenized == f.kind.Text?
  }

  /** Field numbers follow the order of first appearance; a field is indexed if any occurrence is. */
  ghost predicate NamesHold(index: map<string, nat>, fields: seq<FieldMeta>, flat: seq<Field>) {
    && Names(fields) == FirstSeen(flat)
    && (forall n :: n in index <==> n in Names(fields))
    && (forall n | n in index :: index[n] < |fields| && fields[index[n]].name == n)
    && (forall k | 0 <= k < |fields| :: fields[k].indexed <==> IsIndexed(flat, fields[k].name))
  }

  ghost predicate IsIndexed(flat: seq<Field>, name: string) {
    exists q | 0 <= q < |flat| :: flat[q].name == name && flat[q].kind.Indexed()
  }

  ghost predicate TermsHold(tm: TermMap, names: seq<string>, seen: seq<seq<Field>>, analyze: string -> seq<string>) {
    && Tidy(tm)
    && (forall k | k in tm :: k.0 < |names|)
    && (forall k: TermKey, d: nat | k.0 < |names| && d < |seen| :: Get(tm, k, d) == PositionsIn(seen[d], names[k.0], k.1, analyze))
    && (forall k: TermKey, d: nat | d >= |seen| :: Get(tm, k, d) == [])
  }

  ghost predicate LengthsHold(lengths: map<(nat, nat), nat>, names: seq<string>, seen: seq<seq<Field>>, analyze: string -> seq<string>) {
    && (forall k | k in lengths :: k.0 < |names|)
    && (forall n, d | 0 <= n < |names| && 0 <= d < |seen| :: LengthOf(lengths, n, d) == LengthIn(seen[d], names[n], analyze))
  }

  ghost predicate StoredHold(stored: seq<seq<StoredField>>, names: seq<string>, seen: seq<seq<Field>>) {
    && |stored| == |seen|
    && forall d | 0 <= d < |seen| :: |stored[d]| == |StoredOnly(seen[d])|
                                  && forall q | 0 <= q < |stored[d]| :: Stores(stored[d][q], StoredOnly(seen[d])[q], names)
  }

  /** The state after the fields `flat`, of which document `d` owns `seen[d]`. */
  ghost predicate Holds(a: Acc, seen: seq<seq<Field>>, flat: seq<Field>, analyze: string -> seq<string>) {
    var names := Names(a.fields);
    && (forall d, q | 0 <= d < |seen| && 0 <= q < |seen[d]| :: seen[d][q] in flat)
    && NamesHold(a.index, a.fields, flat)
    && TermsHold(a.tm, names, seen, analyze)
    && LengthsHold(a.lengths, names, seen, analyze)
    && StoredHold(a.stored, names, seen)
  }

  // A name not seen yet has no positions and no length anywhere.

  lemma {:induction false} UnseenEmpty(fields: seq<Field>, name: string, t: string, analyze: string -> seq<string>)
    requires forall q | 0 <= q < |fields| :: fields[q].name != name
    ensures PositionsIn(fields, name, t, analyze) == [] && LengthIn(fields, name, analyze) == None
  {
    if fields != [] {
      UnseenEmpty(fields[..|fields| - 1], name, t, analyze);
    }
  }

  lemma {:induction false} IndexedStep(flat: seq<Field>, f: Field, name: string)
    ensures IsIndexed(flat + [f], name) <==> IsIndexed(flat, name) || (f.name == name && f.kind.Indexed())
  {
    var all := flat + [f];
    if q :| 0 <= q < |all| && all[q].name == name && all[q].kind.Indexed() {
      assert q < |flat| ==> flat[q] == all[q];
    }
    if q :| 0 <= q < |flat| && flat[q].name == name && flat[q].kind.Indexed() {
      assert all[q] == flat[q];
    }
    if f.name == name && f.kind.Indexed() {
      assert all[|flat|] == f;
    }
  }

  lemma {:induction false} FirstSeenStep(flat: seq<Field>, f: Field)
    ensures FirstSeen(flat + [f]) == if f.name in FirstSeen(flat) then FirstSeen(flat) else FirstSeen(flat) + [f.name]
  {
    assert (flat + [f])[..|flat|] == flat;
  }

  /** Registers the field's name: its number, new or known. */
  method NumberOf(index: map<string, nat>, fields: seq<FieldMeta>, f: Field, ghost flat: seq<Field>)
    returns (index': map<string, nat>, fields': seq<FieldMeta>, num: nat)
    requires NamesHold(index, fields, flat)
    ensures NamesHold(index', fields', flat + [f])
    ensures num < |fields'| && fields'[num].name == f.name
    ensures Names(fields') == if f.name in Names(fields) then Names(fields) else Names(fields) + [f.name]
  {
    hide IsIndexed, FirstSeen;
    index', fields' := index, fields;
    FirstSeenStep(flat, f);
    if f.name !in index {
      fields' := fields + [FieldMeta(f.name, false)];
      index' := index[f.name := |fields|];
      UnseenUnindexed(flat, f.name);
    }
    num := index'[f.name];
    fields' := fields'[num := FieldMeta(f.name, fields'[num].indexed || f.kind.Indexed())];
    assert Names(fields') == if f.name in Names(fields) then Names(fields) else Names(fields) + [f.name];
    forall k | 0 <= k < |fields'| ensures fields'[k].indexed <==> IsIndexed(flat + [f], fields'[k].name) {
      IndexedStep(flat, f, fields'[k].name);
    }
  }

  lemma {:induction false} UnseenUnindexed(flat: seq<Field>, name: string)
    requires name !in FirstSeen(flat)
    ensures !IsIndexed(flat, name)
  {
  }

  // What one more field, numbered `num` and belonging to document `doc`, does to each part of the state.

  lemma {:induction false} PositionsInStep(fields: seq<Field>, f: Field, name: string, t: string, analyze: string -> seq<string>)
    ensures PositionsIn(fields + [f], name, t, analyze)
         == if f.name == name then PositionsIn(fields, name, t, analyze) + FieldPositions(f, t, analyze)
            else PositionsIn(fields, name, t, analyze)
  {
    assert (fields + [f])[..|fields|] == fields;
  }

  lemma {:induction false} LengthInStep(fields: seq<Field>, f: Field, name: string, analyze: string -> seq<string>)
    ensures LengthIn(fields + [f], name, analyze)
         == if f.name == name && Tokens(f, analyze) != [] then Some(|Tokens(f, analyze)|) else LengthIn(fields, name, analyze)
  {
    assert (fields + [f])[..|fields|] == fields;
  }

  /** `names'` is `names` with the field's name registered, under number `num`. */
  ghost predicate Registers(names: seq<string>, names': seq<string>, num: nat, f: Field) {
    && num < |names'| && names'[num] == f.name
    && names' == (if f.name in names then names else names + [f.name])
    && forall i, j | 0 <= i < j < |names'| :: names'[i] != names'[j]
  }

  ghost predicate AllNamed(seen: seq<seq<Field>>, names: seq<string>) {
    forall d, q | 0 <= d < |seen| && 0 <= q < |seen[d]| :: seen[d][q].name in names
  }

  lemma {:induction false} TermsStep(tm: TermMap, tm': TermMap, names: seq<string>, names': seq<string>, seen: seq<seq<Field>>, num: nat, doc: nat,
                  f: Field, analyze: string -> seq<string>)
    requires doc < |seen| && Registers(names, names', num, f) && AllNamed(seen, names)
    requires TermsHold(tm, names, seen, analyze) && Tidy(tm')
    requires forall k | k in tm' :: k in tm || k.0 == num
    requires forall k, d :: Get(tm', k, d)
                         == if k.0 == num && d == doc then Get(tm, k, d) + FieldPositions(f, k.1, analyze) else Get(tm, k, d)
    ensures TermsHold(tm', names', seen[doc := seen[doc] + [f]], analyze)
  {
    hide PositionsIn, FieldPositions, Tidy, Get;
    var seen' := seen[doc := seen[doc] + [f]];
    forall k: TermKey, d: nat | k.0 < |names'| && d < |seen|
      ensures Get(tm', k, d) == PositionsIn(seen'[d], names'[k.0], k.1, analyze)
    {
      PositionsInStep(seen[doc], f, names'[k.0], k.1, analyze);
      if k.0 >= |names| {
        UnseenEmpty(seen[d], names'[k.0], k.1, analyze);
        UnseenGet(tm, k, d);
      } else {
        assert Get(tm, k, d) == PositionsIn(seen[d], names[k.0], k.1, analyze);
      }
    }
  }

  lemma {:induction false} UnseenGet(tm: TermMap, k: TermKey, d: nat)
    ensures k !in tm ==> Get(tm, k, d) == []
  {
  }

  lemma {:induction false} LengthsStep(lengths: map<(nat, nat), nat>, names: seq<string>, names': seq<string>, seen: seq<seq<Field>>, num: nat, doc: nat,
                    f: Field, analyze: string -> seq<string>)
    requires doc < |seen| && Registers(names, names', num, f) && AllNamed(seen, names)
    requires LengthsHold(lengths, names, seen, analyze)
    ensures var tokens := Tokens(f, analyze);
            LengthsHold(if tokens == [] then lengths else lengths[(num, doc) := |tokens|], names', seen[doc := seen[doc] + [f]], analyze)
  {
    hide LengthIn, Tokens;
    var tokens, seen' := Tokens(f, analyze), seen[doc := seen[doc] + [f]];
    var lengths' := if tokens == [] then lengths else lengths[(num, doc) := |tokens|];
    forall n: nat, d: nat | n < |names'| && d < |seen|
      ensures LengthOf(lengths', n, d) == LengthIn(seen'[d], names'[n], analyze)
    {
      LengthInStep(seen[doc], f, names'[n], analyze);
      if n >= |names| {
        UnseenEmpty(seen[d], names'[n], "", analyze);
      } else {
        assert LengthOf(lengths, n, d) == LengthIn(seen[d], names[n], analyze);
      }
    }
  }

  function WithStored(stored: seq<seq<StoredField>>, num: nat, doc: nat, f: Field): seq<seq<StoredField>>
    requires doc < |stored|
  {
    if f.stored then stored[doc := stored[doc] + [StoredField(num, f.value, f.kind.Text?)]] else stored
  }

  lemma {:induction false} StoredStep(stored: seq<seq<StoredField>>, names: seq<string>, names': seq<string>, seen: seq<seq<Field>>, num: nat, doc: nat, f: Field)
    requires doc < |seen| && Registers(names, names', num, f) && StoredHold(stored, names, seen)
    ensures StoredHold(WithStored(stored, num, doc, f), names', seen[doc := seen[doc] + [f]])
  {
    assert (seen[doc] + [f])[..|seen[doc]|] == seen[doc];
  }

  lemma {:induction false} Shape(a: Acc, seen: seq<seq<Field>>, flat: seq<Field>, analyze: string -> seq<string>)
    requires Holds(a, seen, flat, analyze)
    ensures Tidy(a.tm) && |a.stored| == |seen| && AllNamed(seen, Names(a.fields))
  {
  }

  lemma {:induction false} NamesDiffer(index: map<string, nat>, fields: seq<FieldMeta>, flat: seq<Field>)
    requires NamesHold(index, fields, flat)
    ensures forall i, j | 0 <= i < j < |fields| :: Names(fields)[i] != Names(fields)[j]
  {
  }

  lemma {:induction false} NumberRegisters(index: map<string, nat>, fields: seq<FieldMeta>, flat: seq<Field>, names: seq<string>, num: nat, f: Field)
    requires NamesHold(index, fields, flat) && num < |fields| && fields[num].name == f.name
    requires Names(fields) == if f.name in names then names else names + [f.name]
    ensures Registers(names, Names(fields), num, f)
  {
  }

  /** The body of the inner loop: one field of document `doc`. */
  method AddField(a: Acc, doc: nat, f: Field, analyze: string -> seq<string>, ghost seen: seq<seq<Field>>, ghost flat: seq<Field>)
    returns (r: Acc)
    requires doc < |seen| && Holds(a, seen, flat, analyze)
    ensures Holds(r, seen[doc := seen[doc] + [f]], flat + [f], analyze)
  {
    hide TermsHold, LengthsHold, StoredHold, NamesHold, Tidy, AllNamed, Registers, FieldPositions;
    Shape(a, seen, flat, analyze);
    var index, fields, num := NumberOf(a.index, a.fields, f, flat);
    ghost var names, names' := Names(a.fields), Names(fields);
    NumberRegisters(index, fields, flat + [f], names, num, f);
    StoredStep(a.stored, names, names', seen, num, doc, f);
    var stored := WithStored(a.stored, num, doc, f);
    ghost var seen' := seen[doc := seen[doc] + [f]];
    forall d, q | 0 <= d < |seen'| && 0 <= q < |seen'[d]| ensures seen'[d][q] in flat + [f] {
      assert seen'[d][q] == f || seen'[d][q] == seen[d][q];
    }
    LengthsStep(a.lengths, names, names', seen, num, doc, f, analyze);
    var tokens := Tokens(f, analyze);
    if tokens == [] {
      // not indexed, an empty keyword, or a text without tokens
      NoPositions(f, a.tm, analyze);
      TermsStep(a.tm, a.tm, names, names', seen, num, doc, f, analyze);
      return Acc(index, fields, a.tm, a.lengths, stored);
    }
    var tm := AddTokens(a.tm, num, doc, f, analyze);
    TermsStep(a.tm, tm, names, names', seen, num, doc, f, analyze);
    return Acc(index, fields, tm, a.lengths[(num, doc) := |tokens|], stored);
  }

  lemma {:induction false} NoPositions(f: Field, tm: TermMap, analyze: string -> seq<string>)
    requires Tokens(f, analyze) == []
    ensures forall k: TermKey, d :: Get(tm, k, d) + FieldPositions(f, k.1, analyze) == Get(tm, k, d)
  {
  }

  // ----- the whole batch -----

  function FieldsOf(docs: seq<Doc>): (r: seq<seq<Field>>)
    ensures |r| == |docs| && forall d | 0 <= d < |docs| :: r[d] == docs[d].fields
  {
    seq(|docs|, d requires 0 <= d < |docs| => docs[d].fields)
  }

  /** The two nested loops over documents and their fields. */
  method Accumulate(docs: seq<Doc>, analyze: string -> seq<string>) returns (a: Acc)
    ensures Holds(a, FieldsOf(docs), Flatten(docs), analyze)
  {
    hide Holds;
    a := Acc(map[], [], map[], map[], seq(|docs|, _ => []));
    ghost var seen: seq<seq<Field>>, flat: seq<Field> := seq(|docs|, _ => []), [];
    NothingHeld(|docs|, analyze);
    assert docs[..0] == [];
    for i := 0 to |docs|
      invariant |seen| == |docs| && flat == Flatten(docs[..i])
      invariant forall d | 0 <= d < |docs| :: seen[d] == if d < i then docs[d].fields else []
      invariant Holds(a, seen, flat, analyze)
    {
      var fields := docs[i].fields;
      assert docs[..i + 1][..i] == docs[..i];
      ghost var before := flat;
      for j := 0 to |fields|
        invariant |seen| == |docs| && flat == before + fields[..j] && seen[i] == fields[..j]
        invariant forall d | 0 <= d < |docs| && d != i :: seen[d] == if d < i then docs[d].fields else []
        invariant Holds(a, seen, flat, analyze)
      {
        a := AddField(a, i, fields[j], analyze, seen, flat);
        seen, flat := seen[i := seen[i] + [fields[j]]], flat + [fields[j]];
      }
    }
    assert docs[..|docs|] == docs && seen == FieldsOf(docs);
  }

  lemma {:induction false} NothingHeld(n: nat, analyze: string -> seq<string>)
    ensures Holds(Acc(map[], [], map[], map[], seq(n, _ => [])), seq(n, _ => []), [], analyze)
  {
  }

  /** A term's postings: the documents below `n` that hold it, ascending, with its positions there. */
  function PostingsOf(docs: seq<Doc>, n: nat, name: string, t: string, analyze: string -> seq<string>): seq<Postings.Posting>
    requires n <= |docs|
  {
    if n == 0 then []
    else
      var ps := PositionsIn(docs[n - 1].fields, name, t, analyze);
      PostingsOf(docs, n - 1, name, t, analyze) + (if ps == [] then [] else [Postings.Posting(n - 1, ps)])
  }

  /** Iteration over a document map in ascending order. */
  function DocsBelow(dm: map<nat, seq<nat>>, n: nat): seq<Postings.Posting> {
    if n == 0 then [] else DocsBelow(dm, n - 1) + (if n - 1 in dm then [Postings.Posting(n - 1, dm[n - 1])] else [])
  }

  lemma {:induction false} DocsAre(tm: TermMap, k: TermKey, docs: seq<Doc>, n: nat, names: seq<string>, analyze: string -> seq<string>)
    requires n <= |docs| && k.0 < |names| && k in tm && TermsHold(tm, names, FieldsOf(docs), analyze)
    ensures DocsBelow(tm[k], n) == PostingsOf(docs, n, names[k.0], k.1, analyze)
  {
    hide PositionsIn;
    if n > 0 {
      DocsAre(tm, k, docs, n - 1, names, analyze);
      assert Get(tm, k, n - 1) == PositionsIn(docs[n - 1].fields, names[k.0], k.1, analyze);
    }
  }

  lemma {:induction false} PostingsNonEmpty(docs: seq<Doc>, n: nat, name: string, t: string, analyze: string -> seq<string>)
    requires n <= |docs|
    ensures PostingsOf(docs, n, name, t, analyze) != [] <==>
            exists d | 0 <= d < n :: PositionsIn(docs[d].fields, name, t, analyze) != []
  {
    if n > 0 {
      PostingsNonEmpty(docs, n - 1, name, t, analyze);
    }
  }

  function KeyOf(names: seq<string>, t: TermDictWriter.Term): Key {
    Key(TermDict.FieldName(names, t.fieldNum), t.text)
  }

  /** The canonical order of terms: by field name, then text. */
  function TermOrder(names: seq<string>): (TermDictWriter.Term, TermDictWriter.Term) -> bool {
    (a, b) => KeyLess(KeyOf(names, a), KeyOf(names, b))
  }

  lemma {:induction false} TermOrderStrict(names: seq<string>)
    ensures StrictOrder(TermOrder(names))
  {
    hide KeyLess;
    forall a ensures !TermOrder(names)(a, a) {
      if KeyLess(KeyOf(names, a), KeyOf(names, a)) {
        KeyAsymmetric(KeyOf(names, a), KeyOf(names, a));
      }
    }
    forall a, b, c | TermOrder(names)(a, b) && TermOrder(names)(b, c) ensures TermOrder(names)(a, c) {
      KeyTransitive(KeyOf(names, a), KeyOf(names, b), KeyOf(names, c));
    }
    forall a, b, c | TermOrder(names)(a, c) ensures TermOrder(names)(a, b) || TermOrder(names)(b, c) {
      KeyTotal(KeyOf(names, a), KeyOf(names, b));
      if KeyLess(KeyOf(names, b), KeyOf(names, a)) {
        KeyTransitive(KeyOf(names, b), KeyOf(names, a), KeyOf(names, c));
      }
    }
  }

  /** The terms are exactly the term map's, each once. */
  ghost predicate Lists(terms: seq<TermDictWriter.Term>, keys: set<TermKey>, tm: TermMap, n: nat) {
    && (forall i | 0 <= i < |terms| ::
          var k := (terms[i].fieldNum, terms[i].text);
          k in keys && k in tm && terms[i].docs == DocsBelow(tm[k], n))
    && (forall k | k in keys :: exists i | 0 <= i < |terms| :: k == (terms[i].fieldNum, terms[i].text))
    && (forall i, j | 0 <= i < j < |terms| :: (terms[i].fieldNum, terms[i].text) != (terms[j].fieldNum, terms[j].text))
  }

  method CollectTerms(tm: TermMap, n: nat) returns (terms: seq<TermDictWriter.Term>)
    ensures Lists(terms, tm.Keys, tm, n)
  {
    terms := [];
    var keys := tm.Keys;
    while keys != {}
      invariant keys <= tm.Keys && Lists(terms, tm.Keys - keys, tm, n)
      decreases |keys|
    {
      var k :| k in keys;
      var t := TermDictWriter.Term(k.0, k.1, DocsBelow(tm[k], n));
      ListsStep(terms, tm.Keys - keys, tm, n, t);
      assert tm.Keys - (keys - {k}) == tm.Keys - keys + {k};
      terms, keys := terms + [t], keys - {k};
    }
    assert tm.Keys - {} == tm.Keys;
  }

  lemma {:induction false} ListsStep(terms: seq<TermDictWriter.Term>, keys: set<TermKey>, tm: TermMap, n: nat, t: TermDictWriter.Term)
    requires Lists(terms, keys, tm, n) && (t.fieldNum, t.text) !in keys && (t.fieldNum, t.text) in tm
    requires t.docs == DocsBelow(tm[(t.fieldNum, t.text)], n)
    ensures Lists(terms + [t], keys + {(t.fieldNum, t.text)}, tm, n)
  {
    hide DocsBelow;
    var all := terms + [t];
    forall k | k in keys + {(t.fieldNum, t.text)} ensures exists i | 0 <= i < |all| :: k == (all[i].fieldNum, all[i].text) {
      if k in keys {
        var i :| 0 <= i < |terms| && k == (terms[i].fieldNum, terms[i].text);
        assert all[i] == terms[i];
      } else {
        assert all[|terms|] == t;
      }
    }
  }

  /** The terms list exactly the occurrences in the documents, each term once, in canonical order. */
  ghost predicate TermsAre(terms: seq<TermDictWriter.Term>, names: seq<string>, docs: seq<Doc>, analyze: string -> seq<string>) {
    && Ascends(TermOrder(names), terms)
    && (forall i | 0 <= i < |terms| ::
          var t := terms[i];
          t.fieldNum < |names| && t.docs != [] && t.docs == PostingsOf(docs, |docs|, names[t.fieldNum], t.text, analyze))
    && (forall num: nat, text | num < |names| && PostingsOf(docs, |docs|, names[num], text, analyze) != [] ::
          exists i | 0 <= i < |terms| :: terms[i].fieldNum == num && terms[i].text == text)
  }

  /** Norm columns: one length per document for an indexed field, nothing otherwise. */
  ghost predicate NormsAre(norms: seq<seq<Option<nat>>>, fields: seq<FieldMeta>, docs: seq<Doc>, analyze: string -> seq<string>) {
    && |norms| == |fields|
    && forall n | 0 <= n < |fields| ::
         if fields[n].indexed
         then |norms[n]| == |docs| && forall d | 0 <= d < |docs| :: norms[n][d] == LengthIn(docs[d].fields, fields[n].name, analyze)
         else norms[n] == []
  }

  /** Inversion loses and invents nothing. */
  ghost predicate Inverts(inv: Inverted, docs: seq<Doc>, analyze: string -> seq<string>) {
    && inv.docCount == |docs|
    && Names(inv.fields) == FirstSeen(Flatten(docs))
    && (forall n | 0 <= n < |inv.fields| :: inv.fields[n].indexed <==> IsIndexed(Flatten(docs), inv.fields[n].name))
    && TermsAre(inv.terms, Names(inv.fields), docs, analyze)
    && NormsAre(inv.normLengths, inv.fields, docs, analyze)
    && StoredHold(inv.stored, Names(inv.fields), FieldsOf(docs))
  }

  method Invert(docs: seq<Doc>, analyze: string -> seq<string>) returns (inv: Inverted)
    ensures Inverts(inv, docs, analyze)
  {
    hide Holds, Lists, TermsAre, NormsAre, StoredHold, Sort, TermOrder, FirstSeen, IsIndexed;
    var a := Accumulate(docs, analyze);
    var terms := CollectTerms(a.tm, |docs|);
    ListedAre(a, terms, docs, analyze);
    terms := Sort(TermOrder(Names(a.fields)), terms);
    var norms := NormColumns(a, docs, analyze);
    HeldNames(a, docs, analyze);
    return Inverted(a.fields, terms, norms, a.stored, |docs|);
  }

  /** What the state says of the fields and the stored values. */
  lemma {:induction false} HeldNames(a: Acc, docs: seq<Doc>, analyze: string -> seq<string>)
    requires Holds(a, FieldsOf(docs), Flatten(docs), analyze)
    ensures Names(a.fields) == FirstSeen(Flatten(docs)) && StoredHold(a.stored, Names(a.fields), FieldsOf(docs))
    ensures forall n | 0 <= n < |a.fields| :: a.fields[n].indexed <==> IsIndexed(Flatten(docs), a.fields[n].name)
  {
    hide TermsHold, LengthsHold, StoredHold, FirstSeen, IsIndexed;
  }

  /** One column of lengths per field. */
  method NormColumns(a: Acc, docs: seq<Doc>, analyze: string -> seq<string>) returns (norms: seq<seq<Option<nat>>>)
    requires Holds(a, FieldsOf(docs), Flatten(docs), analyze)
    ensures NormsAre(norms, a.fields, docs, analyze)
  {
    hide TermsHold, LengthsHold, StoredHold, NamesHold, LengthIn;
    norms := [];
    for n := 0 to |a.fields|
      invariant |norms| == n
      invariant NormsAre(norms, a.fields[..n], docs, analyze)
    {
      var col := if a.fields[n].indexed then seq(|docs|, d requires 0 <= d < |docs| => LengthOf(a.lengths, n, d)) else [];
      ColumnIs(a.lengths, Names(a.fields), n, docs, analyze);
      norms := norms + [col];
    }
    assert a.fields[..|a.fields|] == a.fields;
  }

  lemma {:induction false} ColumnIs(lengths: map<(nat, nat), nat>, names: seq<string>, n: nat, docs: seq<Doc>, analyze: string -> seq<string>)
    requires LengthsHold(lengths, names, FieldsOf(docs), analyze) && n < |names|
    ensures forall d: nat | d < |docs| :: LengthOf(lengths, n, d) == LengthIn(docs[d].fields, names[n], analyze)
  {
  }

  /** Sorting the collected terms gives the canonical list. */
  lemma {:induction false} ListedAre(a: Acc, terms: seq<TermDictWriter.Term>, docs: seq<Doc>, analyze: string -> seq<string>)
    requires Holds(a, FieldsOf(docs), Flatten(docs), analyze) && Lists(terms, a.tm.Keys, a.tm, |docs|)
    ensures TermsAre(Sort(TermOrder(Names(a.fields)), terms), Names(a.fields), docs, analyze)
  {
    hide PostingsOf, TermsHold, LengthsHold, StoredHold, Lists, TermOrder;
    var names, sorted := Names(a.fields), Sort(TermOrder(Names(a.fields)), terms);
    NamesDiffer(a.index, a.fields, Flatten(docs));
    ListedDiffer(terms, a.tm, names, docs, analyze);
    SameElements(sorted, terms);
    forall i | 0 <= i < |sorted|
      ensures sorted[i].fieldNum < |names| && sorted[i].docs != []
      ensures sorted[i].docs == PostingsOf(docs, |docs|, names[sorted[i].fieldNum], sorted[i].text, analyze)
    {
      ListedSound(terms, a.tm, names, docs, analyze, IndexOf(terms, sorted[i]));
    }
    forall num: nat, text | num < |names| && PostingsOf(docs, |docs|, names[num], text, analyze) != []
      ensures exists i | 0 <= i < |sorted| :: sorted[i].fieldNum == num && sorted[i].text == text
    {
      var j := ListedComplete(terms, a.tm, names, docs, analyze, num, text);
      var i := IndexOf(sorted, terms[j]);
    }
  }

  lemma {:induction false} ListedDiffer(terms: seq<TermDictWriter.Term>, tm: TermMap, names: seq<string>, docs: seq<Doc>, analyze: string -> seq<string>)
    requires TermsHold(tm, names, FieldsOf(docs), analyze) && Lists(terms, tm.Keys, tm, |docs|)
    requires forall i, j | 0 <= i < j < |names| :: names[i] != names[j]
    ensures Ascends(TermOrder(names), Sort(TermOrder(names), terms))
  {
    hide DocsBelow, PositionsIn, KeyLess, Get, Tidy;
    TermOrderStrict(names);
    forall i, j | 0 <= i < j < |terms|
      ensures TermOrder(names)(terms[i], terms[j]) || TermOrder(names)(terms[j], terms[i])
    {
      var ki, kj := (terms[i].fieldNum, terms[i].text), (terms[j].fieldNum, terms[j].text);
      assert ki in tm && kj in tm && ki != kj;
      KeyTotal(KeyOf(names, terms[i]), KeyOf(names, terms[j]));
    }
    SortAscends(TermOrder(names), terms);
  }

  lemma {:induction false} ListedSound(terms: seq<TermDictWriter.Term>, tm: TermMap, names: seq<string>, docs: seq<Doc>, analyze: string -> seq<string>, j: nat)
    requires TermsHold(tm, names, FieldsOf(docs), analyze) && Lists(terms, tm.Keys, tm, |docs|) && j < |terms|
    ensures var t := terms[j];
            t.fieldNum < |names| && t.docs != [] && t.docs == PostingsOf(docs, |docs|, names[t.fieldNum], t.text, analyze)
  {
    hide DocsBelow, PositionsIn, PostingsOf, Get, Tidy;
    var k := (terms[j].fieldNum, terms[j].text);
    DocsAre(tm, k, docs, |docs|, names, analyze);
    HeldSomewhere(tm, k, docs, names, analyze);
  }

  lemma {:induction false} ListedComplete(terms: seq<TermDictWriter.Term>, tm: TermMap, names: seq<string>, docs: seq<Doc>, analyze: string -> seq<string>,
                       num: nat, text: string) returns (j: nat)
    requires TermsHold(tm, names, FieldsOf(docs), analyze) && Lists(terms, tm.Keys, tm, |docs|)
    requires num < |names| && PostingsOf(docs, |docs|, names[num], text, analyze) != []
    ensures j < |terms| && terms[j].fieldNum == num && terms[j].text == text
  {
    hide DocsBelow, PositionsIn, PostingsOf, Get, Tidy;
    PostingsNonEmpty(docs, |docs|, names[num], text, analyze);
    var d: nat :| d < |docs| && PositionsIn(docs[d].fields, names[num], text, analyze) != [];
    var k: TermKey := (num, text);
    assert Get(tm, k, d) == PositionsIn(FieldsOf(docs)[d], names[k.0], k.1, analyze);
    UnseenGet(tm, k, d);
    assert k in tm.Keys;
    j :| 0 <= j < |terms| && k == (terms[j].fieldNum, terms[j].text);
  }

  lemma {:induction false} SomeDoc(tm: TermMap, k: TermKey) returns (d: nat)
    requires Tidy(tm) && k in tm
    ensures Get(tm, k, d) != []
  {
    d :| d in tm[k];
  }

  lemma {:induction false} HeldSomewhere(tm: TermMap, k: TermKey, docs: seq<Doc>, names: seq<string>, analyze: string -> seq<string>)
    requires TermsHold(tm, names, FieldsOf(docs), analyze) && k in tm && k.0 < |names|
    ensures PostingsOf(docs, |docs|, names[k.0], k.1, analyze) != []
  {
    hide PositionsIn, PostingsOf, Get, Tidy;
    PostingsNonEmpty(docs, |docs|, names[k.0], k.1, analyze);
    var d := SomeDoc(tm, k);
    assert Get(tm, k, d) == PositionsIn(FieldsOf(docs)[d], names[k.0], k.1, analyze);
  }
}
