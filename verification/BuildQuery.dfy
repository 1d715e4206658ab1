/** `build_query`: the boolean query of a host search, from free text or a boolean tree, `where` groups
    and `in` groups. */
module QueryBuilder {
  import opened Wrappers
  import opened Scoring
  import opened Queries
  import opened BoolTrees

  datatype WhereGroup = WhereGroup(field: string, values: seq<string>, occur: Occur)

  datatype InGroup = InGroup(field: string, values: seq<string>)

  datatype Params = Params(text: string, tree: Option<BoolNode>, whereGroups: seq<WhereGroup>, inGroups: seq<InGroup>)

  /** Unicode's White_Space property. */
  predicate IsWhitespace(c: char) {
    var n := c as int;
    9 <= n <= 13 || n in {0x20, 0x85, 0xA0, 0x1680, 0x2028, 0x2029, 0x202F, 0x205F, 0x3000} || 0x2000 <= n <= 0x200A
  }

  /** `s.trim().is_empty()` */
  predicate Blank(s: string) {
    forall i | 0 <= i < |s| :: IsWhitespace(s[i])
  }

  /** The 25 characters of the property, one by one. */
  lemma {:induction false} WhitespaceIs(c: char)
    ensures IsWhitespace(c) <==>
            c as int in {9, 10, 11, 12, 13, 0x20, 0x85, 0xA0, 0x1680, 0x2000, 0x2001, 0x2002, 0x2003, 0x2004, 0x2005, 0x2006, 0x2007,
                         0x2008, 0x2009, 0x200A, 0x2028, 0x2029, 0x202F, 0x205F, 0x3000}
  {
    var n := c as int;
    assert 0x2000 <= n <= 0x200A <==> n in {0x2000, 0x2001, 0x2002, 0x2003, 0x2004, 0x2005, 0x2006, 0x2007, 0x2008, 0x2009, 0x200A};
    assert 9 <= n <= 13 <==> n in {9, 10, 11, 12, 13};
  }

  /** `trim_start`, then `trim_end`. */
  function TrimStart(s: string): string {
    if s != [] && IsWhitespace(s[0]) then TrimStart(s[1..]) else s
  }

  function TrimEnd(s: string): string {
    if s != [] && IsWhitespace(s[|s| - 1]) then TrimEnd(s[..|s| - 1]) else s
  }

  /** Blank is what trimming leaves nothing of. */
  lemma {:induction false} BlankIsTrimmedAway(s: string)
    ensures Blank(s) <==> TrimEnd(TrimStart(s)) == ""
  {
    hide IsWhitespace;
    if s == "" || !IsWhitespace(s[0]) {
      EndKept(s);
    } else {
      BlankIsTrimmedAway(s[1..]);
      assert s == [s[0]] + s[1..];
    }
  }

  lemma {:induction false} EndKept(s: string)
    requires s != "" ==> !IsWhitespace(s[0])
    ensures s != "" ==> TrimEnd(s) != ""
    decreases |s|
  {
    hide IsWhitespace;
    if s != "" && IsWhitespace(s[|s| - 1]) {
      EndKept(s[..|s| - 1]);
    }
  }

  predicate Contains(s: string, sub: string) {
    sub <= s || (s != [] && Contains(s[1..], sub))
  }

  /** An `in` field gets the suffix only when it does not hold it already. */
  function KeyFieldIn(field: string): string {
    if Contains(field, "_key") then field else field + "_key"
  }

  predicate StandsAt(s: string, i: nat, sub: string) {
    i + |sub| <= |s| && s[i..i + |sub|] == sub
  }

  /** The suffix stands somewhere in the name. */
  ghost predicate HoldsKey(field: string) {
    exists i: nat :: StandsAt(field, i, "_key")
  }

  /** `key` is the field an `in` group on `field` filters on. */
  ghost predicate IsKeyField(field: string, key: string) {
    if HoldsKey(field) then key == field else key == field + "_key"
  }

  lemma {:induction false} ContainsSlice(s: string, sub: string)
    ensures Contains(s, sub) <==> exists i: nat :: StandsAt(s, i, sub)
  {
    if sub <= s {
      assert StandsAt(s, 0, sub);
    } else {
      assert !StandsAt(s, 0, sub);
      if s != [] {
        ContainsSlice(s[1..], sub);
        forall i: nat | i > 0 ensures StandsAt(s, i, sub) <==> StandsAt(s[1..], i - 1, sub) {
          if i + |sub| <= |s| {
            assert s[1..][i - 1..i - 1 + |sub|] == s[i..i + |sub|];
          }
        }
        if i: nat :| StandsAt(s[1..], i, sub) {
          assert StandsAt(s, i + 1, sub);
        }
      }
    }
  }

  /** The field filtered on holds the suffix; it is the name itself exactly when that holds it already. */
  lemma {:induction false} KeyFieldIs(field: string)
    ensures IsKeyField(field, KeyFieldIn(field)) && HoldsKey(KeyFieldIn(field))
    ensures KeyFieldIn(field) == field <==> HoldsKey(field)
    ensures forall key: string | IsKeyField(field, key) :: key == KeyFieldIn(field)
  {
    hide Contains;
    ContainsSlice(field, "_key");
    var key := field + "_key";
    assert StandsAt(key, |field|, "_key");
  }

  predicate BlankField(p: Params) {
    || (exists i | 0 <= i < |p.whereGroups| :: Blank(p.whereGroups[i].field))
    || (exists i | 0 <= i < |p.inGroups| :: Blank(p.inGroups[i].field))
  }

  /** The root only negates: its negations are moved beside everything else. */
  predicate Hoists(n: BoolNode) {
    match Stripped(n)
    case Not(_) => true
    case And(cs) => cs != [] && forall i | 0 <= i < |cs| :: Negated(cs[i])
    case _ => false
  }

  /** What a root that only negates excludes. */
  function Excluded(n: BoolNode): (r: seq<BoolNode>)
    requires Hoists(n)
  {
    match Stripped(n)
    case Not(x) => [x]
    case And(cs) => seq(|cs|, i requires 0 <= i < |cs| => Core(cs[i]))
  }

  datatype Builder<!S(!new)> = Builder(compiler: Compiler<S>, textSubquery: string -> Query<S>) {

    function E(): Env<S> {
      compiler.env
    }

    ghost predicate HoldsWhere(g: WhereGroup, d: nat) {
      exists i | 0 <= i < |g.values| :: E().Matches(Term(Some(g.field + "_key"), g.values[i]), d)
    }

    /** The document has one of the group's values in the group's key field. */
    ghost predicate HasValue(g: InGroup, d: nat) {
      exists i, key | 0 <= i < |g.values| && IsKeyField(g.field, key) :: E().Matches(Term(Some(key), g.values[i]), d)
    }

    /** All `in` groups make one disjunction. */
    ghost predicate HoldsIn(groups: seq<InGroup>, d: nat) {
      exists g | 0 <= g < |groups| :: HasValue(groups[g], d)
    }

    /** The tree, or failing a tree the text. */
    ghost predicate HoldsBody(p: Params, d: nat) {
      match p.tree
      case Some(n) =>
        if Hoists(n) then forall i | 0 <= i < |Excluded(n)| :: !Selects(Excluded(n)[i], compiler.HoldsAt(d))
        else Selects(n, compiler.HoldsAt(d))
      case None => Blank(p.text) || E().Matches(textSubquery(p.text), d)
    }

    /** Something must match. */
    predicate Requires(p: Params) {
      || (if p.tree.Some? then !Hoists(p.tree.value) else !Blank(p.text))
      || (exists i | 0 <= i < |p.whereGroups| :: p.whereGroups[i].occur.Must?)
      || p.inGroups != []
    }

    /** The documents a host search is for. */
    ghost predicate Selected(p: Params, d: nat) {
      && HoldsBody(p, d)
      && (forall i | 0 <= i < |p.whereGroups| && p.whereGroups[i].occur.Must? :: HoldsWhere(p.whereGroups[i], d))
      && (forall i | 0 <= i < |p.whereGroups| && p.whereGroups[i].occur.MustNot? :: !HoldsWhere(p.whereGroups[i], d))
      && (p.inGroups != [] ==> HoldsIn(p.inGroups, d))
      && (!Requires(p) ==>
            if exists i | 0 <= i < |p.whereGroups| :: p.whereGroups[i].occur.Should?
            then exists i | 0 <= i < |p.whereGroups| && p.whereGroups[i].occur.Should? :: HoldsWhere(p.whereGroups[i], d)
            else E().Sc().Live(d))
    }

    // ----- the clauses, part by part -----

    function ShouldTerms(field: string, values: seq<string>): (cs: seq<Clause<S>>)
      ensures |cs| == |values| && forall i | 0 <= i < |cs| :: cs[i] == Clause(Should, Term(Some(field), values[i]))
    {
      seq(|values|, i requires 0 <= i < |values| => Clause(Should, Term(Some(field), values[i])))
    }

    function WhereClauses(groups: seq<WhereGroup>): (cs: seq<Clause<S>>)
      ensures |cs| == |groups|
      ensures forall i | 0 <= i < |cs| :: cs[i] == Clause(groups[i].occur, Boolean(ShouldTerms(groups[i].field + "_key", groups[i].values)))
    {
      seq(|groups|, i requires 0 <= i < |groups| => Clause(groups[i].occur, Boolean(ShouldTerms(groups[i].field + "_key", groups[i].values))))
    }

    function InTerms(groups: seq<InGroup>): seq<Clause<S>> {
      if groups == [] then []
      else
        var g := groups[|groups| - 1];
        InTerms(groups[..|groups| - 1]) + ShouldTerms(KeyFieldIn(g.field), g.values)
    }

    function BodyClauses(p: Params): Built<seq<Clause<S>>> {
      match p.tree
      case Some(n) =>
        var q :- compiler.Compiled(n, 0);
        Built(if q.Boolean? && q.clauses != [] && (forall i | 0 <= i < |q.clauses| :: q.clauses[i].occur.MustNot?)
              then q.clauses else [Clause(Must, q)])
      case None => Built(if Blank(p.text) then [] else [Clause(Must, textSubquery(p.text))])
    }

    /** Everything before the base clause. */
    function Narrowing(p: Params): seq<Clause<S>>
      requires BodyClauses(p).Built?
    {
      BodyClauses(p).value + WhereClauses(p.whereGroups) + (if p.inGroups == [] then [] else [Clause(Must, Boolean(InTerms(p.inGroups)))])
    }

    /** The query: everything that narrows, or the live documents where nothing does. */
    function Whole(p: Params): Query<S>
      requires BodyClauses(p).Built?
    {
      var top := Narrowing(p);
      Boolean(if exists i | 0 <= i < |top| :: top[i].occur.Must? || top[i].occur.Should? then top else top + [Clause(Must, MatchAll)])
    }

    // ----- the builder -----

    /** The tree when there is one, else the text. */
    method Body(p: Params) returns (top: Built<seq<Clause<S>>>)
      ensures top == BodyClauses(p)
      ensures top == Refused(TreeTooDeep) || top.Built?
      ensures top.Refused? <==> TooDeep(p)
      ensures top.Built? ==> forall d: nat ::
                AllMatch(top.value, Must, d) && !SomeMatches(top.value, MustNot, d) <==> HoldsBody(p, d)
    {
      hide Compiler.Compiled, Blank, AllMatch, SomeMatches, HoldsBody, Has, Hoists, TooDeep, Env.Score, Env.Matches;
      BodyFails(p);
      if BodyClauses(p).Built? {
        forall d: nat ensures AllMatch(BodyClauses(p).value, Must, d) && !SomeMatches(BodyClauses(p).value, MustNot, d) <==> HoldsBody(p, d) {
          BodyMatches(p, d);
        }
      }
      if p.tree.Some? {
        var q :- compiler.MapBoolNode(p.tree.value, 0);
        if q.Boolean? && q.clauses != [] && forall i | 0 <= i < |q.clauses| :: q.clauses[i].occur.MustNot? {
          return Built(q.clauses);
        }
        return Built([Clause(Must, q)]);
      }
      if !Blank(p.text) {
        return Built([Clause(Must, textSubquery(p.text))]);
      }
      return Built([]);
    }

    method Wheres(groups: seq<WhereGroup>) returns (r: Built<seq<Clause<S>>>)
      ensures r == if exists i | 0 <= i < |groups| :: Blank(groups[i].field) then Refused(EmptyField) else Built(WhereClauses(groups))
    {
      hide Blank;
      var top := [];
      for k := 0 to |groups|
        invariant top == WhereClauses(groups[..k])
        invariant forall i | 0 <= i < k :: !Blank(groups[i].field)
      {
        var wg := groups[k];
        if Blank(wg.field) {
          return Refused(EmptyField);
        }
        top := top + [Clause(wg.occur, Boolean(ShouldTerms(wg.field + "_key", wg.values)))];
      }
      assert groups[..|groups|] == groups;
      return Built(top);
    }

    method Ins(groups: seq<InGroup>) returns (r: Built<seq<Clause<S>>>)
      ensures r == if exists i | 0 <= i < |groups| :: Blank(groups[i].field) then Refused(EmptyField) else Built(InTerms(groups))
    {
      hide Blank, KeyFieldIn;
      var inClauses := [];
      assert groups[..0] == [];
      for k := 0 to |groups|
        invariant inClauses == InTerms(groups[..k])
        invariant forall i | 0 <= i < k :: !Blank(groups[i].field)
      {
        var ig := groups[k];
        if Blank(ig.field) {
          return Refused(EmptyField);
        }
        assert groups[..k + 1][..k] == groups[..k];
        var field := KeyFieldIn(ig.field);
        ghost var before := inClauses;
        for j := 0 to |ig.values|
          invariant inClauses == before + ShouldTerms(field, ig.values[..j])
        {
          inClauses := inClauses + [Clause(Should, Term(Some(field), ig.values[j]))];
        }
        assert ig.values[..|ig.values|] == ig.values;
      }
      assert groups[..|groups|] == groups;
      return Built(inClauses);
    }

    /** Fails exactly on a tree that nests too deep or a blank field name, the tree first; otherwise
        the query matches exactly the selected documents. */
    method BuildQuery(p: Params) returns (r: Built<Query<S>>)
      ensures r.Refused? <==> TooDeep(p) || BlankField(p)
      ensures r.Refused? ==> r.error == if TooDeep(p) then TreeTooDeep else EmptyField
      ensures r.Built? ==> forall d: nat :: E().Matches(r.value, d) <==> Selected(p, d)
      ensures r.Built? ==> forall ok: S -> bool | BoostsAre(textSubquery(p.text), ok) :: BoostsAre(r.value, ok)
      ensures r.Built? ==> BodyClauses(p).Built? && r.value == Whole(p)
    {
      hide Compiler.Compiled, Nesting, Blank, Selected, Env.Matches, BodyClauses, InTerms, WhereClauses;
      BodyFails(p);
      var top :- Body(p);
      var wheres :- Wheres(p.whereGroups);
      top := top + wheres;
      var ins :- Ins(p.inGroups);
      if p.inGroups != [] {
        top := top + [Clause(Must, Boolean(ins))];
      } else {
        assert top + [] == top;
      }
      assert top == Narrowing(p);
      if !exists i | 0 <= i < |top| :: top[i].occur.Must? || top[i].occur.Should? {
        top := top + [Clause(Must, MatchAll)];
      }
      forall d: nat ensures E().Matches(Boolean(top), d) <==> Selected(p, d) {
        TopMatches(p, d);
      }
      forall ok: S -> bool | BoostsAre(textSubquery(p.text), ok) ensures BoostsAre(Boolean(top), ok) {
        TopBoosts(p, ok);
      }
      return Built(Boolean(top));
    }

    /** Only the free text's synonyms are boosted. */
    lemma {:induction false} TopBoosts(p: Params, ok: S -> bool)
      requires BodyClauses(p).Built? && BoostsAre(textSubquery(p.text), ok)
      ensures BoostsAre(Boolean(Narrowing(p)), ok) && BoostsAre(Boolean(Narrowing(p) + [Clause(Must, MatchAll)]), ok)
    {
      hide Compiler.Compiled, Blank;
      var body, ins := BodyClauses(p).value, InTerms(p.inGroups);
      if p.tree.Some? {
        compiler.CompiledBoosts(p.tree.value, 0, ok);
      }
      InBoosts(p.inGroups, ok);
      assert forall i | 0 <= i < |body| :: BoostsAre(body[i].query, ok);
      var top := Narrowing(p);
      forall i | 0 <= i < |top| ensures BoostsAre(top[i].query, ok) {
      }
    }

    lemma {:induction false} WholeBoosts(p: Params, ok: S -> bool)
      requires BodyClauses(p).Built? && BoostsAre(textSubquery(p.text), ok)
      ensures BoostsAre(Whole(p), ok)
    {
      hide BodyClauses, Narrowing, BoostsAre;
      TopBoosts(p, ok);
    }

    lemma {:induction false} InBoosts(groups: seq<InGroup>, ok: S -> bool)
      ensures forall i | 0 <= i < |InTerms(groups)| :: BoostsAre(InTerms(groups)[i].query, ok)
    {
      if groups != [] {
        InBoosts(groups[..|groups| - 1], ok);
      }
    }

    predicate TooDeep(p: Params) {
      p.tree.Some? && Nesting(p.tree.value) > 32
    }

    lemma {:induction false} BodyFails(p: Params)
      ensures BodyClauses(p) == Refused(TreeTooDeep) || BodyClauses(p).Built?
      ensures BodyClauses(p).Refused? <==> TooDeep(p)
    {
      hide Compiler.Compiled, Nesting, Blank;
      if p.tree.Some? {
        compiler.FailsWhenTooDeep(p.tree.value, 0);
      }
    }

    // ----- why the clauses select what they should -----

    ghost predicate Has(cs: seq<Clause<S>>, o: Occur) {
      exists i | 0 <= i < |cs| :: cs[i].occur == o
    }

    ghost predicate AllMatch(cs: seq<Clause<S>>, o: Occur, d: nat) {
      forall i | 0 <= i < |cs| && cs[i].occur == o :: E().Matches(cs[i].query, d)
    }

    ghost predicate SomeMatches(cs: seq<Clause<S>>, o: Occur, d: nat) {
      exists i | 0 <= i < |cs| && cs[i].occur == o :: E().Matches(cs[i].query, d)
    }

    ghost predicate ClausesMatch(cs: seq<Clause<S>>, d: nat) {
      !SomeMatches(cs, MustNot, d) && if Has(cs, Must) then AllMatch(cs, Must, d) else SomeMatches(cs, Should, d)
    }

    lemma {:induction false} ClausesDecide(cs: seq<Clause<S>>, d: nat)
      ensures E().Matches(Boolean(cs), d) <==> ClausesMatch(cs, d)
    {
      hide Env.Score, Env.Matches;
      E().BooleanMatches(cs, d);
    }

    lemma {:induction false} Joins(a: seq<Clause<S>>, b: seq<Clause<S>>, o: Occur, d: nat)
      ensures Has(a + b, o) <==> Has(a, o) || Has(b, o)
      ensures AllMatch(a + b, o, d) <==> AllMatch(a, o, d) && AllMatch(b, o, d)
      ensures SomeMatches(a + b, o, d) <==> SomeMatches(a, o, d) || SomeMatches(b, o, d)
    {
      hide Env.Score, Env.Matches;
      assert forall i | 0 <= i < |a| :: (a + b)[i] == a[i];
      assert forall i | 0 <= i < |b| :: (a + b)[|a| + i] == b[i];
    }

    lemma {:induction false} ShouldTermsMatch(field: string, values: seq<string>, d: nat)
      ensures var cs := ShouldTerms(field, values);
              && !Has(cs, Must) && !SomeMatches(cs, MustNot, d)
              && (SomeMatches(cs, Should, d) <==> exists i | 0 <= i < |values| :: E().Matches(Term(Some(field), values[i]), d))
    {
      hide Env.Score, Env.Matches;
      var cs := ShouldTerms(field, values);
      assert forall i | 0 <= i < |values| :: cs[i].query == Term(Some(field), values[i]);
    }

    /** A group of alternatives matches when one of them does. */
    lemma {:induction false} WhereMatches(g: WhereGroup, d: nat)
      ensures E().Matches(Boolean(ShouldTerms(g.field + "_key", g.values)), d) <==> HoldsWhere(g, d)
    {
      hide Env.Score, Env.Matches, Has, SomeMatches, AllMatch;
      ShouldTermsMatch(g.field + "_key", g.values, d);
      ClausesDecide(ShouldTerms(g.field + "_key", g.values), d);
    }

    lemma {:induction false} WheresMatch(groups: seq<WhereGroup>, d: nat)
      ensures var cs := WhereClauses(groups);
              && (forall o :: Has(cs, o) <==> exists i | 0 <= i < |groups| :: groups[i].occur == o)
              && (forall o :: AllMatch(cs, o, d) <==> forall i | 0 <= i < |groups| && groups[i].occur == o :: HoldsWhere(groups[i], d))
              && (forall o :: SomeMatches(cs, o, d) <==> exists i | 0 <= i < |groups| && groups[i].occur == o :: HoldsWhere(groups[i], d))
    {
      hide Env.Score, Env.Matches, HoldsWhere;
      var cs := WhereClauses(groups);
      forall i | 0 <= i < |groups| ensures cs[i].occur == groups[i].occur && (E().Matches(cs[i].query, d) <==> HoldsWhere(groups[i], d)) {
        WhereMatches(groups[i], d);
      }
    }

    lemma {:induction false} InTermsMatch(groups: seq<InGroup>, d: nat)
      ensures var cs := InTerms(groups);
              !Has(cs, Must) && !SomeMatches(cs, MustNot, d) && (SomeMatches(cs, Should, d) <==> HoldsIn(groups, d))
    {
      hide Env.Score, Env.Matches, Has, SomeMatches, AllMatch, HoldsIn, KeyFieldIn, IsKeyField;
      if groups == [] {
        NoGroups(d);
      } else {
        var before, g := groups[..|groups| - 1], groups[|groups| - 1];
        InTermsMatch(before, d);
        ShouldTermsMatch(KeyFieldIn(g.field), g.values, d);
        Joins(InTerms(before), ShouldTerms(KeyFieldIn(g.field), g.values), Must, d);
        Joins(InTerms(before), ShouldTerms(KeyFieldIn(g.field), g.values), MustNot, d);
        Joins(InTerms(before), ShouldTerms(KeyFieldIn(g.field), g.values), Should, d);
        OneGroupMore(groups, d);
      }
    }

    lemma {:induction false} NoGroups(d: nat)
      ensures !Has([], Must) && !SomeMatches([], MustNot, d) && !SomeMatches([], Should, d) && !HoldsIn([], d)
    {
    }

    lemma {:induction false} OneGroupMore(groups: seq<InGroup>, d: nat)
      requires groups != []
      ensures var n := |groups| - 1;
              var last := exists i | 0 <= i < |groups[n].values| :: E().Matches(Term(Some(KeyFieldIn(groups[n].field)), groups[n].values[i]), d);
              HoldsIn(groups, d) <==> HoldsIn(groups[..n], d) || last
    {
      hide Env.Score, Env.Matches, KeyFieldIn, IsKeyField, HoldsKey;
      var n := |groups| - 1;
      assert forall g | 0 <= g < n :: groups[..n][g] == groups[g];
      KeyFieldIs(groups[n].field);
    }

    /** One `in` group and nothing else: the documents with one of its values in the field, whose name
        gets the suffix unless it holds it. */
    lemma {:induction false} OneInGroup(g: InGroup, d: nat)
      ensures var p := Params("", None, [], [g]);
              Selected(p, d) <==>
                exists i | 0 <= i < |g.values| ::
                  E().Matches(Term(Some(if exists j: nat :: StandsAt(g.field, j, "_key") then g.field else g.field + "_key"), g.values[i]), d)
    {
      hide Env.Score, Env.Matches;
      var p := Params("", None, [], [g]);
      assert p.inGroups[0] == g;
      var key := if HoldsKey(g.field) then g.field else g.field + "_key";
      assert IsKeyField(g.field, key);
      assert HasValue(g, d) <==> exists i | 0 <= i < |g.values| :: E().Matches(Term(Some(key), g.values[i]), d);
      assert HoldsIn([g], d) <==> HasValue(g, d);
    }

    /** A single required clause. */
    lemma {:induction false} OneMust(q: Query<S>, d: nat)
      ensures var cs := [Clause(Must, q)];
              && Has(cs, Must) && !Has(cs, Should) && !SomeMatches(cs, MustNot, d) && !SomeMatches(cs, Should, d)
              && (AllMatch(cs, Must, d) <==> E().Matches(q, d))
    {
      hide Env.Score, Env.Matches;
      var cs := [Clause(Must, q)];
      assert cs[0].occur == Must;
    }

    lemma {:induction false} NothingMatches(d: nat)
      ensures !Has([], Must) && !Has([], Should) && !SomeMatches([], MustNot, d) && !SomeMatches([], Should, d) && AllMatch([], Must, d)
    {
    }

    /** A root that only negates compiles to its exclusions, any other root to one query. */
    lemma {:induction false} TreeMatches(n: BoolNode, d: nat)
      requires compiler.Compiled(n, 0).Built?
      ensures var q := compiler.Compiled(n, 0).value;
              && (Hoists(n) <==> q.Boolean? && q.clauses != [] && forall i | 0 <= i < |q.clauses| :: q.clauses[i].occur.MustNot?)
              && (Hoists(n) ==> SomeMatches(q.clauses, MustNot, d) == exists i | 0 <= i < |Excluded(n)| :: Selects(Excluded(n)[i], compiler.HoldsAt(d)))
    {
      hide Env.Score, Env.Matches, Compiler.CompiledAll, Compiler.HoldsAt;
      match Stripped(n) {
        case PhraseNode(_) =>
        case Not(x) =>
          compiler.CompiledSelects(x, 1, d);
          var c := Clause(MustNot, compiler.Compiled(x, 1).value);
          assert [c][0] == c && Excluded(n)[0] == x;
        case And(cs) =>
          TreeClauses(cs, true, d);
          var clauses := compiler.CompiledAll(cs, true, 1).value;
          if Hoists(n) {
            ExclusionsMatch(clauses, Excluded(n), d);
          }
        case Or(cs) =>
          TreeClauses(cs, false, d);
          var clauses := compiler.CompiledAll(cs, false, 1).value;
          assert clauses != [] ==> !clauses[0].occur.MustNot?;
      }
    }

    lemma {:induction false} ExclusionsMatch(clauses: seq<Clause<S>>, nodes: seq<BoolNode>, d: nat)
      requires |clauses| == |nodes|
      requires forall i | 0 <= i < |nodes| ::
                 clauses[i].occur.MustNot? && (E().Matches(clauses[i].query, d) <==> Selects(nodes[i], compiler.HoldsAt(d)))
      ensures SomeMatches(clauses, MustNot, d) == exists i | 0 <= i < |nodes| :: Selects(nodes[i], compiler.HoldsAt(d))
    {
      hide Env.Score, Env.Matches, Compiler.HoldsAt, Selects;
    }

    lemma {:induction false} TreeClauses(cs: seq<BoolNode>, isAnd: bool, d: nat)
      requires compiler.CompiledAll(cs, isAnd, 1).Built?
      ensures var clauses := compiler.CompiledAll(cs, isAnd, 1).value;
              && |clauses| == |cs|
              && (forall i | 0 <= i < |cs| :: clauses[i].occur.MustNot? <==> isAnd && Negated(cs[i]))
              && (isAnd ==> forall i | 0 <= i < |cs| :: E().Matches(clauses[i].query, d) <==> Selects(Core(cs[i]), compiler.HoldsAt(d)))
    {
      hide Env.Score, Env.Matches, Compiler.CompiledAll, Compiler.Compiled, Compiler.HoldsAt, Selects;
      compiler.CompiledChildren(cs, isAnd, 1);
      var clauses := compiler.CompiledAll(cs, isAnd, 1).value;
      forall i | 0 <= i < |cs|
        ensures clauses[i].occur.MustNot? <==> isAnd && Negated(cs[i])
        ensures isAnd ==> (E().Matches(clauses[i].query, d) <==> Selects(Core(cs[i]), compiler.HoldsAt(d)))
      {
        assert compiler.CompiledChild(cs[i], isAnd, 1) == Built(clauses[i]);
        if isAnd {
          compiler.CompiledSelects(Core(cs[i]), 1, d);
        }
      }
    }

    lemma {:induction false} BodyMatches(p: Params, d: nat)
      requires BodyClauses(p).Built?
      ensures var b := BodyClauses(p).value;
              && (Has(b, Must) <==> if p.tree.Some? then !Hoists(p.tree.value) else !Blank(p.text))
              && !Has(b, Should) && !SomeMatches(b, Should, d)
              && (AllMatch(b, Must, d) && !SomeMatches(b, MustNot, d) <==> HoldsBody(p, d))
    {
      hide Env.Score, Env.Matches, Compiler.Compiled, Compiler.HoldsAt, Selects, Hoists, Excluded, Blank, Has, SomeMatches, AllMatch;
      NothingMatches(d);
      match p.tree {
        case None => OneMust(textSubquery(p.text), d);
        case Some(n) =>
          var q := compiler.Compiled(n, 0).value;
          TreeMatches(n, d);
          if Hoists(n) {
            OnlyMustNots(q.clauses, d);
          } else {
            compiler.CompiledSelects(n, 0, d);
            OneMust(q, d);
          }
      }
    }

    lemma {:induction false} OnlyMustNots(cs: seq<Clause<S>>, d: nat)
      requires forall i | 0 <= i < |cs| :: cs[i].occur.MustNot?
      ensures !Has(cs, Must) && !Has(cs, Should) && !SomeMatches(cs, Should, d) && AllMatch(cs, Must, d)
    {
      hide Env.Score, Env.Matches;
    }

    lemma {:induction false} TopMatches(p: Params, d: nat)
      requires BodyClauses(p).Built?
      ensures var top := Narrowing(p);
              var based := exists i | 0 <= i < |top| :: top[i].occur.Must? || top[i].occur.Should?;
              E().Matches(Boolean(if based then top else top + [Clause(Must, MatchAll)]), d) <==> Selected(p, d)
    {
      hide Env.Score, Env.Matches, HoldsBody, HoldsWhere, HoldsIn, Has, SomeMatches, AllMatch, BodyClauses, Blank, Hoists;
      var top := Narrowing(p);
      NarrowingMatches(p, d);
      assert (exists i | 0 <= i < |top| :: top[i].occur.Must? || top[i].occur.Should?) <==> Has(top, Must) || Has(top, Should) by {
        EitherSign(top);
      }
      if Has(top, Must) || Has(top, Should) {
        ClausesDecide(top, d);
      } else {
        var base := [Clause(Must, MatchAll)];
        OneMust(MatchAll, d);
        Joins(top, base, Must, d);
        Joins(top, base, MustNot, d);
        ClausesDecide(top + base, d);
        MatchesAll(d);
      }
    }

    lemma {:induction false} EitherSign(cs: seq<Clause<S>>)
      ensures (exists i | 0 <= i < |cs| :: cs[i].occur.Must? || cs[i].occur.Should?) <==> Has(cs, Must) || Has(cs, Should)
    {
    }

    lemma {:induction false} MatchesAll(d: nat)
      ensures E().Matches(MatchAll, d) <==> E().Sc().Live(d)
    {
    }

    lemma {:induction false} NarrowingMatches(p: Params, d: nat)
      requires BodyClauses(p).Built?
      ensures var top := Narrowing(p);
              && (Has(top, Must) <==> Requires(p))
              && (Has(top, Should) <==> exists i | 0 <= i < |p.whereGroups| :: p.whereGroups[i].occur.Should?)
              && (SomeMatches(top, Should, d) <==> exists i | 0 <= i < |p.whereGroups| && p.whereGroups[i].occur.Should? :: HoldsWhere(p.whereGroups[i], d))
              && (AllMatch(top, Must, d) && !SomeMatches(top, MustNot, d) <==>
                    && HoldsBody(p, d)
                    && (forall i | 0 <= i < |p.whereGroups| && p.whereGroups[i].occur.Must? :: HoldsWhere(p.whereGroups[i], d))
                    && (forall i | 0 <= i < |p.whereGroups| && p.whereGroups[i].occur.MustNot? :: !HoldsWhere(p.whereGroups[i], d))
                    && (p.inGroups != [] ==> HoldsIn(p.inGroups, d)))
              && (!Has(top, Must) ==> AllMatch(top, Must, d))
    {
      hide Env.Score, Env.Matches, HoldsBody, HoldsWhere, HoldsIn, Has, SomeMatches, AllMatch, BodyClauses, Blank, Hoists;
      var b, w := BodyClauses(p).value, WhereClauses(p.whereGroups);
      var ins := if p.inGroups == [] then [] else [Clause(Must, Boolean(InTerms(p.inGroups)))];
      BodyMatches(p, d);
      WheresMatch(p.whereGroups, d);
      NothingMatches(d);
      if p.inGroups != [] {
        InTermsMatch(p.inGroups, d);
        ClausesDecide(InTerms(p.inGroups), d);
        OneMust(Boolean(InTerms(p.inGroups)), d);
      }
      Joins(b, w, Must, d);
      Joins(b, w, Should, d);
      Joins(b, w, MustNot, d);
      Joins(b + w, ins, Must, d);
      Joins(b + w, ins, Should, d);
      Joins(b + w, ins, MustNot, d);
      NoMusts(Narrowing(p), d);
    }

    lemma {:induction false} NoMusts(cs: seq<Clause<S>>, d: nat)
      ensures !Has(cs, Must) ==> AllMatch(cs, Must, d)
    {
    }

    /** A tree on its own: guarded, it selects its classical denotation; if its root only negates and what
        it negates is guarded, the live documents that satisfy it. */
    lemma {:induction false} TreeAlone(n: BoolNode, text: string, d: nat)
      ensures var p := Params(text, Some(n), [], []);
              && (Guarded(n) ==> (Selected(p, d) <==> Denotes(n, compiler.HoldsAt(d))))
              && (Hoists(n) && (forall i | 0 <= i < |Excluded(n)| :: Guarded(Excluded(n)[i])) ==>
                    (Selected(p, d) <==> E().Sc().Live(d) && Denotes(n, compiler.HoldsAt(d))))
    {
      hide Env.Score, Env.Matches, Compiler.HoldsAt;
      var holds := compiler.HoldsAt(d);
      if Guarded(n) {
        GuardedSelects(n, holds);
        GuardedStays(n);
      }
      if Hoists(n) && forall i | 0 <= i < |Excluded(n)| :: Guarded(Excluded(n)[i]) {
        ExcludedDenotes(n, holds);
      }
    }

    lemma {:induction false} GuardedStays(n: BoolNode)
      requires Guarded(n)
      ensures !Hoists(n)
    {
    }

    lemma {:induction false} ExcludedDenotes(n: BoolNode, holds: string -> bool)
      requires Hoists(n) && forall i | 0 <= i < |Excluded(n)| :: Guarded(Excluded(n)[i])
      ensures Denotes(n, holds) <==> forall i | 0 <= i < |Excluded(n)| :: !Selects(Excluded(n)[i], holds)
    {
      StrippedDenotes(n, holds);
      forall i | 0 <= i < |Excluded(n)| ensures Selects(Excluded(n)[i], holds) == Denotes(Excluded(n)[i], holds) {
        GuardedSelects(Excluded(n)[i], holds);
      }
      if Stripped(n).And? {
        var cs := Stripped(n).children;
        forall i | 0 <= i < |cs| ensures Denotes(Excluded(n)[i], holds) == !Denotes(cs[i], holds) {
          CoreDenotes(cs[i], holds);
        }
      } else {
        assert Excluded(n)[0] == Stripped(n).inner;
      }
    }
  }
}
