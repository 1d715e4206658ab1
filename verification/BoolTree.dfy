/** Boolean expression trees over phrases, their compilation to queries, and `build_query`. */
module BoolTrees {
  import opened Wrappers
  import opened Scoring
  import opened Queries

  const MAX_TREE_DEPTH: nat := 32

  datatype BoolNode = And(children: seq<BoolNode>) | Or(children: seq<BoolNode>) | Not(inner: BoolNode) | PhraseNode(phrase: string)

  datatype QueryError = EmptyField | TreeTooDeep

  datatype Built<+T> = Built(value: T) | Refused(error: QueryError) {
    predicate IsFailure() {
      Refused?
    }

    function PropagateFailure<U>(): Built<U>
      requires Refused?
    {
      Refused(error)
    }

    function Extract(): T
      requires Built?
    {
      value
    }
  }

  /** The node with double negations cancelled at its root. */
  function Stripped(n: BoolNode): (r: BoolNode)
    ensures r == n || (n decreases to r)
    ensures !(r.Not? && r.inner.Not?)
  {
    if n.Not? && n.inner.Not? then Stripped(n.inner.inner) else n
  }

  method StripDoubleNegation(node: BoolNode) returns (cur: BoolNode)
    ensures cur == Stripped(node)
  {
    cur := node;
    while cur.Not?
      invariant Stripped(cur) == Stripped(node)
      decreases cur
    {
      match cur.inner {
        case Not(x) => cur := x;
        case _ => break;
      }
    }
  }

  predicate Negated(n: BoolNode) {
    Stripped(n).Not?
  }

  /** What a child of an `and` is about: the negated node, or the child itself. */
  function Core(n: BoolNode): (r: BoolNode)
    ensures r == n || (n decreases to r)
  {
    if Negated(n) then Stripped(n).inner else Stripped(n)
  }

  // ----- meaning -----

  /** The classical meaning, given which phrases hold. */
  ghost predicate Denotes(n: BoolNode, holds: string -> bool)
    decreases n
  {
    match n
    case And(cs) => forall i | 0 <= i < |cs| :: Denotes(cs[i], holds)
    case Or(cs) => exists i | 0 <= i < |cs| :: Denotes(cs[i], holds)
    case Not(x) => !Denotes(x, holds)
    case PhraseNode(p) => holds(p)
  }

  /** What the compiled query selects: a negation selects nothing by itself, and an `and` needs a
      positive child to subtract its negations from. */
  ghost predicate Selects(n: BoolNode, holds: string -> bool)
    decreases n
  {
    match Stripped(n)
    case PhraseNode(p) => holds(p)
    case Not(_) => false
    case Or(cs) => exists i | 0 <= i < |cs| :: Selects(cs[i], holds)
    case And(cs) =>
      && (exists i | 0 <= i < |cs| :: !Negated(cs[i]))
      && forall i | 0 <= i < |cs| :: Selects(Core(cs[i]), holds) == !Negated(cs[i])
  }

  /** After cancelling double negations, every `not` sits directly under an `and` with a positive child. */
  ghost predicate Guarded(n: BoolNode)
    decreases n
  {
    match Stripped(n)
    case PhraseNode(_) => true
    case Not(_) => false
    case Or(cs) => forall i | 0 <= i < |cs| :: Guarded(cs[i])
    case And(cs) =>
      && (exists i | 0 <= i < |cs| :: !Negated(cs[i]))
      && forall i | 0 <= i < |cs| :: Guarded(Core(cs[i]))
  }

  /** The compiled query and the classical meaning agree on this node and on everything compiled under it. */
  ghost predicate AgreesThroughout(n: BoolNode, holds: string -> bool)
    decreases n
  {
    && Selects(n, holds) == Denotes(n, holds)
    && match Stripped(n)
       case PhraseNode(_) => true
       case Not(x) => AgreesThroughout(x, holds)
       case Or(cs) => forall i | 0 <= i < |cs| :: AgreesThroughout(cs[i], holds)
       case And(cs) => forall i | 0 <= i < |cs| :: AgreesThroughout(Core(cs[i]), holds)
  }

  lemma {:induction false} StrippedDenotes(n: BoolNode, holds: string -> bool)
    ensures Denotes(Stripped(n), holds) == Denotes(n, holds)
  {
    if n.Not? && n.inner.Not? {
      StrippedDenotes(n.inner.inner, holds);
    }
  }

  lemma {:induction false} CoreDenotes(n: BoolNode, holds: string -> bool)
    ensures Denotes(Core(n), holds) == (Denotes(n, holds) != Negated(n))
  {
    StrippedDenotes(n, holds);
  }

  function NoPhrase(): string -> bool {
    _ => false
  }

  /** Guarded trees mean classically what they select. */
  lemma {:induction false} GuardedSelects(n: BoolNode, holds: string -> bool)
    requires Guarded(n)
    ensures AgreesThroughout(n, holds)
    decreases n
  {
    StrippedDenotes(n, holds);
    match Stripped(n) {
      case PhraseNode(_) =>
      case Or(cs) =>
        forall i | 0 <= i < |cs| ensures AgreesThroughout(cs[i], holds) {
          GuardedSelects(cs[i], holds);
        }
      case And(cs) =>
        forall i | 0 <= i < |cs| ensures AgreesThroughout(Core(cs[i]), holds) {
          GuardedSelects(Core(cs[i]), holds);
        }
        forall i | 0 <= i < |cs|
          ensures (Selects(Core(cs[i]), holds) == !Negated(cs[i])) == Denotes(cs[i], holds)
        {
          CoreDenotes(cs[i], holds);
        }
    }
  }

  /** Where no phrase occurs at all, a guarded tree selects nothing. */
  lemma {:induction false} GuardedBlank(n: BoolNode)
    requires Guarded(n)
    ensures !Denotes(n, NoPhrase())
    decreases n
  {
    StrippedDenotes(n, NoPhrase());
    match Stripped(n) {
      case PhraseNode(_) =>
      case Or(cs) =>
        forall i | 0 <= i < |cs| ensures !Denotes(cs[i], NoPhrase()) {
          GuardedBlank(cs[i]);
        }
      case And(cs) =>
        var i :| 0 <= i < |cs| && !Negated(cs[i]);
        GuardedBlank(Core(cs[i]));
        CoreDenotes(cs[i], NoPhrase());
    }
  }

  /** A tree that agrees throughout even where no phrase occurs is guarded. */
  lemma {:induction false} AgreeingGuarded(n: BoolNode)
    requires AgreesThroughout(n, NoPhrase())
    ensures Guarded(n)
    decreases n
  {
    StrippedDenotes(n, NoPhrase());
    match Stripped(n) {
      case PhraseNode(_) =>
      case Not(x) =>
        AgreeingGuarded(x);
        GuardedBlank(x);
      case Or(cs) =>
        forall i | 0 <= i < |cs| ensures Guarded(cs[i]) {
          AgreeingGuarded(cs[i]);
        }
      case And(cs) =>
        forall i | 0 <= i < |cs| ensures Guarded(Core(cs[i])) {
          AgreeingGuarded(Core(cs[i]));
        }
        if forall i | 0 <= i < |cs| :: Negated(cs[i]) {
          forall i | 0 <= i < |cs| ensures Denotes(cs[i], NoPhrase()) {
            GuardedBlank(Core(cs[i]));
            CoreDenotes(cs[i], NoPhrase());
          }
          assert false;
        }
    }
  }

  ghost predicate MeaningKept(n: BoolNode) {
    forall holds: string -> bool :: AgreesThroughout(n, holds)
  }

  /** Compilation preserves meaning, on the tree and all its parts, exactly when the tree is guarded. */
  lemma {:induction false} MeaningKeptExactly(n: BoolNode)
    ensures MeaningKept(n) <==> Guarded(n)
  {
    hide Guarded;
    if Guarded(n) {
      forall holds: string -> bool ensures AgreesThroughout(n, holds) {
        GuardedSelects(n, holds);
      }
    }
    if MeaningKept(n) {
      assert AgreesThroughout(n, NoPhrase());
      AgreeingGuarded(n);
    }
  }

  /** A negation under an `or` drops out: `x or not y` selects no document that lacks `x`. */
  lemma {:induction false} NegationUnderOr(x: string, y: string, holds: string -> bool)
    requires !holds(x) && !holds(y)
    ensures var n := Or([PhraseNode(x), Not(PhraseNode(y))]);
            Denotes(n, holds) && !Selects(n, holds) && !Guarded(n)
  {
    var cs := [PhraseNode(x), Not(PhraseNode(y))];
    assert Stripped(cs[0]) == cs[0] && Stripped(cs[1]) == cs[1];
    assert !Denotes(PhraseNode(y), holds);
    assert Denotes(cs[1], holds) && !Guarded(cs[1]);
    assert !Selects(cs[0], holds) && !Selects(cs[1], holds);
  }

  // ----- compilation -----

  /** Nesting of what is compiled: a `not` under an `and` shares its parent's level. */
  function Nesting(n: BoolNode): nat
    decreases n
  {
    match Stripped(n)
    case PhraseNode(_) => 0
    case Not(x) => 1 + Nesting(x)
    case Or(cs) => Highest(seq(|cs|, i requires 0 <= i < |cs| => 1 + Nesting(cs[i])))
    case And(cs) => Highest(seq(|cs|, i requires 0 <= i < |cs| => 1 + Nesting(Core(cs[i]))))
  }

  function Highest(s: seq<nat>): (m: nat)
    ensures forall i | 0 <= i < |s| :: s[i] <= m
    ensures m == 0 || m in s
  {
    if s == [] then 0
    else
      var h := Highest(s[..|s| - 1]);
      assert s == s[..|s| - 1] + [s[|s| - 1]];
      if h < s[|s| - 1] then s[|s| - 1] else h
  }

  function Left(depth: nat): nat {
    if depth > MAX_TREE_DEPTH then 0 else MAX_TREE_DEPTH + 1 - depth
  }

  datatype Compiler<!S(!new)> = Compiler(env: Env<S>, analyze: string -> seq<string>, accentInsensitive: bool) {

    function Leaf(p: string): Query<S> {
      Query.Phrase(None, analyze(p), accentInsensitive)
    }

    /** The phrases that document `d` matches. */
    ghost function HoldsAt(d: nat): string -> bool {
      p => env.Matches(Leaf(p), d)
    }

    function Compiled(n: BoolNode, depth: nat): Built<Query<S>>
      decreases Left(depth), 0
    {
      if depth > MAX_TREE_DEPTH then Refused(TreeTooDeep)
      else
        match Stripped(n)
        case PhraseNode(p) => Built(Leaf(p))
        case Not(x) =>
          var q :- Compiled(x, depth + 1);
          Built(Boolean([Clause(MustNot, q)]))
        case And(cs) =>
          var clauses :- CompiledAll(cs, true, depth + 1);
          Built(Boolean(clauses))
        case Or(cs) =>
          var clauses :- CompiledAll(cs, false, depth + 1);
          Built(Boolean(clauses))
    }

    function CompiledChild(c: BoolNode, isAnd: bool, depth: nat): Built<Clause<S>>
      decreases Left(depth), 1
    {
      var q :- Compiled(if isAnd then Core(c) else c, depth);
      Built(Clause(if !isAnd then Should else if Negated(c) then MustNot else Must, q))
    }

    function CompiledAll(cs: seq<BoolNode>, isAnd: bool, depth: nat): Built<seq<Clause<S>>>
      decreases Left(depth), 2, |cs|
    {
      if cs == [] then Built([])
      else
        var before :- CompiledAll(cs[..|cs| - 1], isAnd, depth);
        var c :- CompiledChild(cs[|cs| - 1], isAnd, depth);
        Built(before + [c])
    }

    method MapBoolNode(node: BoolNode, depth: nat) returns (r: Built<Query<S>>)
      ensures r == Compiled(node, depth)
      decreases Left(depth), 0
    {
      if depth > MAX_TREE_DEPTH {
        return Refused(TreeTooDeep);
      }
      var cur := StripDoubleNegation(node);
      match cur {
        case PhraseNode(phrase) =>
          return Built(Query.Phrase(None, analyze(phrase), accentInsensitive));
        case Not(inner) =>
          var q :- MapBoolNode(inner, depth + 1);
          return Built(Boolean([Clause(MustNot, q)]));
        case And(children) =>
          var clauses :- MapAnd(children, depth + 1);
          return Built(Boolean(clauses));
        case Or(children) =>
          var clauses :- MapOr(children, depth + 1);
          return Built(Boolean(clauses));
      }
    }

    /** A negated child becomes this node's exclusion instead of a node of its own. */
    method MapAnd(children: seq<BoolNode>, depth: nat) returns (r: Built<seq<Clause<S>>>)
      ensures r == CompiledAll(children, true, depth)
      decreases Left(depth), 1
    {
      hide Compiled;
      var clauses: seq<Clause<S>> := [];
      assert children[..0] == [];
      for i := 0 to |children|
        invariant CompiledAll(children[..i], true, depth) == Built(clauses)
      {
        NextChild(children, i, true, depth);
        var child := StripDoubleNegation(children[i]);
        match child {
          case Not(inner) =>
            var q :- MapBoolNode(inner, depth);
            clauses := clauses + [Clause(MustNot, q)];
          case other =>
            var q :- MapBoolNode(other, depth);
            clauses := clauses + [Clause(Must, q)];
        }
      }
      assert children[..|children|] == children;
      return Built(clauses);
    }

    method MapOr(children: seq<BoolNode>, depth: nat) returns (r: Built<seq<Clause<S>>>)
      ensures r == CompiledAll(children, false, depth)
      decreases Left(depth), 1
    {
      hide Compiled;
      var clauses: seq<Clause<S>> := [];
      assert children[..0] == [];
      for i := 0 to |children|
        invariant CompiledAll(children[..i], false, depth) == Built(clauses)
      {
        NextChild(children, i, false, depth);
        var q :- MapBoolNode(children[i], depth);
        clauses := clauses + [Clause(Should, q)];
      }
      assert children[..|children|] == children;
      return Built(clauses);
    }

    /** One child more, and what its refusal means for all of them. */
    lemma {:induction false} NextChild(cs: seq<BoolNode>, i: nat, isAnd: bool, depth: nat)
      requires i < |cs| && CompiledAll(cs[..i], isAnd, depth).Built?
      ensures var c, before := CompiledChild(cs[i], isAnd, depth), CompiledAll(cs[..i], isAnd, depth).value;
              && (c.Refused? ==> CompiledAll(cs, isAnd, depth) == Refused(c.error))
              && (c.Built? ==> CompiledAll(cs[..i + 1], isAnd, depth) == Built(before + [c.value]))
    {
      hide CompiledChild;
      assert cs[..i + 1][..i] == cs[..i];
      RefusedOnward(cs, i + 1, isAnd, depth);
    }

    /** Once some prefix of the children is refused, all of them are. */
    lemma {:induction false} RefusedOnward(cs: seq<BoolNode>, k: nat, isAnd: bool, depth: nat)
      requires k <= |cs|
      ensures CompiledAll(cs[..k], isAnd, depth).Refused? ==>
                CompiledAll(cs, isAnd, depth) == CompiledAll(cs[..k], isAnd, depth)
      decreases |cs|
    {
      hide CompiledChild;
      if k < |cs| {
        RefusedOnward(cs[..|cs| - 1], k, isAnd, depth);
        assert cs[..|cs| - 1][..k] == cs[..k];
      } else {
        assert cs[..k] == cs;
      }
    }

    // ----- what compilation gives -----

    lemma {:induction false} CompiledChildren(cs: seq<BoolNode>, isAnd: bool, depth: nat)
      ensures var r := CompiledAll(cs, isAnd, depth);
              && (r.Refused? <==> exists i | 0 <= i < |cs| :: CompiledChild(cs[i], isAnd, depth).Refused?)
              && (r.Refused? ==> r.error == TreeTooDeep)
              && (r.Built? ==> |r.value| == |cs| && forall i | 0 <= i < |cs| :: CompiledChild(cs[i], isAnd, depth) == Built(r.value[i]))
      decreases Left(depth), 1, |cs|
    {
      hide Compiled, CompiledChild;
      if cs != [] {
        var before := cs[..|cs| - 1];
        CompiledChildren(before, isAnd, depth);
        OnlyTooDeep(cs[|cs| - 1], isAnd, depth);
        if i :| 0 <= i < |cs| && CompiledChild(cs[i], isAnd, depth).Refused? {
          assert i < |before| ==> before[i] == cs[i];
        }
        if i :| 0 <= i < |before| && CompiledChild(before[i], isAnd, depth).Refused? {
          assert before[i] == cs[i];
        }
      }
    }

    lemma {:induction false} OnlyTooDeep(c: BoolNode, isAnd: bool, depth: nat)
      ensures CompiledChild(c, isAnd, depth).Refused? ==> CompiledChild(c, isAnd, depth).error == TreeTooDeep
      decreases Left(depth), 0
    {
      hide CompiledAll;
      if depth <= MAX_TREE_DEPTH {
        match Stripped(if isAnd then Core(c) else c) {
          case Not(x) => OnlyTooDeep(x, false, depth + 1);
          case And(cs) => CompiledChildren(cs, true, depth + 1);
          case Or(cs) => CompiledChildren(cs, false, depth + 1);
          case PhraseNode(_) =>
        }
      }
    }

    lemma {:induction false} HighestFails(cs: seq<BoolNode>, isAnd: bool, depth: nat, levels: seq<nat>)
      requires depth <= MAX_TREE_DEPTH && |levels| == |cs|
      requires forall i | 0 <= i < |cs| :: CompiledChild(cs[i], isAnd, depth + 1).Refused? <==> depth + levels[i] > MAX_TREE_DEPTH
      ensures CompiledAll(cs, isAnd, depth + 1).Refused? <==> depth + Highest(levels) > MAX_TREE_DEPTH
      ensures CompiledAll(cs, isAnd, depth + 1).Refused? ==> CompiledAll(cs, isAnd, depth + 1).error == TreeTooDeep
    {
      hide CompiledAll, CompiledChild, Highest;
      CompiledChildren(cs, isAnd, depth + 1);
      if depth + Highest(levels) > MAX_TREE_DEPTH {
        var i :| 0 <= i < |levels| && levels[i] == Highest(levels);
        assert CompiledChild(cs[i], isAnd, depth + 1).Refused?;
      }
    }

    /** Compilation fails exactly when the nesting left after cancelling double negations exceeds the limit. */
    lemma {:induction false} FailsWhenTooDeep(n: BoolNode, depth: nat)
      ensures Compiled(n, depth).Refused? <==> depth + Nesting(n) > 32
      ensures Compiled(n, depth).Refused? ==> Compiled(n, depth).error == TreeTooDeep
      decreases Left(depth), 0
    {
      hide CompiledAll, Highest;
      if depth <= MAX_TREE_DEPTH {
        match Stripped(n) {
          case PhraseNode(_) =>
          case Not(x) => FailsWhenTooDeep(x, depth + 1);
          case And(cs) =>
            ChildrenFail(cs, true, depth + 1);
            HighestFails(cs, true, depth, seq(|cs|, i requires 0 <= i < |cs| => 1 + Nesting(Core(cs[i]))));
          case Or(cs) =>
            ChildrenFail(cs, false, depth + 1);
            HighestFails(cs, false, depth, seq(|cs|, i requires 0 <= i < |cs| => 1 + Nesting(cs[i])));
        }
      }
    }

    lemma {:induction false} ChildrenFail(cs: seq<BoolNode>, isAnd: bool, depth: nat)
      ensures forall i | 0 <= i < |cs| ::
                CompiledChild(cs[i], isAnd, depth).Refused? <==> depth + Nesting(if isAnd then Core(cs[i]) else cs[i]) > MAX_TREE_DEPTH
      decreases Left(depth), 1
    {
      hide Compiled, Nesting;
      forall i | 0 <= i < |cs|
        ensures CompiledChild(cs[i], isAnd, depth).Refused? <==> depth + Nesting(if isAnd then Core(cs[i]) else cs[i]) > MAX_TREE_DEPTH
      {
        FailsWhenTooDeep(if isAnd then Core(cs[i]) else cs[i], depth);
      }
    }

    /** The compiled query matches what the tree selects. */
    lemma {:induction false} CompiledSelects(n: BoolNode, depth: nat, d: nat)
      requires Compiled(n, depth).Built?
      ensures env.Matches(Compiled(n, depth).value, d) <==> Selects(n, HoldsAt(d))
      decreases Left(depth)
    {
      hide CompiledAll, Env.Score;
      match Stripped(n) {
        case PhraseNode(_) =>
        case Not(x) =>
          env.BooleanMatches([Clause(MustNot, Compiled(x, depth + 1).value)], d);
        case And(cs) =>
          CompiledChildren(cs, true, depth + 1);
          var clauses := CompiledAll(cs, true, depth + 1).value;
          env.BooleanMatches(clauses, d);
          forall i | 0 <= i < |cs| ensures env.Matches(clauses[i].query, d) <==> Selects(Core(cs[i]), HoldsAt(d)) {
            assert CompiledChild(cs[i], true, depth + 1) == Built(clauses[i]);
            CompiledSelects(Core(cs[i]), depth + 1, d);
          }
          forall i | 0 <= i < |cs| ensures clauses[i].occur == if Negated(cs[i]) then MustNot else Must {
            assert CompiledChild(cs[i], true, depth + 1) == Built(clauses[i]);
          }
        case Or(cs) =>
          CompiledChildren(cs, false, depth + 1);
          var clauses := CompiledAll(cs, false, depth + 1).value;
          env.BooleanMatches(clauses, d);
          forall i | 0 <= i < |cs| ensures env.Matches(clauses[i].query, d) <==> Selects(cs[i], HoldsAt(d)) {
            assert CompiledChild(cs[i], false, depth + 1) == Built(clauses[i]);
            CompiledSelects(cs[i], depth + 1, d);
          }
          forall i | 0 <= i < |cs| ensures clauses[i].occur == Should {
            assert CompiledChild(cs[i], false, depth + 1) == Built(clauses[i]);
          }
      }
    }

    /** A compiled tree multiplies no score. */
    lemma {:induction false} CompiledBoosts(n: BoolNode, depth: nat, ok: S -> bool)
      requires Compiled(n, depth).Built?
      ensures BoostsAre(Compiled(n, depth).value, ok)
      decreases Left(depth), 0
    {
      hide CompiledAll;
      match Stripped(n) {
        case PhraseNode(_) =>
        case Not(x) => CompiledBoosts(x, depth + 1, ok);
        case And(cs) => ChildBoosts(cs, true, depth + 1, ok);
        case Or(cs) => ChildBoosts(cs, false, depth + 1, ok);
      }
    }

    lemma {:induction false} ChildBoosts(cs: seq<BoolNode>, isAnd: bool, depth: nat, ok: S -> bool)
      requires CompiledAll(cs, isAnd, depth).Built?
      ensures var clauses := CompiledAll(cs, isAnd, depth).value;
              forall i | 0 <= i < |clauses| :: BoostsAre(clauses[i].query, ok)
      decreases Left(depth), 1
    {
      hide CompiledAll, Compiled;
      CompiledChildren(cs, isAnd, depth);
      var clauses := CompiledAll(cs, isAnd, depth).value;
      forall i | 0 <= i < |clauses| ensures BoostsAre(clauses[i].query, ok) {
        assert CompiledChild(cs[i], isAnd, depth) == Built(clauses[i]);
        CompiledBoosts(if isAnd then Core(cs[i]) else cs[i], depth, ok);
      }
    }

    /** A guarded tree compiles to a query that matches exactly its classical denotation. */
    lemma {:induction false} CompilationMeans(n: BoolNode, d: nat)
      requires Guarded(n) && Nesting(n) <= 32
      ensures Compiled(n, 0).Built?
      ensures env.Matches(Compiled(n, 0).value, d) <==> Denotes(n, HoldsAt(d))
    {
      FailsWhenTooDeep(n, 0);
      CompiledSelects(n, 0, d);
      GuardedSelects(n, HoldsAt(d));
    }
  }
}
