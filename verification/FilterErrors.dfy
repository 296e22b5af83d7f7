/** Which filters are rejected, and what is dropped without an error. */
module FilterErrors {
  import opened FilterCompiler

  /** The leaf is met on the way; an OR is left at its first unevaluable branch. */
  predicate Visits(o: Options, e: Expr, l: Leaf)
    decreases e, 1
  {
    match e
    case Or(args) => VisitsOne(o, args, l, true)
    case And(args) => VisitsOne(o, args, l, false)
    case Not(a) => Visits(o, a, l)
    case Group(a) => Visits(o, a, l)
    case Atom(m) => m == l
  }

  predicate VisitsOne(o: Options, es: seq<Expr>, l: Leaf, stopAtSkip: bool)
    decreases es, 0
  {
    es != [] && (Visits(o, es[0], l) || (!(stopAtSkip && Skips(o, es[0])) && VisitsOne(o, es[1..], l, stopAtSkip)))
  }

  lemma {:induction false} ErrorSource(o: Options, e: Expr) returns (l: Leaf)
    requires Errors(o, e) > 0
    ensures Visits(o, e, l) && LeafErrors(o, l) > 0
    decreases e, 1
  {
    match e
    case Or(args) => l := ErrorSourceIn(o, args, true);
    case And(args) => l := ErrorSourceIn(o, args, false);
    case Not(a) => l := ErrorSource(o, a);
    case Group(a) => l := ErrorSource(o, a);
    case Atom(m) => l := m;
  }

  lemma {:induction false} ErrorSourceIn(o: Options, es: seq<Expr>, stopAtSkip: bool) returns (l: Leaf)
    requires ErrorsIn(o, es, stopAtSkip) > 0
    ensures VisitsOne(o, es, l, stopAtSkip) && LeafErrors(o, l) > 0
    decreases es, 0
  {
    if Errors(o, es[0]) > 0 {
      l := ErrorSource(o, es[0]);
    } else {
      l := ErrorSourceIn(o, es[1..], stopAtSkip);
    }
  }

  lemma {:induction false} VisitedCounts(o: Options, e: Expr, l: Leaf)
    requires Visits(o, e, l)
    ensures LeafErrors(o, l) <= Errors(o, e)
    decreases e, 1
  {
    match e
    case Or(args) => VisitedCountsIn(o, args, l, true);
    case And(args) => VisitedCountsIn(o, args, l, false);
    case Not(a) => VisitedCounts(o, a, l);
    case Group(a) => VisitedCounts(o, a, l);
    case Atom(_) =>
  }

  lemma {:induction false} VisitedCountsIn(o: Options, es: seq<Expr>, l: Leaf, stopAtSkip: bool)
    requires VisitsOne(o, es, l, stopAtSkip)
    ensures LeafErrors(o, l) <= ErrorsIn(o, es, stopAtSkip)
    decreases es, 0
  {
    if Visits(o, es[0], l) {
      VisitedCounts(o, es[0], l);
    } else {
      VisitedCountsIn(o, es[1..], l, stopAtSkip);
    }
  }

  /** The reasons a leaf is an error: an unknown name, a malformed operand, or a failing builder outside IN and BETWEEN. */
  predicate IsError(o: Options, l: Leaf) {
    match l
    case Comparison(keys, cmp, form, _, operand) =>
      if keys == [] then !o.ignoreNotFound
      else
        && (exists k :: k in keys && !(o.skipResource && k.context.Resource?))
        && (operand.Malformed? ||
            (operand.Usable? && !form.InList? && !form.Between? && BuilderFails(o, cmp, Considered(o, keys))))
    case FullText(t) => !o.skipFullText && (!o.fullTextColumn || o.builder(TextTest(t)).Fails?)
    case Call(c) => !o.skipCalls && o.builder(CallTest(c)).Fails?
  }

  lemma LeafIsError(o: Options, l: Leaf)
    ensures LeafErrors(o, l) > 0 <==> IsError(o, l)
  {
    if l.Comparison? {
      ConsideredMembers(o, l.keys);
      var considered := Considered(o, l.keys);
      if considered != [] { assert considered[0] in considered; }
    }
  }

  /** Exactly when a filter is rejected. */
  lemma RejectedIff(o: Options, e: Expr)
    ensures Prepare(o, e).Rejected? <==>
            exists l :: Visits(EffectiveOptions(o, e), e, l) && IsError(EffectiveOptions(o, e), l)
  {
    var o' := EffectiveOptions(o, e);
    if Errors(o', e) > 0 {
      var l := ErrorSource(o', e);
      LeafIsError(o', l);
    }
    if l :| Visits(o', e, l) && IsError(o', l) {
      LeafIsError(o', l);
      VisitedCounts(o', e, l);
    }
  }

  /* ---- conditions that cannot be built ---- */

  /** An IN or BETWEEN whose condition cannot be built. */
  predicate FailsSilently(o: Options, l: Leaf) {
    l.Comparison? && (l.form.InList? || l.form.Between?) && l.operand.Usable? && BuilderFails(o, l.cmp, Considered(o, l.keys))
  }

  /** The filter with every such condition written as no restriction. */
  function Silenced(o: Options, e: Expr): Expr
    decreases e, 1
  {
    match e
    case Or(args) => Or(SilencedAll(o, args))
    case And(args) => And(SilencedAll(o, args))
    case Not(a) => Not(Silenced(o, a))
    case Group(a) => Group(Silenced(o, a))
    case Atom(l) => Atom(if FailsSilently(o, l) then l.(operand := Unrestricting) else l)
  }

  function SilencedAll(o: Options, es: seq<Expr>): (r: seq<Expr>)
    ensures |r| == |es|
    decreases es, 0
  {
    if es == [] then [] else [Silenced(o, es[0])] + SilencedAll(o, es[1..])
  }

  lemma {:induction false} SilencedVisit(o: Options, e: Expr)
    ensures Skips(o, Silenced(o, e)) == Skips(o, e)
    ensures !Skips(o, e) ==> Visit(o, Silenced(o, e)) == Visit(o, e)
    ensures Errors(o, Silenced(o, e)) == Errors(o, e)
    decreases e, 1
  {
    match e
    case Or(args) => SilencedVisits(o, args);
    case And(args) => SilencedVisits(o, args);
    case Not(a) => SilencedVisit(o, a);
    case Group(a) => SilencedVisit(o, a);
    case Atom(l) =>
      if FailsSilently(o, l) { assert Considered(o, l.keys) != [] && l.keys != []; }
  }

  lemma {:induction false} SilencedVisits(o: Options, es: seq<Expr>)
    ensures KeptConds(o, SilencedAll(o, es)) == KeptConds(o, es)
    ensures FirstSkip(o, SilencedAll(o, es)).Sql? == FirstSkip(o, es).Sql?
    ensures forall stop :: ErrorsIn(o, SilencedAll(o, es), stop) == ErrorsIn(o, es, stop)
    decreases es, 0
  {
    if es != [] {
      SilencedVisit(o, es[0]);
      SilencedVisits(o, es[1..]);
      assert SilencedAll(o, es)[0] == Silenced(o, es[0]) && SilencedAll(o, es)[1..] == SilencedAll(o, es[1..]);
    }
  }

  lemma {:induction false} SilencedOr(o: Options, e: Expr)
    ensures HasOr(Silenced(o, e)) == HasOr(e)
    decreases e, 1
  {
    match e
    case Or(args) => SilencedOrs(o, args);
    case And(args) => SilencedOrs(o, args);
    case Not(a) => SilencedOr(o, a);
    case Group(a) => SilencedOr(o, a);
    case Atom(_) =>
  }

  lemma {:induction false} SilencedOrs(o: Options, es: seq<Expr>)
    ensures (exists a :: a in SilencedAll(o, es) && HasOr(a)) <==> (exists a :: a in es && HasOr(a))
    decreases es, 0
  {
    if es != [] {
      SilencedOr(o, es[0]);
      SilencedOrs(o, es[1..]);
      var rs := SilencedAll(o, es);
      assert rs[0] == Silenced(o, es[0]) && rs[1..] == SilencedAll(o, es[1..]);
      assert forall a :: a in es <==> a == es[0] || a in es[1..];
      assert forall a :: a in rs <==> a == rs[0] || a in rs[1..];
    }
  }

  /** IN and BETWEEN conditions that cannot be built are dropped from any filter without a trace. */
  lemma FailedConditions(o: Options, e: Expr)
    ensures Prepare(o, Silenced(EffectiveOptions(o, e), e)) == Prepare(o, e)
  {
    var o' := EffectiveOptions(o, e);
    SilencedOr(o', e);
    SilencedVisit(o', e);
  }
}
