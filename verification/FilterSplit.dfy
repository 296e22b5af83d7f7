/** One filter, two clauses: when they mean the filter together. */
module FilterSplit {
  /*
   The main table's clause leaves resource conditions to a sub-query on the resource table, and the
   sub-query's clause leaves everything else to the main table. A row is returned when both accept it.

   A resource test has one value for a row, whichever of the two tables answers it.
   */

  import opened FilterCompiler
  import opened FilterExactness

  predicate IsResourceTest(t: Test) {
    t.KeyTest? && t.key.context.Resource?
  }

  /** The statement builders' options; nothing fails to build. */
  const MAIN: Options := Options(true, false, false, false, true, _ => Emits)

  /** The resource sub-query: only resource keys have a column there. */
  const RESOURCE: Options := Options(false, true, true, true, true, t => if IsResourceTest(t) then Emits else Declines)

  predicate Accepts(p: Prepared, row: Row) {
    p.Where? ==> Eval(p.cond, row)
  }

  /** What the two clauses together return. */
  predicate Split(e: Expr, row: Row) {
    Accepts(Prepare(MAIN, e), row) && Accepts(Prepare(RESOURCE, e), row)
  }

  ghost predicate SplitsWell(e: Expr) {
    forall row: Row :: Split(e, row) <==> Sem(e, row)
  }

  /** What the grammar and the key lookup guarantee once no error is reported. */
  predicate WellFormed(e: Expr) {
    match e
    case Or(args) => args != [] && forall a :: a in args ==> WellFormed(a)
    case And(args) => args != [] && forall a :: a in args ==> WellFormed(a)
    case Not(a) => WellFormed(a)
    case Group(a) => WellFormed(a)
    case Atom(l) => l.Comparison? ==> l.keys != [] && l.operand.Usable?
  }

  lemma {:induction false} ReadOnceIsWellFormed(e: Expr)
    requires ReadOnce(e)
    ensures WellFormed(e)
  {
    match e
    case Or(args) =>
      MemberTests(args);
      forall a | a in args ensures WellFormed(a) { ReadOnceIsWellFormed(a); }
    case And(args) =>
      MemberTests(args);
      forall a | a in args ensures WellFormed(a) { ReadOnceIsWellFormed(a); }
    case Not(a) => ReadOnceIsWellFormed(a);
    case Group(a) => ReadOnceIsWellFormed(a);
    case Atom(_) =>
  }

  /* ---- neither clause is rejected ---- */

  ghost predicate NothingFails(o: Options) {
    o.fullTextColumn && forall t: Test :: !o.builder(t).Fails?
  }

  lemma {:induction false} NoErrorsIn(o: Options, es: seq<Expr>, stopAtSkip: bool)
    requires NothingFails(o) && forall e :: e in es ==> Errors(o, e) == 0
    ensures ErrorsIn(o, es, stopAtSkip) == 0
  {
    if es != [] {
      assert es[0] in es && forall e :: e in es[1..] ==> e in es;
      NoErrorsIn(o, es[1..], stopAtSkip);
    }
  }

  lemma {:induction false} NoErrors(o: Options, e: Expr)
    requires NothingFails(o) && WellFormed(e)
    ensures Errors(o, e) == 0
  {
    match e
    case Or(args) =>
      forall a | a in args ensures Errors(o, a) == 0 { NoErrors(o, a); }
      NoErrorsIn(o, args, true);
    case And(args) =>
      forall a | a in args ensures Errors(o, a) == 0 { NoErrors(o, a); }
      NoErrorsIn(o, args, false);
    case Not(a) => NoErrors(o, a);
    case Group(a) => NoErrors(o, a);
    case Atom(l) =>
  }

  /** A clause with Skip read as TRUE. */
  predicate Allows(o: Options, e: Expr, row: Row) {
    Skips(o, e) || Passes(o, e, row)
  }

  lemma SplitIsBoth(e: Expr, row: Row)
    requires WellFormed(e)
    ensures Split(e, row) <==> Allows(EffectiveOptions(MAIN, e), e, row) && Allows(RESOURCE, e, row)
  {
    NoErrors(EffectiveOptions(MAIN, e), e);
    NoErrors(RESOURCE, e);
    assert EffectiveOptions(RESOURCE, e) == RESOURCE;
  }

  /* ---- filters with an OR: the main clause is the whole filter ---- */

  lemma {:induction false} FullClause(e: Expr, row: Row)
    requires WellFormed(e)
    ensures !Skips(MAIN.(skipResource := false), e)
    ensures Passes(MAIN.(skipResource := false), e, row) <==> Sem(e, row)
  {
    var o := MAIN.(skipResource := false);
    match e
    case Or(args) =>
      VisitOr(o, args, row);
      forall a | a in args ensures !Skips(o, a) && (Passes(o, a, row) <==> Sem(a, row)) { FullClause(a, row); }
    case And(args) =>
      VisitAnd(o, args, row);
      forall a | a in args ensures !Skips(o, a) && (Passes(o, a, row) <==> Sem(a, row)) { FullClause(a, row); }
      assert args[0] in args;
    case Not(a) => FullClause(a, row);
    case Group(a) => FullClause(a, row);
    case Atom(l) => LeafClause(o, l, row);
  }

  lemma LeafClause(o: Options, l: Leaf, row: Row)
    requires WellFormed(Atom(l)) && NothingFails(o)
    ensures l.Comparison? ==> (Skips(o, Atom(l)) <==> forall k :: k in l.keys ==> !KeepsKey(o, l.cmp, k))
    ensures !Skips(o, Atom(l)) && KeepsAll(o, l) ==> (Passes(o, Atom(l), row) <==> LeafSem(l, row))
  {
    if l.Comparison? {
      var considered := Considered(o, l.keys);
      ConsideredMembers(o, l.keys);
      EmittedMembers(o, l.cmp, considered);
      TestsOnMembers(Emitted(o, l.cmp, considered), l.cmp);
      if VisitLeaf(o, l).Sql? {
        VisitComparison(o, l, row);
      } else {
        forall k | k in l.keys ensures !KeepsKey(o, l.cmp, k) {
          assert k !in Emitted(o, l.cmp, considered);
        }
      }
    }
  }

  /** With an OR, the sub-query is a pre-filter: it must only never drop a row. */
  lemma WithOr(e: Expr)
    requires ReadOnce(e) && HasOr(e)
    ensures SplitsWell(e) <==> Weak(RESOURCE, e)
  {
    ReadOnceIsWellFormed(e);
    forall row: Row
      ensures Split(e, row) <==> Sem(e, row) && Allows(RESOURCE, e, row)
    {
      SplitIsBoth(e, row);
      FullClause(e, row);
    }
    WeakerIffWeak(RESOURCE, e);
    if SplitsWell(e) {
      forall row: Row | Sem(e, row) ensures Allows(RESOURCE, e, row) { assert Split(e, row); }
    }
  }

  /** The same for every filter, in the direction that matters to a user. */
  lemma WithOrHolds(e: Expr)
    requires WellFormed(e) && HasOr(e) && Weak(RESOURCE, e)
    ensures SplitsWell(e)
  {
    forall row: Row
      ensures Split(e, row) <==> Sem(e, row)
    {
      SplitIsBoth(e, row);
      FullClause(e, row);
      if !Skips(RESOURCE, e) { Directions(RESOURCE, e, row); }
    }
  }

  /* ---- filters without an OR ---- */

  /** All comparisons are enforced by the same clause. */
  predicate OneSided(e: Expr) {
    Skips(MAIN, e) || Skips(RESOURCE, e)
  }

  /** The filter is the conjunction of its two clauses. */
  predicate Conj(e: Expr) {
    || OneSided(e)
    || match e
       case Or(args) => |args| == 1 && Conj(args[0])
       case And(args) => forall a :: a in args ==> Conj(a)
       case Not(a) => Disj(a)
       case Group(a) => Conj(a)
       case Atom(l) => l.Comparison? && l.negative
  }

  /** The filter is the disjunction of its two clauses, which a NOT turns into a conjunction. */
  predicate Disj(e: Expr) {
    match e
    case Or(args) => |args| == 1 && Disj(args[0])
    case And(args) => |args| == 1 && Disj(args[0])
    case Not(a) => Conj(a)
    case Group(a) => Disj(a)
    case Atom(l) => l.Comparison? && !l.negative
  }

  lemma OnlyMember(args: seq<Expr>)
    requires |args| == 1
    ensures forall a :: a in args <==> a == args[0]
  {
  }

  /** What does not concern a clause is wholly the other clause's business. */
  lemma {:induction false} OneSidedClause(e: Expr, row: Row)
    requires WellFormed(e) && !HasOr(e)
    ensures !(Skips(MAIN, e) && Skips(RESOURCE, e))
    ensures Skips(RESOURCE, e) ==> (Passes(MAIN, e, row) <==> Sem(e, row))
    ensures Skips(MAIN, e) ==> (Passes(RESOURCE, e, row) <==> Sem(e, row))
  {
    match e
    case Or(args) =>
      OnlyMember(args);
      VisitOr(MAIN, args, row);
      VisitOr(RESOURCE, args, row);
      OneSidedClause(args[0], row);
    case And(args) =>
      VisitAnd(MAIN, args, row);
      VisitAnd(RESOURCE, args, row);
      assert args[0] in args;
      forall a | a in args
        ensures !(Skips(MAIN, a) && Skips(RESOURCE, a))
        ensures Skips(RESOURCE, a) ==> (Passes(MAIN, a, row) <==> Sem(a, row))
        ensures Skips(MAIN, a) ==> (Passes(RESOURCE, a, row) <==> Sem(a, row))
      {
        OneSidedClause(a, row);
      }
    case Not(a) => OneSidedClause(a, row);
    case Group(a) => OneSidedClause(a, row);
    case Atom(l) =>
      LeafClause(MAIN, l, row);
      LeafClause(RESOURCE, l, row);
      if l.Comparison? { assert l.keys[0] in l.keys; }
  }

  lemma LeafParts(l: Leaf, row: Row)
    requires WellFormed(Atom(l)) && !OneSided(Atom(l))
    ensures l.Comparison?
    ensures l.negative ==> (LeafSem(l, row) <==> Passes(MAIN, Atom(l), row) && Passes(RESOURCE, Atom(l), row))
    ensures !l.negative ==> (LeafSem(l, row) <==> Passes(MAIN, Atom(l), row) || Passes(RESOURCE, Atom(l), row))
  {
    VisitComparison(MAIN, l, row);
    VisitComparison(RESOURCE, l, row);
    forall k | k in l.keys ensures KeepsKey(MAIN, l.cmp, k) <==> !KeepsKey(RESOURCE, l.cmp, k) {}
  }

  lemma {:induction false} TwoParts(e: Expr, row: Row)
    requires WellFormed(e) && !HasOr(e)
    ensures Conj(e) ==> (Sem(e, row) <==> Allows(MAIN, e, row) && Allows(RESOURCE, e, row))
    ensures !OneSided(e) && Disj(e) ==> (Sem(e, row) <==> Passes(MAIN, e, row) || Passes(RESOURCE, e, row))
  {
    if OneSided(e) {
      OneSidedClause(e, row);
    } else {
      match e
      case Or(args) =>
        OnlyMember(args);
        VisitOr(MAIN, args, row);
        VisitOr(RESOURCE, args, row);
        TwoParts(args[0], row);
      case And(args) =>
        VisitAnd(MAIN, args, row);
        VisitAnd(RESOURCE, args, row);
        forall a | a in args
          ensures Conj(a) ==> (Sem(a, row) <==> Allows(MAIN, a, row) && Allows(RESOURCE, a, row))
        {
          TwoParts(a, row);
        }
        if |args| == 1 {
          OnlyMember(args);
          TwoParts(args[0], row);
        }
      case Not(a) => TwoParts(a, row);
      case Group(a) => TwoParts(a, row);
      case Atom(l) => LeafParts(l, row);
    }
  }

  lemma WithoutOrHolds(e: Expr)
    requires WellFormed(e) && !HasOr(e) && Conj(e)
    ensures SplitsWell(e)
  {
    forall row: Row
      ensures Split(e, row) <==> Sem(e, row)
    {
      SplitIsBoth(e, row);
      TwoParts(e, row);
    }
  }

  /* ---- and no other filter without an OR ---- */

  /** A clause looks only at the tests it keeps. */
  predicate KeepsTest(o: Options, t: Test) {
    match t
    case KeyTest(k, cmp) => KeepsKey(o, cmp, k)
    case TextTest(_) => !o.skipFullText
    case CallTest(_) => !o.skipCalls
  }

  lemma {:induction false} Blind(o: Options, e: Expr, a: Row, b: Row)
    requires forall t: Test :: KeepsTest(o, t) ==> a(t) == b(t)
    ensures Passes(o, e, a) == Passes(o, e, b)
  {
    match e
    case Or(args) =>
      VisitOr(o, args, a);
      VisitOr(o, args, b);
      forall m | m in args ensures Passes(o, m, a) == Passes(o, m, b) { Blind(o, m, a, b); }
    case And(args) =>
      VisitAnd(o, args, a);
      VisitAnd(o, args, b);
      forall m | m in args ensures Passes(o, m, a) == Passes(o, m, b) { Blind(o, m, a, b); }
    case Not(x) => Blind(o, x, a, b);
    case Group(x) => Blind(o, x, a, b);
    case Atom(l) =>
      if VisitLeaf(o, l).Sql? && l.Comparison? {
        VisitComparison(o, l, a);
        VisitComparison(o, l, b);
        forall k | k in l.keys && KeepsKey(o, l.cmp, k)
          ensures a(KeyTest(k, l.cmp)) == b(KeyTest(k, l.cmp))
        {
          assert KeepsTest(o, KeyTest(k, l.cmp));
        }
      } else if VisitLeaf(o, l).Sql? {
        assert KeepsTest(o, if l.FullText? then TextTest(l.text) else CallTest(l.call));
      }
  }

  /** The two clauses look at different tests, so they can be steered separately. */
  lemma {:induction false} Steer(e: Expr, main: bool, resource: bool) returns (row: Row)
    requires ReadOnce(e)
    requires (main || !Skips(MAIN, e)) && (resource || !Skips(RESOURCE, e))
    ensures Allows(MAIN, e, row) == main && Allows(RESOURCE, e, row) == resource
  {
    var forMain: Row, forResource: Row := _ => false, _ => false;
    if !Skips(MAIN, e) { forMain := Grant(MAIN, ClauseIs(main), e); }
    if !Skips(RESOURCE, e) { forResource := Grant(RESOURCE, ClauseIs(resource), e); }
    row := (t: Test) => if IsResourceTest(t) then forResource(t) else forMain(t);
    Blind(MAIN, e, row, forMain);
    Blind(RESOURCE, e, row, forResource);
  }

  datatype Want = Any | Exactly(b: bool)

  predicate Meets(w: Want, b: bool) {
    w.Exactly? ==> b == w.b
  }

  /** What is wanted of one member: its meaning, its main clause, its resource clause. */
  datatype Aim = Aim(sem: Want, main: Want, resource: Want)

  predicate Hits(aim: Aim, e: Expr, row: Row) {
    Meets(aim.sem, Sem(e, row)) && Meets(aim.main, Allows(MAIN, e, row)) && Meets(aim.resource, Allows(RESOURCE, e, row))
  }

  function AimGoal(aim: Expr -> Aim): Goal {
    (e: Expr, row: Row) => Hits(aim(e), e, row)
  }

  lemma {:induction false} Arrange(es: seq<Expr>, aim: Expr -> Aim) returns (row: Row)
    requires ListReadOnce(es)
    requires forall e :: e in es ==> exists r: Row :: Hits(aim(e), e, r)
    ensures forall e :: e in es ==> Hits(aim(e), e, row)
  {
    var goal := AimGoal(aim);
    forall e: Expr, a: Row, b: Row | Agree(Tests(e), a, b)
      ensures goal(e, a) == goal(e, b)
    {
      OnlyTestsMatter(MAIN, e, a, b);
      OnlyTestsMatter(RESOURCE, e, a, b);
      assert Hits(aim(e), e, a) == Hits(aim(e), e, b);
    }
    forall e | e in es
      ensures exists r: Row :: goal(e, r)
    {
      var r: Row :| Hits(aim(e), e, r);
      assert goal(e, r);
    }
    row := Glue(es, goal);
    forall e | e in es
      ensures Hits(aim(e), e, row)
    {
      assert goal(e, row);
    }
  }

  lemma {:induction false} HasTest(e: Expr)
    requires ReadOnce(e)
    ensures Tests(e) != {}
  {
    match e
    case Or(args) => HasTest(args[0]);
    case And(args) => HasTest(args[0]);
    case Not(a) => HasTest(a);
    case Group(a) => HasTest(a);
    case Atom(l) =>
      if l.Comparison? { assert KeyTest(l.keys[0], l.cmp) in LeafTests(l); }
  }

  /** A row on which the filter is not the conjunction of its clauses. */
  lemma {:induction false} ConjBreaks(e: Expr) returns (row: Row)
    requires ReadOnce(e) && !HasOr(e) && !Conj(e)
    ensures Sem(e, row) != (Allows(MAIN, e, row) && Allows(RESOURCE, e, row))
    decreases e, 1
  {
    match e
    case Or(args) =>
      OnlyMember(args);
      row := ConjBreaks(args[0]);
      VisitOr(MAIN, args, row);
      VisitOr(RESOURCE, args, row);
    case And(args) =>
      row := AndConjBreaks(args);
    case Not(a) =>
      row := DisjBreaks(a);
    case Group(a) =>
      row := ConjBreaks(a);
    case Atom(l) =>
      row := (t: Test) => !IsResourceTest(t);
      LeafParts(l, row);
      VisitComparison(RESOURCE, l, row);
      VisitComparison(MAIN, l, row);
  }

  lemma {:induction false} AndConjBreaks(args: seq<Expr>) returns (row: Row)
    requires ReadOnce(And(args)) && !HasOr(And(args)) && !Conj(And(args))
    ensures Sem(And(args), row) != (Allows(MAIN, And(args), row) && Allows(RESOURCE, And(args), row))
    decreases args, 1
  {
    MemberTests(args);
    var bad :| bad in args && !Conj(bad);
    var r := ConjBreaks(bad);
    if Sem(bad, r) {
      row := LostMember(args, bad, r);
    } else {
      row := GainedMember(args, bad, r);
    }
  }

  /** The others match, so the filter matches as the broken member does, and a clause rejects it. */
  lemma {:induction false} LostMember(args: seq<Expr>, bad: Expr, r: Row) returns (row: Row)
    requires ReadOnce(And(args)) && bad in args
    requires Sem(bad, r) && !(Allows(MAIN, bad, r) && Allows(RESOURCE, bad, r))
    ensures Sem(And(args), row) && !(Allows(MAIN, And(args), row) && Allows(RESOURCE, And(args), row))
  {
    MemberTests(args);
    var broken := Aim(Exactly(true), Exactly(Allows(MAIN, bad, r)), Exactly(Allows(RESOURCE, bad, r)));
    var aim: Expr -> Aim := e => if e == bad then broken else Aim(Exactly(true), Any, Any);
    forall e | e in args
      ensures exists r: Row :: Hits(aim(e), e, r)
    {
      if e == bad {
        assert Hits(aim(e), e, r);
      } else {
        var r' := Grant(MAIN, SemIs(true), e);
        assert Hits(aim(e), e, r');
      }
    }
    row := Arrange(args, aim);
    VisitAnd(MAIN, args, row);
    VisitAnd(RESOURCE, args, row);
    assert Hits(aim(bad), bad, row);
  }

  /** The clauses accept every member, the broken one wrongly. */
  lemma {:induction false} GainedMember(args: seq<Expr>, bad: Expr, r: Row) returns (row: Row)
    requires ReadOnce(And(args)) && bad in args
    requires !Sem(bad, r) && Allows(MAIN, bad, r) && Allows(RESOURCE, bad, r)
    ensures !Sem(And(args), row) && Allows(MAIN, And(args), row) && Allows(RESOURCE, And(args), row)
  {
    MemberTests(args);
    var aim: Expr -> Aim := e => Aim(if e == bad then Exactly(false) else Any, Exactly(true), Exactly(true));
    forall e | e in args
      ensures exists r: Row :: Hits(aim(e), e, r)
    {
      if e == bad {
        assert Hits(aim(e), e, r);
      } else {
        var r' := Steer(e, true, true);
        assert Hits(aim(e), e, r');
      }
    }
    row := Arrange(args, aim);
    VisitAnd(MAIN, args, row);
    VisitAnd(RESOURCE, args, row);
    assert Hits(aim(bad), bad, row);
  }

  /** A row on which the filter is not the disjunction of its clauses. */
  lemma {:induction false} DisjBreaks(e: Expr) returns (row: Row)
    requires ReadOnce(e) && !HasOr(e) && !OneSided(e) && !Disj(e)
    ensures Sem(e, row) != (Passes(MAIN, e, row) || Passes(RESOURCE, e, row))
    decreases e, 1
  {
    match e
    case Or(args) =>
      OnlyMember(args);
      row := _ => false;
      VisitOr(MAIN, args, row);
      VisitOr(RESOURCE, args, row);
      row := DisjBreaks(args[0]);
      VisitOr(MAIN, args, row);
      VisitOr(RESOURCE, args, row);
    case And(args) =>
      row := AndDisjBreaks(args);
    case Not(a) =>
      row := ConjBreaks(a);
    case Group(a) =>
      row := DisjBreaks(a);
    case Atom(l) =>
      row := (t: Test) => !IsResourceTest(t);
      LeafParts(l, row);
      VisitComparison(RESOURCE, l, row);
      VisitComparison(MAIN, l, row);
  }

  /** All members' clauses of one side hold and one member does not. */
  lemma {:induction false} OneSideHolds(args: seq<Expr>, bad: Expr, main: bool, sample: Row) returns (row: Row)
    requires ReadOnce(And(args)) && !OneSided(And(args))
    requires bad in args && !Sem(bad, sample)
    requires if main then Allows(MAIN, bad, sample) else Allows(RESOURCE, bad, sample)
    ensures Sem(And(args), row) != (Passes(MAIN, And(args), row) || Passes(RESOURCE, And(args), row))
  {
    MemberTests(args);
    var side := if main then Aim(Any, Exactly(true), Any) else Aim(Any, Any, Exactly(true));
    var aim: Expr -> Aim := e => if e == bad then side.(sem := Exactly(false)) else side;
    forall e | e in args
      ensures exists r: Row :: Hits(aim(e), e, r)
    {
      if e == bad {
        assert Hits(aim(e), e, sample);
      } else {
        var r := Steer(e, true, true);
        assert Hits(aim(e), e, r);
      }
    }
    row := Arrange(args, aim);
    VisitAnd(MAIN, args, row);
    VisitAnd(RESOURCE, args, row);
    assert Hits(aim(bad), bad, row);
  }

  lemma {:induction false} AndDisjBreaks(args: seq<Expr>) returns (row: Row)
    requires ReadOnce(And(args)) && !HasOr(And(args)) && !OneSided(And(args)) && !Disj(And(args))
    ensures Sem(And(args), row) != (Passes(MAIN, And(args), row) || Passes(RESOURCE, And(args), row))
    decreases args, 1
  {
    MemberTests(args);
    row := _ => false;
    VisitAnd(MAIN, args, row);
    VisitAnd(RESOURCE, args, row);
    if |args| == 1 {
      OnlyMember(args);
      row := DisjBreaks(args[0]);
      VisitAnd(MAIN, args, row);
      VisitAnd(RESOURCE, args, row);
    } else if e :| e in args && Skips(MAIN, e) {
      var r := Grant(MAIN, SemIs(false), e);
      row := OneSideHolds(args, e, true, r);
    } else if e :| e in args && Skips(RESOURCE, e) {
      var r := Grant(MAIN, SemIs(false), e);
      row := OneSideHolds(args, e, false, r);
    } else {
      row := CrossedBreaks(args);
    }
  }

  /** Two members with both sides: satisfy one member's main clause and the other's resource clause. */
  lemma {:induction false} CrossedBreaks(args: seq<Expr>) returns (row: Row)
    requires ReadOnce(And(args)) && |args| > 1 && !OneSided(And(args))
    requires forall e :: e in args ==> !OneSided(e)
    ensures Sem(And(args), row) != (Passes(MAIN, And(args), row) || Passes(RESOURCE, And(args), row))
  {
    MemberTests(args);
    assert args[0] != args[1] by {
      HasTest(args[1]);
      MemberTests(args[1..]);
      assert args[1] in args[1..];
    }
    var aim: Expr -> Aim := e => if e == args[0] then Aim(Any, Exactly(true), Exactly(false)) else Aim(Any, Exactly(false), Exactly(true));
    forall e | e in args
      ensures exists r: Row :: Hits(aim(e), e, r)
    {
      var r := Steer(e, e == args[0], e != args[0]);
      assert Hits(aim(e), e, r);
    }
    row := Arrange(args, aim);
    VisitAnd(MAIN, args, row);
    VisitAnd(RESOURCE, args, row);
    assert args[0] in args && args[1] in args;
    assert Hits(aim(args[0]), args[0], row) && Hits(aim(args[1]), args[1], row);
    if !Sem(And(args), row) {
      var bad :| bad in args && !Sem(bad, row);
      assert Hits(aim(bad), bad, row);
      row := OneSideHolds(args, bad, bad == args[0], row);
    }
  }

  /** Without an OR, exactly the filters that are the conjunction of their two clauses. */
  lemma WithoutOr(e: Expr)
    requires ReadOnce(e) && !HasOr(e)
    ensures SplitsWell(e) <==> Conj(e)
  {
    ReadOnceIsWellFormed(e);
    if Conj(e) {
      WithoutOrHolds(e);
    } else {
      var row := ConjBreaks(e);
      SplitIsBoth(e, row);
      assert !(Split(e, row) <==> Sem(e, row));
    }
  }

  /* ---- what the conditions shut out ---- */

  /** A negated AND of the two kinds, whatever the rest of the filter looks like. */
  lemma NegatedMixedAnd(a: Expr, r: Expr)
    requires ReadOnce(Not(And([a, r]))) && !HasOr(a) && !HasOr(r)
    requires Skips(RESOURCE, a) && Skips(MAIN, r)
    ensures !SplitsWell(Not(And([a, r])))
  {
    var e := And([a, r]);
    assert a in e.args && r in e.args && forall x :: x in e.args ==> x == a || x == r;
    ReadOnceIsWellFormed(Not(e));
    OneSidedClause(a, _ => false);
    OneSidedClause(r, _ => false);
    VisitAnd(MAIN, [a, r], _ => false);
    VisitAnd(RESOURCE, [a, r], _ => false);
    WithoutOr(Not(e));
  }

  /** A name that resolves to both kinds of key: a positive comparison must then match on both. */
  lemma MixedKeys(l: Leaf)
    requires l.Comparison? && l.operand.Usable?
    requires exists k :: k in l.keys && k.context.Resource?
    requires exists k :: k in l.keys && !k.context.Resource?
    ensures SplitsWell(Atom(l)) <==> l.negative
  {
    var row: Row := _ => false;
    LeafClause(MAIN, l, row);
    LeafClause(RESOURCE, l, row);
    var k :| k in l.keys && k.context.Resource?;
    assert KeepsKey(RESOURCE, l.cmp, k);
    var k' :| k' in l.keys && !k'.context.Resource?;
    assert KeepsKey(MAIN, l.cmp, k');
    WithoutOr(Atom(l));
  }

  const ATTRIBUTE: Context := OtherContext("attribute")

  /** VisitKey: a name found in both the resource and the attribute context means the resource. */
  function Resolved(found: seq<Key>): seq<Key> {
    if (exists k :: k in found && k.context == Resource) && (exists k :: k in found && k.context == ATTRIBUTE)
    then OnlyResource(found) else found
  }

  function OnlyResource(keys: seq<Key>): seq<Key> {
    if keys == [] then [] else (if keys[0].context.Resource? then [keys[0]] else []) + OnlyResource(keys[1..])
  }

  lemma {:induction false} OnlyResourceMembers(keys: seq<Key>)
    ensures forall k :: k in OnlyResource(keys) <==> k in keys && k.context.Resource?
  {
    if keys != [] {
      OnlyResourceMembers(keys[1..]);
      assert keys == [keys[0]] + keys[1..];
    }
  }

  /** So the mixed case is left only to names found in the resource context and in a third one. */
  lemma ResolvedKeysMix(found: seq<Key>)
    ensures
      var keys := Resolved(found);
      (exists k :: k in keys && k.context.Resource?) && (exists k :: k in keys && !k.context.Resource?)
      <==>
      && (exists k :: k in found && k.context.Resource?)
      && (exists k :: k in found && !k.context.Resource?)
      && forall k :: k in found ==> k.context != ATTRIBUTE
  {
    OnlyResourceMembers(found);
  }

  /**
   Why an OR turns the resource skipping off: with both clauses skipping a branch each, neither would
   restrict anything.
   */
  lemma WithoutTheOverride(args: seq<Expr>, row: Row)
    requires exists a :: a in args && Skips(RESOURCE, a)
    requires exists a :: a in args && Skips(MAIN, a)
    ensures Allows(MAIN, Or(args), row) && Allows(RESOURCE, Or(args), row)
  {
    VisitOr(MAIN, args, row);
    VisitOr(RESOURCE, args, row);
  }
}
