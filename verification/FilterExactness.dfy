/** The conditions of FilterCompiler are exact for distinct tests. */
module FilterExactness {
  /*
   When no test occurs twice, the tests of a row are independent: a compiled clause is implied by the
   expression exactly when `Weak` holds, and implies it exactly when `Strong` holds.
   */

  import opened FilterCompiler

  function LeafTests(l: Leaf): set<Test> {
    match l
    case Comparison(keys, cmp, _, _, _) => set k | k in keys :: KeyTest(k, cmp)
    case FullText(t) => {TextTest(t)}
    case Call(c) => {CallTest(c)}
  }

  function ListTests(es: seq<Expr>): set<Test>
    decreases es, 0
  {
    if es == [] then {} else Tests(es[0]) + ListTests(es[1..])
  }

  function Tests(e: Expr): set<Test>
    decreases e, 1
  {
    match e
    case Or(args) => ListTests(args)
    case And(args) => ListTests(args)
    case Not(a) => Tests(a)
    case Group(a) => Tests(a)
    case Atom(l) => LeafTests(l)
  }

  predicate ListReadOnce(es: seq<Expr>)
    decreases es, 0
  {
    es != [] ==> ReadOnce(es[0]) && Tests(es[0]) !! ListTests(es[1..]) && ListReadOnce(es[1..])
  }

  /** No test twice; no empty list; no comparison without a usable operand. */
  predicate ReadOnce(e: Expr)
    decreases e, 1
  {
    match e
    case Or(args) => args != [] && ListReadOnce(args)
    case And(args) => args != [] && ListReadOnce(args)
    case Not(a) => ReadOnce(a)
    case Group(a) => ReadOnce(a)
    case Atom(l) => l.Comparison? ==> l.keys != [] && l.operand.Usable?
  }

  ghost predicate Agree(ts: set<Test>, a: Row, b: Row) {
    forall t :: t in ts ==> a(t) == b(t)
  }

  lemma {:induction false} MemberTests(es: seq<Expr>)
    ensures forall e :: e in es ==> Tests(e) <= ListTests(es)
    ensures ListReadOnce(es) ==> forall e :: e in es ==> ReadOnce(e)
  {
    if es != [] {
      MemberTests(es[1..]);
      assert forall e :: e in es <==> e == es[0] || e in es[1..];
    }
  }

  /** Only the tests of an expression matter to it and to its clause. */
  lemma {:induction false} OnlyTestsMatter(o: Options, e: Expr, a: Row, b: Row)
    requires Agree(Tests(e), a, b)
    ensures Sem(e, a) == Sem(e, b)
    ensures Passes(o, e, a) == Passes(o, e, b)
  {
    match e
    case Or(args) =>
      MemberTests(args);
      VisitOr(o, args, a);
      VisitOr(o, args, b);
      forall m | m in args
        ensures Sem(m, a) == Sem(m, b) && Passes(o, m, a) == Passes(o, m, b)
      {
        OnlyTestsMatter(o, m, a, b);
      }
    case And(args) =>
      MemberTests(args);
      VisitAnd(o, args, a);
      VisitAnd(o, args, b);
      forall m | m in args
        ensures Sem(m, a) == Sem(m, b) && Passes(o, m, a) == Passes(o, m, b)
      {
        OnlyTestsMatter(o, m, a, b);
      }
    case Not(x) => OnlyTestsMatter(o, x, a, b);
    case Group(x) => OnlyTestsMatter(o, x, a, b);
    case Atom(l) =>
      if l.Comparison? {
        forall k | k in l.keys
          ensures a(KeyTest(k, l.cmp)) == b(KeyTest(k, l.cmp))
        {
          assert KeyTest(k, l.cmp) in LeafTests(l);
        }
        if VisitLeaf(o, l).Sql? {
          VisitComparison(o, l, a);
          VisitComparison(o, l, b);
        }
      }
  }

  /* ---- making independent members behave as wanted ---- */

  /** A wish about one expression and a row that depends only on the expression's tests. */
  type Goal = (Expr, Row) -> bool

  ghost predicate IsLocal(goal: Goal) {
    forall e: Expr, a: Row, b: Row {:trigger goal(e, a), goal(e, b)} :: Agree(Tests(e), a, b) ==> goal(e, a) == goal(e, b)
  }

  /** Members that share no test can each have their wish in one row. */
  lemma {:induction false} Glue(es: seq<Expr>, goal: Goal) returns (row: Row)
    requires ListReadOnce(es) && IsLocal(goal)
    requires forall e :: e in es ==> exists r: Row :: goal(e, r)
    ensures forall e :: e in es ==> goal(e, row)
    decreases |es|
  {
    if es == [] {
      row := t => false;
    } else {
      assert forall e :: e in es <==> e == es[0] || e in es[1..];
      var rest := Glue(es[1..], goal);
      assert es[0] in es;
      var r: Row :| goal(es[0], r);
      var mine := Tests(es[0]);
      row := t => if t in mine then r(t) else rest(t);
      MemberTests(es[1..]);
      assert Agree(Tests(es[0]), row, r);
      forall e | e in es[1..]
        ensures goal(e, row)
      {
        assert Tests(e) <= ListTests(es[1..]);
        assert Agree(Tests(e), row, rest);
        assert goal(e, rest);
      }
    }
  }

  /* ---- the five wishes ---- */

  datatype Wish = SemIs(b: bool) | ClauseIs(b: bool) | Loses | Gains

  /** Loses: a row of the filter that the clause rejects. Gains: a row the clause accepts and the filter does not. */
  predicate Granted(o: Options, w: Wish, e: Expr, row: Row) {
    match w
    case SemIs(b) => Sem(e, row) == b
    case ClauseIs(b) => Passes(o, e, row) == b
    case Loses => Sem(e, row) && !Passes(o, e, row)
    case Gains => Passes(o, e, row) && !Sem(e, row)
  }

  predicate Grantable(o: Options, w: Wish, e: Expr) {
    match w
    case SemIs(_) => true
    case ClauseIs(b) => !b || !Skips(o, e)
    case Loses => !Skips(o, e) && !Weak(o, e)
    case Gains => !Skips(o, e) && !Strong(o, e)
  }

  function WishGoal(o: Options, wish: Expr -> Wish): Goal {
    (e: Expr, row: Row) => Granted(o, wish(e), e, row)
  }

  lemma WishIsLocal(o: Options, wish: Expr -> Wish)
    ensures IsLocal(WishGoal(o, wish))
  {
    forall e: Expr, a: Row, b: Row | Agree(Tests(e), a, b)
      ensures WishGoal(o, wish)(e, a) == WishGoal(o, wish)(e, b)
    {
      OnlyTestsMatter(o, e, a, b);
      assert Granted(o, wish(e), e, a) == Granted(o, wish(e), e, b);
    }
  }

  lemma {:induction false} GrantAll(o: Options, es: seq<Expr>, wish: Expr -> Wish) returns (row: Row)
    requires ListReadOnce(es)
    requires forall e :: e in es ==> Grantable(o, wish(e), e)
    ensures forall e :: e in es ==> Granted(o, wish(e), e, row)
    decreases es, 0
  {
    WishIsLocal(o, wish);
    MemberTests(es);
    var goal := WishGoal(o, wish);
    forall e | e in es
      ensures exists r: Row :: goal(e, r)
    {
      var r := Grant(o, wish(e), e);
      assert goal(e, r);
    }
    row := Glue(es, goal);
    forall e | e in es
      ensures Granted(o, wish(e), e, row)
    {
      assert goal(e, row);
    }
  }

  /** Every grantable wish is granted by some row. */
  lemma {:induction false} Grant(o: Options, w: Wish, e: Expr) returns (row: Row)
    requires ReadOnce(e) && Grantable(o, w, e)
    ensures Granted(o, w, e, row)
    decreases e, 1
  {
    match e
    case Or(args) => row := GrantOr(o, w, args);
    case And(args) => row := GrantAnd(o, w, args);
    case Not(a) =>
      var w' := match w case SemIs(b) => SemIs(!b) case ClauseIs(b) => ClauseIs(!b) case Loses => Gains case Gains => Loses;
      if w == ClauseIs(false) && Skips(o, a) {
        row := t => false;
      } else {
        row := Grant(o, w', a);
      }
    case Group(a) => row := Grant(o, w, a);
    case Atom(l) => row := GrantLeaf(o, w, l);
  }

  lemma {:induction false} GrantOr(o: Options, w: Wish, args: seq<Expr>) returns (row: Row)
    requires ReadOnce(Or(args)) && Grantable(o, w, Or(args))
    ensures Granted(o, w, Or(args), row)
    decreases args, 1
  {
    assert args[0] in args;
    VisitOr(o, args, _ => false);
    var wish: Expr -> Wish := _ => w;
    if w.Loses? {
      var bad :| bad in args && !Weak(o, bad);
      wish := e => if e == bad then Loses else ClauseIs(false);
    } else if w.Gains? {
      var bad :| bad in args && !Strong(o, bad);
      wish := e => if e == bad then Gains else SemIs(false);
    } else if w == ClauseIs(false) {
      wish := e => ClauseIs(false);
    }
    row := GrantAll(o, args, wish);
    VisitOr(o, args, row);
    if w.Loses? || w.Gains? {
      assert exists bad :: bad in args && Granted(o, w, bad, row);
    }
    assert Granted(o, wish(args[0]), args[0], row);
  }

  lemma {:induction false} GrantAnd(o: Options, w: Wish, args: seq<Expr>) returns (row: Row)
    requires ReadOnce(And(args)) && Grantable(o, w, And(args))
    ensures Granted(o, w, And(args), row)
    decreases args, 1
  {
    assert args[0] in args;
    VisitAnd(o, args, _ => false);
    var wish: Expr -> Wish := _ => w;
    if w.Loses? {
      var bad :| bad in args && !Weak(o, bad);
      wish := e => if e == bad then Loses else SemIs(true);
    } else if w.Gains? {
      var bad :| bad in args && !Strong(o, bad);
      wish := e => if e == bad then (if Skips(o, e) then SemIs(false) else Gains) else ClauseIs(!Skips(o, e));
    } else if w.ClauseIs? {
      wish := e => ClauseIs(w.b && !Skips(o, e));
    }
    row := GrantAll(o, args, wish);
    VisitAnd(o, args, row);
    assert Granted(o, wish(args[0]), args[0], row);
  }

  lemma GrantLeaf(o: Options, w: Wish, l: Leaf) returns (row: Row)
    requires ReadOnce(Atom(l)) && Grantable(o, w, Atom(l))
    ensures Granted(o, w, Atom(l), row)
  {
    match w
    case SemIs(b) =>
      row := _ => b;
      if l.Comparison? { assert l.keys[0] in l.keys; }
    case ClauseIs(b) =>
      row := _ => b;
      if l.Comparison? && VisitLeaf(o, l).Sql? { VisitComparison(o, l, row); }
    case Loses =>
      // a positive comparison whose only match is on a dropped key
      row := (t: Test) => t.KeyTest? && !KeepsKey(o, l.cmp, t.key);
      VisitComparison(o, l, row);
    case Gains =>
      // a negative comparison that only a dropped key violates
      row := (t: Test) => t.KeyTest? && KeepsKey(o, l.cmp, t.key);
      VisitComparison(o, l, row);
  }

  /* ---- the exact conditions ---- */

  /** Exactly when a clause keeps every row of the filter. */
  lemma WeakerIffWeak(o: Options, e: Expr)
    requires ReadOnce(e)
    ensures (forall row: Row :: Sem(e, row) ==> Skips(o, e) || Passes(o, e, row)) <==> Weak(o, e)
  {
    if Skips(o, e) {
    } else if Weak(o, e) {
      forall row: Row { Directions(o, e, row); }
    } else {
      var row := Grant(o, Loses, e);
    }
  }

  /** Exactly when a clause lets no other row through. */
  lemma StrongerIffStrong(o: Options, e: Expr)
    requires ReadOnce(e) && !Skips(o, e)
    ensures (forall row: Row :: Passes(o, e, row) ==> Sem(e, row)) <==> Strong(o, e)
  {
    if Strong(o, e) {
      forall row: Row { Directions(o, e, row); }
    } else {
      var row := Grant(o, Gains, e);
    }
  }
}
