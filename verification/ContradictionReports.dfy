/**
 What a report of the contradiction detector proves about a filter, and the filters on which it proves nothing.
 */
module ContradictionReports {
  /*
   A choice of a filter keeps one branch of every OR that is not negated. A report that is not a heuristic
   means that some choice matches no row; a filter without such ORs is its only choice.
   */

  import opened TimeWindows
  import opened ContradictionChecks
  import opened Contradictions

  /** The filter, or its negation under an odd number of NOTs. */
  predicate Asks(parse: Parse, e: Expr, neg: bool, row: Row) {
    Sem(parse, e, row) != neg
  }

  /* ---- choices ---- */

  predicate IsChoice(c: Expr, e: Expr, neg: bool)
    decreases e
  {
    match e
    case Or(args) =>
      if |args| <= 1 || neg
      then c.Or? && |c.args| == |args| && forall i :: 0 <= i < |args| ==> IsChoice(c.args[i], args[i], neg)
      else exists a :: a in args && IsChoice(c, a, neg)
    case And(args) => c.And? && |c.args| == |args| && forall i :: 0 <= i < |args| ==> IsChoice(c.args[i], args[i], neg)
    case Not(a) => c.Not? && IsChoice(c.arg, a, !neg)
    case Group(a) => c.Group? && IsChoice(c.arg, a, neg)
    case _ => c == e
  }

  /** Every row that matches a choice matches the filter. */
  lemma {:induction false} ChoiceMatches(parse: Parse, c: Expr, e: Expr, neg: bool, row: Row)
    requires IsChoice(c, e, neg) && Asks(parse, c, neg, row)
    ensures Asks(parse, e, neg, row)
    decreases e
  {
    match e
    case Or(args) =>
      if |args| <= 1 || neg {
        forall i | 0 <= i < |args| && Asks(parse, c.args[i], neg, row)
          ensures Asks(parse, args[i], neg, row)
        {
          ChoiceMatches(parse, c.args[i], args[i], neg, row);
        }
        forall a | a in args && neg
          ensures !Sem(parse, a, row)
        {
          var i :| 0 <= i < |args| && args[i] == a;
          assert c.args[i] in c.args;
        }
        if !neg {
          var a :| a in c.args && Sem(parse, a, row);
          assert a == c.args[0] && args[0] in args;
        }
      } else {
        var a :| a in args && IsChoice(c, a, neg);
        ChoiceMatches(parse, c, a, neg, row);
      }
    case And(args) =>
      forall i | 0 <= i < |args| && Asks(parse, c.args[i], neg, row)
        ensures Asks(parse, args[i], neg, row)
      {
        ChoiceMatches(parse, c.args[i], args[i], neg, row);
      }
      if neg {
        var a :| a in c.args && !Sem(parse, a, row);
        var i :| 0 <= i < |args| && c.args[i] == a;
        assert args[i] in args;
      } else {
        forall a | a in args
          ensures Sem(parse, a, row)
        {
          var i :| 0 <= i < |args| && args[i] == a;
          assert c.args[i] in c.args;
        }
      }
    case Not(a) => ChoiceMatches(parse, c.arg, a, !neg, row);
    case Group(a) => ChoiceMatches(parse, c.arg, a, neg, row);
    case _ =>
  }

  /** And every row that matches the filter matches one of its choices. */
  lemma {:induction false} Choose(parse: Parse, e: Expr, neg: bool, row: Row) returns (c: Expr)
    requires Usable(e)
    ensures IsChoice(c, e, neg)
    ensures Asks(parse, e, neg, row) ==> Asks(parse, c, neg, row)
    decreases e, 1
  {
    match e
    case Or(args) =>
      if |args| <= 1 || neg {
        var cs := ChooseAll(parse, args, neg, row);
        c := Or(cs);
        if neg {
          forall d | d in cs && !Sem(parse, e, row)
            ensures !Sem(parse, d, row)
          {
            var i :| 0 <= i < |cs| && cs[i] == d;
            assert args[i] in args;
          }
        } else if |args| == 1 {
          assert cs[0] in cs;
        }
      } else {
        var a := args[0];
        if Sem(parse, e, row) {
          a :| a in args && Sem(parse, a, row);
        }
        c := Choose(parse, a, neg, row);
      }
    case And(args) =>
      var cs := ChooseAll(parse, args, neg, row);
      c := And(cs);
      if !neg {
        forall d | d in cs && Sem(parse, e, row)
          ensures Sem(parse, d, row)
        {
          var i :| 0 <= i < |cs| && cs[i] == d;
          assert args[i] in args;
        }
      } else if !Sem(parse, e, row) {
        var a :| a in args && !Sem(parse, a, row);
        var i :| 0 <= i < |args| && args[i] == a;
        assert cs[i] in cs;
      }
    case Not(a) =>
      c := Choose(parse, a, !neg, row);
      c := Not(c);
    case Group(a) =>
      c := Choose(parse, a, neg, row);
      c := Group(c);
    case _ => c := e;
  }

  lemma {:induction false} ChooseAll(parse: Parse, es: seq<Expr>, neg: bool, row: Row) returns (cs: seq<Expr>)
    requires forall e :: e in es ==> Usable(e)
    ensures |cs| == |es| && forall i :: 0 <= i < |es| ==> IsChoice(cs[i], es[i], neg)
    ensures forall i :: 0 <= i < |es| && Asks(parse, es[i], neg, row) ==> Asks(parse, cs[i], neg, row)
    decreases es, 0
  {
    if es == [] {
      cs := [];
    } else {
      assert es[0] in es;
      var c := Choose(parse, es[0], neg, row);
      var rest := ChooseAll(parse, es[1..], neg, row);
      cs := [c] + rest;
      forall i | 0 < i < |es|
        ensures cs[i] == rest[i - 1] && es[i] == es[1..][i - 1]
      {
      }
    }
  }

  /** What the grammar guarantees. */
  predicate Usable(e: Expr) {
    match e
    case Or(args) => args != [] && forall a :: a in args ==> Usable(a)
    case And(args) => args != [] && forall a :: a in args ==> Usable(a)
    case Not(a) => Usable(a)
    case Group(a) => Usable(a)
    case _ => true
  }

  /** A filter is the union of its choices. */
  lemma ChoicesCover(parse: Parse, e: Expr, row: Row)
    requires Usable(e)
    ensures Sem(parse, e, row) <==> exists c :: IsChoice(c, e, false) && Sem(parse, c, row)
  {
    if Sem(parse, e, row) {
      var c := Choose(parse, e, false, row);
      assert IsChoice(c, e, false) && Sem(parse, c, row);
    }
    forall c | IsChoice(c, e, false) && Sem(parse, c, row)
      ensures Sem(parse, e, row)
    {
      ChoiceMatches(parse, c, e, false, row);
    }
  }

  /** No OR with several branches outside an odd number of NOTs. */
  predicate NoOpenOr(e: Expr, neg: bool) {
    match e
    case Or(args) => (|args| <= 1 || neg) && forall a :: a in args ==> NoOpenOr(a, neg)
    case And(args) => forall a :: a in args ==> NoOpenOr(a, neg)
    case Not(a) => NoOpenOr(a, !neg)
    case Group(a) => NoOpenOr(a, neg)
    case _ => true
  }

  lemma {:induction false} OnlyChoice(c: Expr, e: Expr, neg: bool)
    requires IsChoice(c, e, neg) && NoOpenOr(e, neg)
    ensures c == e
    decreases e
  {
    match e
    case Or(args) =>
      forall i | 0 <= i < |args| ensures c.args[i] == args[i] { OnlyChoice(c.args[i], args[i], neg); }
      assert c.args == args;
    case And(args) =>
      forall i | 0 <= i < |args| ensures c.args[i] == args[i] { OnlyChoice(c.args[i], args[i], neg); }
      assert c.args == args;
    case Not(a) => OnlyChoice(c.arg, a, !neg);
    case Group(a) => OnlyChoice(c.arg, a, neg);
    case _ =>
  }

  /* ---- the fragment ---- */

  /** No AND of several members under an odd number of NOTs, and no IN operand outside parentheses. */
  predicate Plain(e: Expr, neg: bool) {
    match e
    case Or(args) => forall a :: a in args ==> Plain(a, neg)
    case And(args) => (neg ==> |args| <= 1) && forall a :: a in args ==> Plain(a, neg)
    case Not(a) => Plain(a, !neg)
    case Group(a) => Plain(a, neg)
    case Compare(_, _, bare) => !bare
    case Opaque(_) => true
  }

  /** A range comparison that is negated finds a value it can be compared with. */
  predicate Covers(parse: Parse, row: Row, e: Expr, neg: bool) {
    match e
    case Or(args) => forall a :: a in args ==> Covers(parse, row, a, neg)
    case And(args) => forall a :: a in args ==> Covers(parse, row, a, neg)
    case Not(a) => Covers(parse, row, a, !neg)
    case Group(a) => Covers(parse, row, a, neg)
    case Compare(field, c, _) =>
      neg && IsRange(c.op) ==> row.fields(field).Some? && SameKind(row.fields(field).value, Meaning(parse, c.value))
    case Opaque(_) => true
  }

  function ListTexts(es: seq<Expr>): set<string>
    decreases es, 0
  {
    if es == [] then {} else Texts(es[0]) + ListTexts(es[1..])
  }

  /** The values written in a filter. */
  function Texts(e: Expr): set<string>
    decreases e, 1
  {
    match e
    case Or(args) => ListTexts(args)
    case And(args) => ListTexts(args)
    case Not(a) => Texts(a)
    case Group(a) => Texts(a)
    case Compare(_, c, _) => {c.value} + (set s | s in c.values)
    case Opaque(_) => {}
  }

  /* ---- the recorded constraints follow from the filter ---- */

  predicate Meets(parse: Parse, row: Row, m: Constraints) {
    forall field :: field in m ==> HoldsAll(parse, row.fields(field), m[field])
  }

  predicate UsesOnly(texts: set<string>, m: Constraints) {
    forall field :: field in m ==> forall c :: c in m[field] ==> Uses(texts, c)
  }

  /**
   negateOperator is the complement exactly where a range comparison finds a value it can compare; elsewhere
   both it and its negation fail.
   */
  lemma NegationIsComplement(parse: Parse, field: Option<Value>, c: Constraint)
    ensures Holds(parse, field, c.(op := Negate(c.op))) ==> !Holds(parse, field, c)
    ensures (Holds(parse, field, c.(op := Negate(c.op))) <==> !Holds(parse, field, c)) <==>
            (IsRange(c.op) ==> field.Some? && SameKind(field.value, Meaning(parse, c.value)))
  {
  }

  /** The filter as the detector reads it: NOT pushed down to the comparisons, which it negates. */
  function Pushed(e: Expr, neg: bool): Expr
    decreases e, 1
  {
    match e
    case Or(args) => if neg then And(PushedAll(args, neg)) else Or(PushedAll(args, neg))
    case And(args) => if neg then Or(PushedAll(args, neg)) else And(PushedAll(args, neg))
    case Not(a) => Pushed(a, !neg)
    case Group(a) => Group(Pushed(a, neg))
    case Compare(field, c, bare) => if neg then Compare(field, c.(op := Negate(c.op)), bare) else e
    case Opaque(_) => if neg then Not(e) else e
  }

  function PushedAll(es: seq<Expr>, neg: bool): (r: seq<Expr>)
    ensures |r| == |es|
    decreases es, 0
  {
    if es == [] then [] else [Pushed(es[0], neg)] + PushedAll(es[1..], neg)
  }

  /** Pushing NOT down admits no row more, and loses none on which every negated range comparison can compare. */
  lemma {:induction false} PushedMeaning(parse: Parse, e: Expr, neg: bool, row: Row)
    ensures Sem(parse, Pushed(e, neg), row) ==> Asks(parse, e, neg, row)
    ensures Covers(parse, row, e, neg) && Asks(parse, e, neg, row) ==> Sem(parse, Pushed(e, neg), row)
    decreases e, 1
  {
    match e
    case Or(args) => PushedMembers(parse, args, neg, row);
    case And(args) => PushedMembers(parse, args, neg, row);
    case Not(a) => PushedMeaning(parse, a, !neg, row);
    case Group(a) => PushedMeaning(parse, a, neg, row);
    case Compare(field, c, _) => NegationIsComplement(parse, row.fields(field), c);
    case Opaque(_) =>
  }

  predicate AllSem(parse: Parse, es: seq<Expr>, row: Row) {
    forall e :: e in es ==> Sem(parse, e, row)
  }

  predicate AnySem(parse: Parse, es: seq<Expr>, row: Row) {
    exists e :: e in es && Sem(parse, e, row)
  }

  lemma {:induction false} PushedMembers(parse: Parse, es: seq<Expr>, neg: bool, row: Row)
    ensures AllSem(parse, PushedAll(es, neg), row) ==> forall e :: e in es ==> Asks(parse, e, neg, row)
    ensures AnySem(parse, PushedAll(es, neg), row) ==> exists e :: e in es && Asks(parse, e, neg, row)
    ensures (forall e :: e in es ==> Covers(parse, row, e, neg)) ==>
              && ((forall e :: e in es ==> Asks(parse, e, neg, row)) ==> AllSem(parse, PushedAll(es, neg), row))
              && ((exists e :: e in es && Asks(parse, e, neg, row)) ==> AnySem(parse, PushedAll(es, neg), row))
    decreases es, 0
  {
    if es != [] {
      var rs := PushedAll(es, neg);
      assert rs[0] == Pushed(es[0], neg) && rs[1..] == PushedAll(es[1..], neg);
      PushedMeaning(parse, es[0], neg, row);
      PushedMembers(parse, es[1..], neg, row);
      assert es[0] in es && rs[0] in rs;
      assert forall e :: e in es <==> e == es[0] || e in es[1..];
      assert forall e :: e in rs <==> e == rs[0] || e in rs[1..];
    }
  }

  lemma AddedUses(texts: set<string>, m: Constraints, field: string, c: Constraint)
    requires UsesOnly(texts, m) && Uses(texts, c)
    ensures UsesOnly(texts, Added(m, field, c))
  {
    var m' := Added(m, field, c);
    forall x | x in m'[field]
      ensures Uses(texts, x)
    {
      assert x in Get(m, field) || x == c || x == Constraint(Exists, "", []);
    }
  }

  lemma AddedMeets(parse: Parse, row: Row, m: Constraints, field: string, c: Constraint)
    requires Meets(parse, row, m) && Holds(parse, row.fields(field), c)
    ensures Meets(parse, row, Added(m, field, c))
  {
    var m' := Added(m, field, c);
    forall x | x in m'[field]
      ensures Holds(parse, row.fields(field), x)
    {
      assert x in Get(m, field) || x == c || (ImpliesExistence(c.op) && x == Constraint(Exists, "", []));
    }
  }

  /** The constraint recorded for a comparison uses its values, and holds where the comparison is asked for. */
  lemma RecordedHolds(parse: Parse, texts: set<string>, e: Expr, neg: bool, row: Row)
    requires e.Compare? && Plain(e, neg) && Texts(e) <= texts
    ensures Uses(texts, Recorded(e.c, e.bare, neg))
    ensures Covers(parse, row, e, neg) && Asks(parse, e, neg, row) ==> Holds(parse, row.fields(e.field), Recorded(e.c, e.bare, neg))
  {
    if neg { NegationIsComplement(parse, row.fields(e.field), e.c); }
  }

  lemma CompareKeeps(parse: Parse, texts: set<string>, e: Expr, neg: bool, m: Constraints, row: Row)
    requires e.Compare? && Plain(e, neg) && UsesOnly(texts, m) && Texts(e) <= texts
    ensures
      var m' := Added(m, e.field, Recorded(e.c, e.bare, neg));
      && UsesOnly(texts, m')
      && (Meets(parse, row, m) && Covers(parse, row, e, neg) && Asks(parse, e, neg, row) ==> Meets(parse, row, m'))
  {
    RecordedHolds(parse, texts, e, neg, row);
    AddedUses(texts, m, e.field, Recorded(e.c, e.bare, neg));
    if Meets(parse, row, m) && Covers(parse, row, e, neg) && Asks(parse, e, neg, row) {
      AddedMeets(parse, row, m, e.field, Recorded(e.c, e.bare, neg));
    }
  }

  /** Walking keeps the constraints true of every row that matches what was walked. */
  lemma {:induction false} WalkKeeps(parse: Parse, texts: set<string>, e: Expr, neg: bool, st: State, row: Row)
    requires Plain(e, neg) && UsesOnly(texts, st.m) && Texts(e) <= texts
    ensures UsesOnly(texts, Walk(parse, e, neg, st).m)
    ensures Meets(parse, row, st.m) && Covers(parse, row, e, neg) && Asks(parse, e, neg, row) ==> Meets(parse, row, Walk(parse, e, neg, st).m)
    decreases e, 1
  {
    match e
    case Or(args) =>
      if |args| == 1 {
        assert ListTexts(args) == Texts(args[0]) + ListTexts(args[1..]);
        assert forall a :: a in args <==> a == args[0];
        WalkKeeps(parse, texts, args[0], neg, st, row);
      }
    case And(args) =>
      WalkAllKeeps(parse, texts, args, neg, st, row);
      if |args| == 1 {
        assert forall a :: a in args <==> a == args[0];
      }
    case Not(a) => WalkKeeps(parse, texts, a, !neg, st, row);
    case Group(a) => WalkKeeps(parse, texts, a, neg, st, row);
    case Compare(_, _, _) => CompareKeeps(parse, texts, e, neg, st.m, row);
    case Opaque(_) =>
  }

  predicate AskAll(parse: Parse, es: seq<Expr>, neg: bool, row: Row) {
    forall e :: e in es ==> Covers(parse, row, e, neg) && Asks(parse, e, neg, row)
  }

  lemma {:induction false} WalkAllKeeps(parse: Parse, texts: set<string>, es: seq<Expr>, neg: bool, st: State, row: Row)
    requires (forall e :: e in es ==> Plain(e, neg)) && UsesOnly(texts, st.m) && ListTexts(es) <= texts
    ensures UsesOnly(texts, WalkAll(parse, es, neg, st).m)
    ensures Meets(parse, row, st.m) && AskAll(parse, es, neg, row) ==> Meets(parse, row, WalkAll(parse, es, neg, st).m)
    decreases es, 0
  {
    if es != [] {
      assert es[0] in es && forall e :: e in es[1..] ==> e in es;
      WalkKeeps(parse, texts, es[0], neg, st, row);
      WalkAllKeeps(parse, texts, es[1..], neg, Walk(parse, es[0], neg, st), row);
    }
  }

  /* ---- a report is about a choice ---- */

  /** No row can meet the constraints so far and match the choice. */
  ghost predicate Dead(parse: Parse, m: Constraints, c: Expr, e: Expr, neg: bool) {
    forall row: Row :: Meets(parse, row, m) && Covers(parse, row, e, neg) ==> !Asks(parse, c, neg, row)
  }

  lemma FoundIsRight(parse: Parse, texts: set<string>, m: Constraints, r: Report, row: Row)
    requires r in Found(parse, m) && !IsHeuristic(r.kind) && Canonical(parse, texts) && UsesOnly(texts, m)
    ensures !Meets(parse, row, m)
  {
    FindingIsRight(parse, texts, row.fields(r.field), m[r.field], r.kind);
  }

  lemma {:induction false} CompareReport(parse: Parse, texts: set<string>, e: Expr, neg: bool, st: State, r: Report)
    requires e.Compare? && Plain(e, neg) && UsesOnly(texts, st.m) && Texts(e) <= texts && Canonical(parse, texts)
    requires r in Walk(parse, e, neg, st).reports && r !in st.reports && !IsHeuristic(r.kind)
    ensures Dead(parse, st.m, e, e, neg)
  {
    forall row: Row | Meets(parse, row, st.m) && Covers(parse, row, e, neg)
      ensures !Asks(parse, e, neg, row)
    {
      var m' := Added(st.m, e.field, Recorded(e.c, e.bare, neg));
      CompareKeeps(parse, texts, e, neg, st.m, row);
      FoundIsRight(parse, texts, m', r, row);
    }
  }

  const NOWHERE: Row := Row(_ => None, _ => false)

  /** A report that appears while an expression is walked condemns one of its choices. */
  lemma {:induction false} WalkReport(parse: Parse, texts: set<string>, e: Expr, neg: bool, st: State, r: Report) returns (c: Expr)
    requires Usable(e) && Plain(e, neg) && UsesOnly(texts, st.m) && Texts(e) <= texts && Canonical(parse, texts)
    requires r in Walk(parse, e, neg, st).reports && r !in st.reports && !IsHeuristic(r.kind)
    ensures IsChoice(c, e, neg) && Dead(parse, st.m, c, e, neg)
    decreases e, 1
  {
    match e
    case Or(args) =>
      c := OrReport(parse, texts, args, neg, st, r);
    case And(args) =>
      var cs := AllReport(parse, texts, args, neg, st, r);
      c := And(cs);
      if |args| == 1 { assert cs[0] in cs; }
      forall row: Row | Meets(parse, row, st.m) && Covers(parse, row, e, neg)
        ensures !Asks(parse, c, neg, row)
      {
        assert !AskEach(parse, cs, neg, row);
        if neg { assert cs == [cs[0]]; }
      }
    case Not(a) =>
      c := WalkReport(parse, texts, a, !neg, st, r);
      assert forall row: Row :: Asks(parse, Not(c), neg, row) <==> Asks(parse, c, !neg, row);
      c := Not(c);
    case Group(a) =>
      c := WalkReport(parse, texts, a, neg, st, r);
      assert forall row: Row :: Asks(parse, Group(c), neg, row) <==> Asks(parse, c, neg, row);
      c := Group(c);
    case Compare(_, _, _) =>
      CompareReport(parse, texts, e, neg, st, r);
      c := e;
  }

  predicate AskEach(parse: Parse, cs: seq<Expr>, neg: bool, row: Row) {
    forall c :: c in cs ==> Asks(parse, c, neg, row)
  }

  lemma ChosenNext(c: Expr, rest: seq<Expr>, es: seq<Expr>, neg: bool)
    requires es != [] && IsChoice(c, es[0], neg)
    requires |rest| == |es| - 1 && forall i :: 0 <= i < |rest| ==> IsChoice(rest[i], es[1..][i], neg)
    ensures var cs := [c] + rest; |cs| == |es| && forall i :: 0 <= i < |es| ==> IsChoice(cs[i], es[i], neg)
  {
    var cs := [c] + rest;
    forall i | 0 < i < |es|
      ensures cs[i] == rest[i - 1] && es[i] == es[1..][i - 1]
    {
    }
  }

  lemma FirstAsksTooMuch(parse: Parse, es: seq<Expr>, neg: bool, m: Constraints, c: Expr, rest: seq<Expr>)
    requires es != [] && Dead(parse, m, c, es[0], neg)
    ensures forall row: Row :: Meets(parse, row, m) && (forall e :: e in es ==> Covers(parse, row, e, neg)) ==> !AskEach(parse, [c] + rest, neg, row)
  {
    assert ([c] + rest)[0] == c && es[0] in es;
    assert c in [c] + rest;
  }

  /** If no row meets the rest of an AND after its first member, none meets that member's choice with the rest. */
  lemma NoneAskEach(parse: Parse, texts: set<string>, es: seq<Expr>, neg: bool, st: State, c: Expr, rest: seq<Expr>)
    requires es != [] && Usable(es[0]) && Plain(es[0], neg) && IsChoice(c, es[0], neg)
    requires UsesOnly(texts, st.m) && Texts(es[0]) <= texts && Canonical(parse, texts)
    requires forall row: Row :: Meets(parse, row, Walk(parse, es[0], neg, st).m) && (forall e :: e in es[1..] ==> Covers(parse, row, e, neg))
                                ==> !AskEach(parse, rest, neg, row)
    ensures forall row: Row :: Meets(parse, row, st.m) && (forall e :: e in es ==> Covers(parse, row, e, neg)) ==> !AskEach(parse, [c] + rest, neg, row)
  {
    forall row: Row | Meets(parse, row, st.m) && (forall e :: e in es ==> Covers(parse, row, e, neg))
      ensures !AskEach(parse, [c] + rest, neg, row)
    {
      if AskEach(parse, [c] + rest, neg, row) {
        var cs := [c] + rest;
        assert cs[0] == c && c in cs && forall d :: d in rest ==> d in cs;
        assert es[0] in es && forall e :: e in es[1..] ==> e in es;
        ChoiceMatches(parse, c, es[0], neg, row);
        WalkKeeps(parse, texts, es[0], neg, st, row);
        assert AskEach(parse, rest, neg, row);
      }
    }
  }

  /** In an AND: the member at which it appears, given what the members before it ask. */
  lemma {:induction false} AllReport(parse: Parse, texts: set<string>, es: seq<Expr>, neg: bool, st: State, r: Report) returns (cs: seq<Expr>)
    requires forall e :: e in es ==> Usable(e) && Plain(e, neg)
    requires UsesOnly(texts, st.m) && ListTexts(es) <= texts && Canonical(parse, texts)
    requires r in WalkAll(parse, es, neg, st).reports && r !in st.reports && !IsHeuristic(r.kind)
    ensures |cs| == |es| && forall i :: 0 <= i < |es| ==> IsChoice(cs[i], es[i], neg)
    ensures forall row: Row :: Meets(parse, row, st.m) && (forall e :: e in es ==> Covers(parse, row, e, neg)) ==> !AskEach(parse, cs, neg, row)
    decreases es, 0
  {
    assert es[0] in es && forall e :: e in es[1..] ==> e in es;
    var st' := Walk(parse, es[0], neg, st);
    if r in st'.reports {
      var c := WalkReport(parse, texts, es[0], neg, st, r);
      var rest := ChooseAll(parse, es[1..], neg, NOWHERE);
      cs := [c] + rest;
      ChosenNext(c, rest, es, neg);
      FirstAsksTooMuch(parse, es, neg, st.m, c, rest);
    } else {
      WalkKeeps(parse, texts, es[0], neg, st, NOWHERE);
      var c := Choose(parse, es[0], neg, NOWHERE);
      var rest := AllReport(parse, texts, es[1..], neg, st', r);
      cs := [c] + rest;
      ChosenNext(c, rest, es, neg);
      NoneAskEach(parse, texts, es, neg, st, c, rest);
    }
  }

  /** In an OR: the branch at which it appears, on its own if the OR is not negated. */
  lemma {:induction false} OrReport(parse: Parse, texts: set<string>, args: seq<Expr>, neg: bool, st: State, r: Report) returns (c: Expr)
    requires Usable(Or(args)) && Plain(Or(args), neg) && UsesOnly(texts, st.m) && ListTexts(args) <= texts && Canonical(parse, texts)
    requires r in Walk(parse, Or(args), neg, st).reports && r !in st.reports && !IsHeuristic(r.kind)
    ensures IsChoice(c, Or(args), neg) && Dead(parse, st.m, c, Or(args), neg)
    decreases args, 1
  {
    var i, d := BranchReport(parse, texts, args, neg, st, r);
    assert args[i] in args;
    if |args| <= 1 || neg {
      var cs := ChooseAll(parse, args, neg, NOWHERE);
      cs := cs[i := d];
      c := Or(cs);
      assert cs[i] == d;
      forall row: Row | Meets(parse, row, st.m) && Covers(parse, row, Or(args), neg)
        ensures !Asks(parse, c, neg, row)
      {
        assert !Asks(parse, d, neg, row);
        if !neg { assert cs == [d]; }
      }
    } else {
      c := d;
    }
  }

  lemma {:induction false} BranchReport(parse: Parse, texts: set<string>, es: seq<Expr>, neg: bool, st: State, r: Report) returns (i: nat, d: Expr)
    requires es != [] && forall e :: e in es ==> Usable(e) && Plain(e, neg)
    requires UsesOnly(texts, st.m) && ListTexts(es) <= texts && Canonical(parse, texts)
    requires r in Walk(parse, Or(es), neg, st).reports || r in WalkBranches(parse, es, neg, st).reports
    requires r !in st.reports && !IsHeuristic(r.kind)
    ensures i < |es| && IsChoice(d, es[i], neg) && Dead(parse, st.m, d, es[i], neg)
    decreases es, 0
  {
    assert es[0] in es && forall e :: e in es[1..] ==> e in es;
    var st' := Walk(parse, es[0], neg, st);
    if r in st'.reports {
      i := 0;
      d := WalkReport(parse, texts, es[0], neg, st, r);
    } else {
      i, d := BranchReport(parse, texts, es[1..], neg, State(st.m, st'.reports), r);
      i := i + 1;
    }
  }

  /* ---- the main results ---- */

  ghost predicate NeverMatches(parse: Parse, c: Expr, e: Expr) {
    forall row: Row :: Covers(parse, row, e, false) ==> !Sem(parse, c, row)
  }

  /** A report that is not a heuristic: some choice of branches matches no row. */
  lemma ReportIsRight(parse: Parse, e: Expr, r: Report)
    requires Usable(e) && Plain(e, false) && Canonical(parse, Texts(e))
    requires r in Detected(parse, e) && !IsHeuristic(r.kind)
    ensures exists c :: IsChoice(c, e, false) && NeverMatches(parse, c, e)
  {
    var start := State(map[], {});
    var end := Walk(parse, e, false, start);
    if r in end.reports {
      var c := WalkReport(parse, Texts(e), e, false, start, r);
      forall row: Row | Covers(parse, row, e, false) ensures !Sem(parse, c, row) { assert Meets(parse, row, map[]); }
      assert NeverMatches(parse, c, e);
    } else {
      var c := Choose(parse, e, false, NOWHERE);
      forall row: Row | Covers(parse, row, e, false)
        ensures !Sem(parse, c, row)
      {
        WalkKeeps(parse, Texts(e), e, false, start, row);
        FoundIsRight(parse, Texts(e), end.m, r, row);
        if Sem(parse, c, row) { ChoiceMatches(parse, c, e, false, row); }
      }
      assert NeverMatches(parse, c, e);
    }
  }

  /** Without an OR to choose from, the filter itself matches no row. */
  lemma ReportIsFinal(parse: Parse, e: Expr, r: Report, row: Row)
    requires Usable(e) && Plain(e, false) && Canonical(parse, Texts(e)) && NoOpenOr(e, false)
    requires r in Detected(parse, e) && !IsHeuristic(r.kind)
    requires Covers(parse, row, e, false)
    ensures !Sem(parse, e, row)
  {
    ReportIsRight(parse, e, r);
    var c :| IsChoice(c, e, false) && NeverMatches(parse, c, e);
    OnlyChoice(c, e, false);
  }

  /* ---- reports outside the fragment ---- */

  function Implied(c: Constraint): seq<Constraint> {
    (if ImpliesExistence(c.op) then [Constraint(Exists, "", [])] else []) + [c]
  }

  /** The AND of two conditions on one field. */
  function Both(field: string, a: Constraint, b: Constraint, bare: bool): Expr {
    And([Compare(field, a, false), Compare(field, b, bare)])
  }

  function BothRecorded(a: Constraint, b: Constraint, bare: bool, neg: bool): seq<Constraint> {
    Implied(Recorded(a, false, neg)) + Implied(Recorded(b, bare, neg))
  }

  lemma CompareIsRecorded(parse: Parse, field: string, c: Constraint, bare: bool, neg: bool, st: State)
    requires IsRecorded(c)
    ensures
      var m := Walk(parse, Compare(field, c, bare), neg, st).m;
      field in m && m[field] == Get(st.m, field) + Implied(Recorded(c, bare, neg))
  {
  }

  lemma PairIsRecorded(parse: Parse, field: string, a: Constraint, b: Constraint, bare: bool, neg: bool)
    requires IsRecorded(a) && IsRecorded(b)
    ensures
      var m := Walk(parse, Both(field, a, b, bare), neg, State(map[], {})).m;
      field in m && m[field] == BothRecorded(a, b, bare, neg)
  {
    var start := State(map[], {});
    var first, second := Compare(field, a, false), Compare(field, b, bare);
    CompareIsRecorded(parse, field, a, false, neg, start);
    CompareIsRecorded(parse, field, b, bare, neg, Walk(parse, first, neg, start));
    assert [first, second][1..] == [second] && [second][1..] == [];
    assert WalkAll(parse, [second], neg, Walk(parse, first, neg, start)) == Walk(parse, second, neg, Walk(parse, first, neg, start));
  }

  lemma PairIsReported(parse: Parse, field: string, a: Constraint, b: Constraint, bare: bool, neg: bool, k: Kind)
    requires IsRecorded(a) && IsRecorded(b)
    requires Finds(parse, BothRecorded(a, b, bare, neg), k) && k in KINDS
    ensures Report(field, k) in Detected(parse, if neg then Not(Both(field, a, b, bare)) else Both(field, a, b, bare))
  {
    PairIsRecorded(parse, field, a, b, bare, neg);
    var end := Walk(parse, Both(field, a, b, bare), neg, State(map[], {}));
    assert |end.m[field]| >= 2;
    assert Report(field, k) in Found(parse, end.m);
  }

  lemma BothMatch(parse: Parse, field: string, a: Constraint, b: Constraint, bare: bool, row: Row)
    ensures Sem(parse, Both(field, a, b, bare), row) <==> Holds(parse, row.fields(field), a) && Holds(parse, row.fields(field), b)
  {
    var both := Both(field, a, b, bare);
    assert both.args[0] in both.args && both.args[1] in both.args;
  }

  lemma BothAreThere(a: Constraint, b: Constraint, bare: bool, neg: bool)
    ensures Recorded(a, false, neg) in BothRecorded(a, b, bare, neg) && Recorded(b, bare, neg) in BothRecorded(a, b, bare, neg)
  {
  }

  function RowWith(v: Value): Row {
    Row(_ => Some(v), _ => false)
  }

  function Equals(value: string): Constraint {
    Constraint(Eq, value, [])
  }

  /** A negated AND is taken apart as if its members were negated one by one: reported, yet every row matches. */
  lemma NegatedAndIsMisread(parse: Parse, field: string, value: string, row: Row)
    ensures
      var e := Not(Both(field, Equals(value), Constraint(Neq, value, []), false));
      Report(field, EqualAndNotEqual) in Detected(parse, e) && Sem(parse, e, row)
  {
    var a, b := Equals(value), Constraint(Neq, value, []);
    assert FindsPair(parse, BothRecorded(a, b, false, true), EqualAndNotEqual) by {
      BothAreThere(a, b, false, true);
    }
    PairIsReported(parse, field, a, b, false, true, EqualAndNotEqual);
    BothMatch(parse, field, a, b, false, row);
  }

  /** A row without the field meets every negated comparison on it. */
  lemma AbsentMeetsNegated(parse: Parse, field: string, a: Constraint, b: Constraint, row: Row)
    requires row.fields(field).None? && a.op.Lt? && b.op.Ge?
    ensures Sem(parse, And([Not(Compare(field, a, false)), Not(Compare(field, b, false))]), row)
  {
    var args := [Not(Compare(field, a, false)), Not(Compare(field, b, false))];
    assert Sem(parse, args[0], row) && Sem(parse, args[1], row);
    assert args[1..] == [args[1]] && args[1..][1..] == [];
    assert AllSem(parse, args, row);
  }

  lemma OppositesAreReported(parse: Parse, field: string, lt: Constraint, ge: Constraint, e: Expr)
    requires lt.op.Lt? && ge.op.Ge? && lt.value == ge.value && parse(lt.value).Some? && IsRecorded(lt) && IsRecorded(ge)
    requires e == And([Not(Compare(field, lt, false)), Not(Compare(field, ge, false))])
    ensures Report(field, EmptyRange) in Detected(parse, e)
  {
    var start := State(map[], {});
    var m := Walk(parse, e, false, start).m;
    NegatedPair(parse, field, lt, ge, start);
    BothAreThere(lt, ge, false, true);
    OppositeBounds(parse, m[field], Recorded(lt, false, true), Recorded(ge, false, true));
    assert Report(field, EmptyRange) in Found(parse, m);
  }

  /** Two negated range comparisons are reported as an empty range, yet a row without the field matches both. */
  lemma NegatedRangesAreMisread(parse: Parse, field: string, value: string, row: Row)
    requires parse(value).Some? && row.fields(field).None?
    ensures
      var e := And([Not(Compare(field, Constraint(Lt, value, []), false)), Not(Compare(field, Constraint(Ge, value, []), false))]);
      Report(field, EmptyRange) in Detected(parse, e) && Sem(parse, e, row)
  {
    var lt, ge := Constraint(Lt, value, []), Constraint(Ge, value, []);
    OppositesAreReported(parse, field, lt, ge, And([Not(Compare(field, lt, false)), Not(Compare(field, ge, false))]));
    AbsentMeetsNegated(parse, field, lt, ge, row);
  }

  lemma OppositeBounds(parse: Parse, cs: seq<Constraint>, a: Constraint, b: Constraint)
    requires a in cs && b in cs && a.op.Ge? && b.op.Lt? && a.value == b.value && parse(a.value).Some?
    ensures Finds(parse, cs, EmptyRange) && |cs| >= 2
  {
    SelectMembers(cs, Bounds);
    assert a in Select(cs, Bounds) && b in Select(cs, Bounds);
    forall x: real
      ensures !InBounds(parse, Select(cs, Bounds), x)
    {
      assert !InBound(parse, a, x) || !InBound(parse, b, x);
    }
    assert a != b;
  }

  lemma NegatedPair(parse: Parse, field: string, a: Constraint, b: Constraint, start: State)
    requires IsRecorded(a) && IsRecorded(b) && start == State(map[], {})
    ensures
      var m := WalkAll(parse, [Not(Compare(field, a, false)), Not(Compare(field, b, false))], false, start).m;
      field in m && m[field] == BothRecorded(a, b, false, true)
  {
    var first, second := Not(Compare(field, a, false)), Not(Compare(field, b, false));
    CompareIsRecorded(parse, field, a, false, true, start);
    CompareIsRecorded(parse, field, b, false, true, Walk(parse, first, false, start));
    assert [first, second][1..] == [second] && [second][1..] == [];
    assert WalkAll(parse, [second], false, Walk(parse, first, false, start)) == Walk(parse, second, false, Walk(parse, first, false, start));
  }

  /** An IN whose operand has no parentheses is recorded as an IN over nothing. */
  lemma BareInIsMisread(parse: Parse, field: string, value: string)
    ensures
      var e := Both(field, Equals(value), Constraint(In, "", [value]), true);
      Report(field, EqualMissingFromIn) in Detected(parse, e) && Sem(parse, e, RowWith(Meaning(parse, value)))
  {
    var a, b := Equals(value), Constraint(In, "", [value]);
    assert FindsPair(parse, BothRecorded(a, b, true, false), EqualMissingFromIn) by {
      BothAreThere(a, b, true, false);
    }
    PairIsReported(parse, field, a, b, true, false, EqualMissingFromIn);
    BothMatch(parse, field, a, b, true, RowWith(Meaning(parse, value)));
    assert value in b.values;
  }

  /** One number written in two ways is reported as two values. */
  lemma TwoSpellingsAreMisread(parse: Parse, field: string, s: string, t: string)
    requires s != t && Meaning(parse, s) == Meaning(parse, t)
    ensures
      var e := Both(field, Equals(s), Equals(t), false);
      Report(field, ManyValues) in Detected(parse, e) && Sem(parse, e, RowWith(Meaning(parse, s)))
  {
    assert FindsPair(parse, BothRecorded(Equals(s), Equals(t), false, false), ManyValues) by {
      BothAreThere(Equals(s), Equals(t), false, false);
    }
    PairIsReported(parse, field, Equals(s), Equals(t), false, false, ManyValues);
    BothMatch(parse, field, Equals(s), Equals(t), false, RowWith(Meaning(parse, s)));
  }
}
