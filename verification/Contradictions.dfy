/** Detecting filters that can never match. */
module Contradictions {
  /*
   The detector collects constraints per field while it walks the expression and reports pairs that clash.
   What the reports prove about a whole filter is in ContradictionReports.
   */

  import opened TimeWindows
  import opened ContradictionChecks

  /** bare: an IN whose operand is not in parentheses; opaque conditions are full text and function calls. */
  datatype Expr =
    | Or(args: seq<Expr>) | And(args: seq<Expr>) | Not(arg: Expr) | Group(arg: Expr)
    | Compare(field: string, c: Constraint, bare: bool)
    | Opaque(id: nat)

  function Negate(op: Op): Op {
    match op
    case Eq => Neq
    case Neq => Eq
    case Lt => Ge
    case Le => Gt
    case Gt => Le
    case Ge => Lt
    case In => NotIn
    case NotIn => In
    case Between => NotBetween
    case NotBetween => Between
    case Exists => NotExists
    case NotExists => Exists
  }

  /* ---- what a filter means ---- */

  /** A field may be absent from a row. */
  datatype Row = Row(fields: string -> Option<Value>, opaque_: nat -> bool)

  predicate Sem(parse: Parse, e: Expr, row: Row) {
    match e
    case Or(args) => exists a :: a in args && Sem(parse, a, row)
    case And(args) => forall a :: a in args ==> Sem(parse, a, row)
    case Not(a) => !Sem(parse, a, row)
    case Group(a) => Sem(parse, a, row)
    case Compare(field, c, _) => Holds(parse, row.fields(field), c)
    case Opaque(id) => row.opaque_(id)
  }

  /* ---- the walk ---- */

  type Constraints = map<string, seq<Constraint>>

  datatype Report = Report(field: string, kind: Kind)

  datatype State = State(m: Constraints, reports: set<Report>)

  function Get(m: Constraints, field: string): seq<Constraint> {
    if field in m then m[field] else []
  }

  /** addConstraint: a positive operator also demands that the field exists. */
  function Added(m: Constraints, field: string, c: Constraint): Constraints {
    m[field := Get(m, field) + (if ImpliesExistence(c.op) then [Constraint(Exists, "", [])] else []) + [c]]
  }

  ghost function Found(parse: Parse, m: Constraints): set<Report> {
    set field, k | field in m && k in KINDS && |m[field]| >= 2 && Finds(parse, m[field], k) :: Report(field, k)
  }

  ghost function Checked(parse: Parse, st: State): State {
    st.(reports := st.reports + Found(parse, st.m))
  }

  /** The constraint as the detector records it; it does not see an operand outside parentheses. */
  function Recorded(c: Constraint, bare: bool, neg: bool): Constraint {
    c.(op := if neg then Negate(c.op) else c.op, values := if bare then [] else c.values)
  }

  /** Only these are followed by a check; the others wait for the next one or for the end. */
  predicate IsRegular(op: Op) {
    op.Eq? || op.Neq? || IsRange(op)
  }

  predicate IsRecorded(c: Constraint) {
    (c.op.Between? || c.op.NotBetween?) ==> |c.values| == 2
  }

  ghost function WalkCompare(parse: Parse, field: string, c: Constraint, bare: bool, neg: bool, st: State): State {
    if !IsRecorded(c) then st
    else
      var st' := State(Added(st.m, field, Recorded(c, bare, neg)), st.reports);
      if IsRegular(c.op) then Checked(parse, st') else st'
  }

  lemma Compared(parse: Parse, field: string, c: Constraint, bare: bool, neg: bool, st: State, st': State, end: State)
    requires IsRecorded(c) && st' == State(Added(st.m, field, Recorded(c, bare, neg)), st.reports)
    requires end == if IsRegular(c.op) then Checked(parse, st') else st'
    ensures end == WalkCompare(parse, field, c, bare, neg, st)
  {
  }

  ghost function Walk(parse: Parse, e: Expr, neg: bool, st: State): State
    decreases e, 1
  {
    match e
    case Or(args) => if |args| == 1 then Walk(parse, args[0], neg, st) else WalkBranches(parse, args, neg, st)
    case And(args) => WalkAll(parse, args, neg, st)
    case Not(a) => Walk(parse, a, !neg, st)
    case Group(a) => Walk(parse, a, neg, st)
    case Compare(field, c, bare) => WalkCompare(parse, field, c, bare, neg, st)
    case Opaque(_) => st
  }

  ghost function WalkAll(parse: Parse, es: seq<Expr>, neg: bool, st: State): State
    decreases es, 0
  {
    if es == [] then st else WalkAll(parse, es[1..], neg, Walk(parse, es[0], neg, st))
  }

  /** Each branch starts from the constraints before the OR, and they are restored after it. */
  ghost function WalkBranches(parse: Parse, es: seq<Expr>, neg: bool, st: State): (r: State)
    ensures r.m == st.m
    decreases es, 0
  {
    if es == [] then st
    else WalkBranches(parse, es[1..], neg, State(st.m, Walk(parse, es[0], neg, st).reports))
  }

  /** DetectContradictions. */
  ghost function Detected(parse: Parse, e: Expr): set<Report> {
    Checked(parse, Walk(parse, e, false, State(map[], {}))).reports
  }

  /* ---- the detector ---- */

  function AsSet(reports: seq<Report>): set<Report> {
    set r | r in reports
  }

  class Detector {
    const parse: Parse
    var constraintStack: seq<Constraints>
    var contradictions: seq<Report>
    var notContextStack: seq<bool>

    constructor (parse: Parse)
      ensures this.parse == parse && Valid()
      ensures constraintStack == [map[]] && contradictions == [] && notContextStack == [false]
    {
      this.parse, constraintStack, contradictions, notContextStack := parse, [map[]], [], [false];
    }

    ghost predicate Valid()
      reads this
    {
      constraintStack != [] && notContextStack != []
    }

    function CurrentConstraints(): Constraints
      requires Valid()
      reads this
    {
      constraintStack[|constraintStack| - 1]
    }

    function InNotContext(): bool
      requires Valid()
      reads this
    {
      notContextStack[|notContextStack| - 1]
    }

    ghost function Current(): State
      requires Valid()
      reads this
    {
      State(CurrentConstraints(), AsSet(contradictions))
    }

    method SetCurrent(m: Constraints)
      requires Valid()
      modifies this`constraintStack
      ensures Valid() && constraintStack == old(constraintStack)[|old(constraintStack)| - 1 := m]
    {
      constraintStack := constraintStack[|constraintStack| - 1 := m];
    }

    method CheckContradictions()
      requires Valid()
      modifies this`contradictions
      ensures Current() == Checked(parse, old(Current()))
    {
      var m := CurrentConstraints();
      var fields := m.Keys;
      while fields != {}
        invariant fields <= m.Keys
        invariant forall r :: r in contradictions <==> r in old(contradictions) || (r in Found(parse, m) && r.field !in fields)
        decreases fields
      {
        var field :| field in fields;
        fields := fields - {field};
        if |m[field]| >= 2 {
          var kinds := FindContradictions(parse, m[field]);
          ReportKinds(field, kinds);
        }
      }
    }

    method ReportKinds(field: string, kinds: set<Kind>)
      modifies this`contradictions
      ensures forall r :: r in contradictions <==> r in old(contradictions) || (r.field == field && r.kind in kinds)
    {
      var left := kinds;
      while left != {}
        invariant left <= kinds
        invariant forall r :: r in contradictions <==> r in old(contradictions) || (r.field == field && r.kind in kinds && r.kind !in left)
        decreases left
      {
        var k :| k in left;
        left := left - {k};
        contradictions := contradictions + [Report(field, k)];
      }
    }

    /** addConstraint, under the current NOT context. */
    method AddConstraint(field: string, c: Constraint, bare: bool)
      requires Valid()
      modifies this`constraintStack
      ensures Valid() && constraintStack == old(constraintStack)[|old(constraintStack)| - 1 := CurrentConstraints()]
      ensures CurrentConstraints() == Added(old(CurrentConstraints()), field, Recorded(c, bare, InNotContext()))
    {
      SetCurrent(Added(CurrentConstraints(), field, Recorded(c, bare, InNotContext())));
    }

    /** VisitComparison. */
    method VisitComparison(field: string, c: Constraint, bare: bool)
      requires Valid()
      modifies this
      ensures Valid() && notContextStack == old(notContextStack)
      ensures constraintStack == old(constraintStack)[|old(constraintStack)| - 1 := CurrentConstraints()]
      ensures Current() == WalkCompare(parse, field, c, bare, InNotContext(), old(Current()))
    {
      if IsRecorded(c) {
        ghost var st := Current();
        AddConstraint(field, c, bare);
        ghost var st' := Current();
        assert st' == State(Added(st.m, field, Recorded(c, bare, InNotContext())), st.reports);
        if IsRegular(c.op) {
          CheckContradictions();
        }
        Compared(parse, field, c, bare, InNotContext(), st, st', Current());
      }
    }

    /** The walk changes the top of the constraint stack and adds reports; the NOT contexts are as before. */
    method Visit(e: Expr)
      requires Valid()
      modifies this
      ensures Valid() && notContextStack == old(notContextStack)
      ensures constraintStack == old(constraintStack)[|old(constraintStack)| - 1 := CurrentConstraints()]
      ensures Current() == Walk(parse, e, InNotContext(), old(Current()))
      decreases e, 1
    {
      match e
      case Or(args) =>
        if |args| == 1 {
          Visit(args[0]);
        } else {
          VisitBranches(args);
        }
      case And(args) => VisitAll(args);
      case Not(a) =>
        notContextStack := notContextStack + [!InNotContext()];
        Visit(a);
        notContextStack := notContextStack[..|notContextStack| - 1];
      case Group(a) => Visit(a);
      case Compare(field, c, bare) => VisitComparison(field, c, bare);
      case Opaque(_) =>
    }

    method VisitAll(es: seq<Expr>)
      requires Valid()
      modifies this
      ensures Valid() && notContextStack == old(notContextStack)
      ensures constraintStack == old(constraintStack)[|old(constraintStack)| - 1 := CurrentConstraints()]
      ensures Current() == WalkAll(parse, es, InNotContext(), old(Current()))
      decreases es, 0
    {
      ghost var goal := WalkAll(parse, es, InNotContext(), Current());
      for i := 0 to |es|
        invariant Valid() && notContextStack == old(notContextStack)
        invariant constraintStack == old(constraintStack)[|old(constraintStack)| - 1 := CurrentConstraints()]
        invariant WalkAll(parse, es[i..], InNotContext(), Current()) == goal
      {
        assert es[i..][0] == es[i] && es[i..][1..] == es[i + 1..];
        Visit(es[i]);
      }
    }

    method VisitBranches(es: seq<Expr>)
      requires Valid()
      modifies this
      ensures Valid() && notContextStack == old(notContextStack)
      ensures constraintStack == old(constraintStack)
      ensures Current() == WalkBranches(parse, es, InNotContext(), old(Current()))
      decreases es, 0
    {
      ghost var goal := WalkBranches(parse, es, InNotContext(), Current());
      for i := 0 to |es|
        invariant Valid() && notContextStack == old(notContextStack)
        invariant constraintStack == old(constraintStack)
        invariant WalkBranches(parse, es[i..], InNotContext(), Current()) == goal
      {
        assert es[i..][0] == es[i] && es[i..][1..] == es[i + 1..];
        var saved := CurrentConstraints();
        Visit(es[i]);
        SetCurrent(saved);
      }
    }
  }

  /** Each report once. */
  method Unique(reports: seq<Report>) returns (unique: seq<Report>)
    ensures forall r :: r in unique <==> r in reports
    ensures forall i, j :: 0 <= i < j < |unique| ==> unique[i] != unique[j]
  {
    unique := [];
    for i := 0 to |reports|
      invariant forall r :: r in unique <==> r in reports[..i]
      invariant forall i, j :: 0 <= i < j < |unique| ==> unique[i] != unique[j]
    {
      assert reports[..i + 1] == reports[..i] + [reports[i]];
      if reports[i] !in unique {
        unique := unique + [reports[i]];
      }
    }
    assert reports[..|reports|] == reports;
  }

  method DetectContradictions(parse: Parse, e: Expr) returns (unique: seq<Report>)
    ensures forall r :: r in unique <==> r in Detected(parse, e)
    ensures forall i, j :: 0 <= i < j < |unique| ==> unique[i] != unique[j]
  {
    var d := new Detector(parse);
    assert d.Current() == State(map[], {});
    d.Visit(e);
    d.CheckContradictions();
    assert d.Current().reports == Detected(parse, e);
    unique := Unique(d.contradictions);
  }
}
