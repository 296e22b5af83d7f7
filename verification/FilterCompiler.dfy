/** Compiling a filter to a WHERE clause with skippable conditions. */
module FilterCompiler {
  /*
   A condition is skipped when another clause enforces it or this one cannot evaluate it.

   The grammar's four levels (or, and, unary, primary) are one datatype here; every parse tree is an
   `Expr`. SQL text is a tree of conditions with its boolean meaning, and a condition on a single key is
   an opaque test of the row.
   */

  import opened TimeWindows

  datatype Context = Resource | OtherContext(name: string)

  datatype Key = Key(name: string, context: Context)

  /** How the comparison is written; it decides whether a failing condition builder is reported. */
  datatype Form = Exists | InList | Between | Plain

  /**
   What is written on the right. Unrestricting: an IN over the "__all__" variable, or a BETWEEN without two
   operands. Malformed: operands of different types, or a variable whose list is empty.
   */
  datatype Operand = Usable | Unrestricting | Malformed

  /** One question about a row. */
  datatype Test = KeyTest(key: Key, cmp: string) | TextTest(text: string) | CallTest(call: string)

  /**
   keys: the field keys the written name resolves to. negative: the operator is a negated one.
   */
  datatype Leaf =
    | Comparison(keys: seq<Key>, cmp: string, form: Form, negative: bool, operand: Operand)
    | FullText(text: string)
    | Call(call: string)

  datatype Expr = Or(args: seq<Expr>) | And(args: seq<Expr>) | Not(arg: Expr) | Group(arg: Expr) | Atom(leaf: Leaf)

  type Row = Test -> bool

  datatype Cond = Is(test: Test) | AllOf(conds: seq<Cond>) | AnyOf(conds: seq<Cond>) | Negation(cond: Cond)

  function Eval(c: Cond, row: Row): bool {
    match c
    case Is(t) => row(t)
    case AllOf(cs) => forall d :: d in cs ==> Eval(d, row)
    case AnyOf(cs) => exists d :: d in cs && Eval(d, row)
    case Negation(d) => !Eval(d, row)
  }

  /* ---- what the filter means ---- */

  function LeafSem(l: Leaf, row: Row): bool {
    match l
    case Comparison(keys, cmp, _, negative, operand) =>
      // a malformed operand rejects the filter wherever it is visited
      if !operand.Usable? then true
      else if negative then forall k :: k in keys ==> row(KeyTest(k, cmp))
      else exists k :: k in keys && row(KeyTest(k, cmp))
    case FullText(t) => row(TextTest(t))
    case Call(c) => row(CallTest(c))
  }

  function Sem(e: Expr, row: Row): bool {
    match e
    case Or(args) => exists a :: a in args && Sem(a, row)
    case And(args) => forall a :: a in args ==> Sem(a, row)
    case Not(a) => !Sem(a, row)
    case Group(a) => Sem(a, row)
    case Atom(l) => LeafSem(l, row)
  }

  /* ---- the visitor ---- */

  /** What the condition builder does with one test. */
  datatype Built = Emits | Declines | Fails

  datatype Options = Options(
    skipResource: bool, skipFullText: bool, skipCalls: bool, ignoreNotFound: bool,
    fullTextColumn: bool, builder: Test -> Built)

  /** The two skippable literals, or SQL. */
  datatype Clause = Skip | ErrorSkip | Sql(cond: Cond)

  function OneOrAll(cs: seq<Cond>): Cond
    requires cs != []
  {
    if |cs| == 1 then cs[0] else AllOf(cs)
  }

  function OneOrAny(cs: seq<Cond>): Cond
    requires cs != []
  {
    if |cs| == 1 then cs[0] else AnyOf(cs)
  }

  /** The keys a comparison is compiled for: resource keys drop out when another clause enforces them. */
  function Considered(o: Options, keys: seq<Key>): seq<Key> {
    if keys == [] then []
    else (if o.skipResource && keys[0].context.Resource? then [] else [keys[0]]) + Considered(o, keys[1..])
  }

  function Emitted(o: Options, cmp: string, keys: seq<Key>): seq<Key> {
    if keys == [] then []
    else (if o.builder(KeyTest(keys[0], cmp)).Emits? then [keys[0]] else []) + Emitted(o, cmp, keys[1..])
  }

  predicate BuilderFails(o: Options, cmp: string, keys: seq<Key>) {
    exists k :: k in keys && o.builder(KeyTest(k, cmp)).Fails?
  }

  function TestsOn(keys: seq<Key>, cmp: string): seq<Cond> {
    if keys == [] then [] else [Is(KeyTest(keys[0], cmp))] + TestsOn(keys[1..], cmp)
  }

  /** VisitComparison, VisitFullText and VisitFunctionCall. */
  function VisitLeaf(o: Options, l: Leaf): Clause {
    match l
    case Comparison(keys, cmp, form, negative, operand) =>
      if keys == [] then ErrorSkip
      else
        var considered := Considered(o, keys);
        if o.skipResource && considered == [] then Skip
        else if operand.Unrestricting? then Skip
        else if operand.Malformed? then ErrorSkip
        else if BuilderFails(o, cmp, considered) then ErrorSkip
        else
          var conds := TestsOn(Emitted(o, cmp, considered), cmp);
          if conds == [] then Skip
          else if negative then Sql(OneOrAll(conds))
          else Sql(OneOrAny(conds))
    case FullText(t) =>
      if o.skipFullText then Skip
      else if !o.fullTextColumn then ErrorSkip
      else VisitSingle(o, TextTest(t))
    case Call(c) =>
      if o.skipCalls then Skip else VisitSingle(o, CallTest(c))
  }

  function VisitSingle(o: Options, t: Test): Clause {
    match o.builder(t)
    case Emits => Sql(Is(t))
    case Declines => Skip
    case Fails => ErrorSkip
  }

  /** The conditions of the members that compile to SQL. */
  function KeptConds(o: Options, es: seq<Expr>): seq<Cond>
    decreases es, 0
  {
    if es == [] then []
    else
      (match Visit(o, es[0]) case Sql(c) => [c] case _ => []) + KeptConds(o, es[1..])
  }

  /** The first member that does not compile to SQL. */
  function FirstSkip(o: Options, es: seq<Expr>): (r: Clause)
    decreases es, 0
  {
    if es == [] then Sql(AllOf([]))
    else if Visit(o, es[0]).Sql? then FirstSkip(o, es[1..])
    else Visit(o, es[0])
  }

  function Visit(o: Options, e: Expr): Clause
    decreases e, 1
  {
    match e
    case Or(args) =>
      // one branch that cannot be evaluated makes the whole OR unevaluable
      if !FirstSkip(o, args).Sql? then FirstSkip(o, args)
      else if args == [] then Skip
      else
        var conds := KeptConds(o, args);
        if conds == [] then Skip else Sql(OneOrAny(conds))
    case And(args) =>
      var conds := KeptConds(o, args);
      if conds == [] then Skip else Sql(OneOrAll(conds))
    case Not(a) =>
      (match Visit(o, a) case Sql(c) => Sql(Negation(c)) case skipped => skipped)
    case Group(a) => Visit(o, a)
    case Atom(l) => VisitLeaf(o, l)
  }

  predicate Skips(o: Options, e: Expr) {
    !Visit(o, e).Sql?
  }

  /** Errors the visitor appends; a branch after the first unevaluable one of an OR is never visited. */
  function LeafErrors(o: Options, l: Leaf): nat {
    match l
    case Comparison(keys, cmp, form, _, operand) =>
      if keys == [] then (if o.ignoreNotFound then 0 else 1)
      else
        var considered := Considered(o, keys);
        if considered == [] || operand.Unrestricting? then 0
        else if operand.Malformed? then 1
        else if !BuilderFails(o, cmp, considered) then 0
        else if form.InList? || form.Between? then 0
        else 1
    case FullText(t) =>
      if o.skipFullText then 0 else if !o.fullTextColumn || o.builder(TextTest(t)).Fails? then 1 else 0
    case Call(c) =>
      if o.skipCalls then 0 else if o.builder(CallTest(c)).Fails? then 1 else 0
  }

  function ErrorsIn(o: Options, es: seq<Expr>, stopAtSkip: bool): nat
    decreases es, 0
  {
    if es == [] then 0
    else Errors(o, es[0]) + (if stopAtSkip && Skips(o, es[0]) then 0 else ErrorsIn(o, es[1..], stopAtSkip))
  }

  function Errors(o: Options, e: Expr): nat
    decreases e, 1
  {
    match e
    case Or(args) => ErrorsIn(o, args, true)
    case And(args) => ErrorsIn(o, args, false)
    case Not(a) => Errors(o, a)
    case Group(a) => Errors(o, a)
    case Atom(l) => LeafErrors(o, l)
  }

  /** An OR token occurs somewhere in the text. */
  predicate HasOr(e: Expr) {
    match e
    case Or(args) => |args| > 1 || exists a :: a in args && HasOr(a)
    case And(args) => exists a :: a in args && HasOr(a)
    case Not(a) => HasOr(a)
    case Group(a) => HasOr(a)
    case Atom(_) => false
  }

  datatype Prepared = Rejected(errors: nat) | Where(cond: Cond)

  const TRUE: Cond := AllOf([])

  function ClauseCond(c: Clause): Cond {
    match c
    case Sql(d) => d
    case _ => TRUE
  }

  /** PrepareWhereClause: an OR anywhere turns the skipping of resource conditions off. */
  function EffectiveOptions(o: Options, e: Expr): Options {
    if HasOr(e) then o.(skipResource := false) else o
  }

  function Prepare(o: Options, e: Expr): Prepared {
    var o' := EffectiveOptions(o, e);
    if Errors(o', e) > 0 then Rejected(Errors(o', e)) else Where(ClauseCond(Visit(o', e)))
  }

  /* ---- the visitor object ---- */

  /** The visitor proper: clauses are returned, errors are counted on the object as they are met. */
  class FilterVisitor {
    const options: Options
    var errors: nat

    constructor (options: Options)
      ensures this.options == options && errors == 0
    {
      this.options, errors := options, 0;
    }

    method Accept(e: Expr) returns (clause: Clause)
      modifies this
      ensures clause == Visit(options, e) && errors == old(errors) + Errors(options, e)
      decreases e, 1
    {
      match e
      case Or(args) => clause := VisitOrExpression(args);
      case And(args) => clause := VisitAndExpression(args);
      case Not(a) =>
        clause := Accept(a);
        if clause.Sql? {
          clause := Sql(Negation(clause.cond));
        }
      case Group(a) => clause := Accept(a);
      case Atom(l) => clause := AcceptLeaf(l);
    }

    method VisitOrExpression(args: seq<Expr>) returns (clause: Clause)
      modifies this
      ensures clause == Visit(options, Or(args)) && errors == old(errors) + Errors(options, Or(args))
      decreases args, 0
    {
      var conds: seq<Cond> := [];
      for i := 0 to |args|
        invariant conds + KeptConds(options, args[i..]) == KeptConds(options, args)
        invariant FirstSkip(options, args[i..]) == FirstSkip(options, args)
        invariant errors + ErrorsIn(options, args[i..], true) == old(errors) + ErrorsIn(options, args, true)
      {
        NextMember(options, args, i, conds);
        var branch := Accept(args[i]);
        if !branch.Sql? {
          return branch;
        }
        conds := conds + [branch.cond];
      }
      assert args[|args|..] == [] && conds == KeptConds(options, args);
      clause := if conds == [] then Skip else Sql(OneOrAny(conds));
    }

    method VisitAndExpression(args: seq<Expr>) returns (clause: Clause)
      modifies this
      ensures clause == Visit(options, And(args)) && errors == old(errors) + Errors(options, And(args))
      decreases args, 0
    {
      var conds: seq<Cond> := [];
      for i := 0 to |args|
        invariant conds + KeptConds(options, args[i..]) == KeptConds(options, args)
        invariant errors + ErrorsIn(options, args[i..], false) == old(errors) + ErrorsIn(options, args, false)
      {
        NextMember(options, args, i, conds);
        var member := Accept(args[i]);
        if member.Sql? {
          conds := conds + [member.cond];
        }
      }
      assert args[|args|..] == [] && conds == KeptConds(options, args);
      clause := if conds == [] then Skip else Sql(OneOrAll(conds));
    }

    method AcceptLeaf(l: Leaf) returns (clause: Clause)
      modifies this
      ensures clause == VisitLeaf(options, l) && errors == old(errors) + LeafErrors(options, l)
    {
      match l
      case Comparison(_, _, _, _, _) => clause := AcceptComparison(l);
      case FullText(t) =>
        if options.skipFullText { return Skip; }
        if !options.fullTextColumn {
          errors := errors + 1;
          return ErrorSkip;
        }
        clause := AcceptSingle(TextTest(t));
      case Call(c) =>
        if options.skipCalls { return Skip; }
        clause := AcceptSingle(CallTest(c));
    }

    method AcceptSingle(t: Test) returns (clause: Clause)
      modifies this
      ensures clause == VisitSingle(options, t)
      ensures errors == old(errors) + (if options.builder(t).Fails? then 1 else 0)
    {
      match options.builder(t)
      case Emits => clause := Sql(Is(t));
      case Declines => clause := Skip;
      case Fails =>
        errors := errors + 1;
        clause := ErrorSkip;
    }

    method AcceptComparison(l: Leaf) returns (clause: Clause)
      requires l.Comparison?
      modifies this
      ensures clause == VisitLeaf(options, l) && errors == old(errors) + LeafErrors(options, l)
    {
      if l.keys == [] {
        if !options.ignoreNotFound {
          errors := errors + 1;
        }
        return ErrorSkip;
      }
      var keys := Considered(options, l.keys);
      if options.skipResource && keys == [] {
        return Skip;
      }
      if l.operand.Unrestricting? {
        return Skip;
      }
      if l.operand.Malformed? {
        errors := errors + 1;
        return ErrorSkip;
      }
      var conds := ConditionsFor(l.cmp, keys);
      if conds.None? {
        if !l.form.InList? && !l.form.Between? {
          errors := errors + 1;
        }
        return ErrorSkip;
      }
      if conds.value == [] {
        return Skip;
      }
      clause := Sql(if l.negative then OneOrAll(conds.value) else OneOrAny(conds.value));
    }

    /** The conditions on the keys, up to the first that cannot be built. */
    method ConditionsFor(cmp: string, keys: seq<Key>) returns (conds: Option<seq<Cond>>)
      ensures conds.None? <==> BuilderFails(options, cmp, keys)
      ensures conds.Some? ==> conds.value == TestsOn(Emitted(options, cmp, keys), cmp)
    {
      var built: seq<Cond> := [];
      for i := 0 to |keys|
        invariant built + TestsOn(Emitted(options, cmp, keys[i..]), cmp) == TestsOn(Emitted(options, cmp, keys), cmp)
        invariant forall k :: k in keys[..i] ==> !options.builder(KeyTest(k, cmp)).Fails?
      {
        NextCondition(options, cmp, keys, i, built);
        match options.builder(KeyTest(keys[i], cmp))
        case Emits =>
          built := built + [Is(KeyTest(keys[i], cmp))];
        case Declines =>
        case Fails =>
          assert keys[i] in keys;
          return None;
      }
      assert keys[..|keys|] == keys && keys[|keys|..] == [];
      return Some(built);
    }
  }

  lemma EmittedHead(o: Options, cmp: string, keys: seq<Key>)
    requires keys != []
    ensures TestsOn(Emitted(o, cmp, keys), cmp)
         == (if o.builder(KeyTest(keys[0], cmp)).Emits? then [Is(KeyTest(keys[0], cmp))] else []) + TestsOn(Emitted(o, cmp, keys[1..]), cmp)
  {
    var rest := Emitted(o, cmp, keys[1..]);
    if o.builder(KeyTest(keys[0], cmp)).Emits? {
      assert Emitted(o, cmp, keys) == [keys[0]] + rest && ([keys[0]] + rest)[1..] == rest;
    } else {
      assert Emitted(o, cmp, keys) == rest;
    }
  }

  lemma NextCondition(o: Options, cmp: string, keys: seq<Key>, i: nat, built: seq<Cond>)
    requires i < |keys|
    ensures built + TestsOn(Emitted(o, cmp, keys[i..]), cmp)
         == (if o.builder(KeyTest(keys[i], cmp)).Emits? then built + [Is(KeyTest(keys[i], cmp))] else built)
            + TestsOn(Emitted(o, cmp, keys[i + 1..]), cmp)
  {
    assert keys[i..][0] == keys[i] && keys[i..][1..] == keys[i + 1..];
    EmittedHead(o, cmp, keys[i..]);
    Regroup(built, [Is(KeyTest(keys[i], cmp))], TestsOn(Emitted(o, cmp, keys[i + 1..]), cmp));
  }

  lemma Regroup(x: seq<Cond>, y: seq<Cond>, z: seq<Cond>)
    ensures x + (y + z) == (x + y) + z
    ensures x + ([] + z) == x + z
  {
    assert [] + z == z;
  }

  lemma NextMember(o: Options, args: seq<Expr>, i: nat, conds: seq<Cond>)
    requires i < |args|
    ensures args[i..][0] == args[i] && args[i..][1..] == args[i + 1..]
    ensures conds + KeptConds(o, args[i..])
         == (if Visit(o, args[i]).Sql? then conds + [Visit(o, args[i]).cond] else conds) + KeptConds(o, args[i + 1..])
  {
    assert args[i..][0] == args[i] && args[i..][1..] == args[i + 1..];
    Regroup(conds, if Visit(o, args[i]).Sql? then [Visit(o, args[i]).cond] else [], KeptConds(o, args[i + 1..]));
  }

  method PrepareWhereClause(options: Options, e: Expr) returns (p: Prepared)
    ensures p == Prepare(options, e)
  {
    var effective := if HasOr(e) then options.(skipResource := false) else options;
    var visitor := new FilterVisitor(effective);
    var clause := visitor.Accept(e);
    if visitor.errors > 0 {
      return Rejected(visitor.errors);
    }
    p := Where(ClauseCond(clause));
  }

  /* ---- the lists the visitor builds ---- */

  /** The member compiles to SQL that accepts the row. */
  predicate Passes(o: Options, e: Expr, row: Row) {
    !Skips(o, e) && Eval(Visit(o, e).cond, row)
  }

  lemma {:induction false} KeptMembers(o: Options, es: seq<Expr>, c: Cond)
    ensures c in KeptConds(o, es) <==> exists e :: e in es && Visit(o, e) == Sql(c)
  {
    if es != [] {
      KeptMembers(o, es[1..], c);
      assert es[0] in es && forall e :: e in es <==> e == es[0] || e in es[1..];
    }
  }

  lemma {:induction false} FirstSkipMeaning(o: Options, es: seq<Expr>)
    ensures FirstSkip(o, es).Sql? <==> forall e :: e in es ==> !Skips(o, e)
  {
    if es != [] {
      FirstSkipMeaning(o, es[1..]);
      assert es[0] in es && forall e :: e in es <==> e == es[0] || e in es[1..];
    }
  }

  lemma KeptMeaning(o: Options, es: seq<Expr>, row: Row)
    ensures KeptConds(o, es) == [] <==> forall e :: e in es ==> Skips(o, e)
    ensures (forall c :: c in KeptConds(o, es) ==> Eval(c, row)) <==> (forall e :: e in es ==> Skips(o, e) || Passes(o, e, row))
    ensures (exists c :: c in KeptConds(o, es) && Eval(c, row)) <==> (exists e :: e in es && Passes(o, e, row))
  {
    var conds := KeptConds(o, es);
    forall c { KeptMembers(o, es, c); }
    forall e | e in es && !Skips(o, e)
      ensures Visit(o, e).cond in conds
    {
    }
    if conds != [] {
      assert conds[0] in conds;
    }
    forall c | c in conds
      ensures exists e :: e in es && !Skips(o, e) && Visit(o, e).cond == c
    {
    }
  }

  lemma OneOrMeaning(cs: seq<Cond>, row: Row)
    requires cs != []
    ensures Eval(OneOrAll(cs), row) <==> forall c :: c in cs ==> Eval(c, row)
    ensures Eval(OneOrAny(cs), row) <==> exists c :: c in cs && Eval(c, row)
  {
    if |cs| == 1 {
      assert cs == [cs[0]];
    }
  }

  /** When an AND compiles, and to what: the members that do. */
  lemma VisitAnd(o: Options, es: seq<Expr>, row: Row)
    ensures Skips(o, And(es)) <==> forall e :: e in es ==> Skips(o, e)
    ensures !Skips(o, And(es)) ==>
              (Passes(o, And(es), row) <==> forall e :: e in es ==> Skips(o, e) || Passes(o, e, row))
  {
    KeptMeaning(o, es, row);
    if KeptConds(o, es) != [] {
      OneOrMeaning(KeptConds(o, es), row);
    }
  }

  /** When an OR compiles, and to what: all of its branches. */
  lemma VisitOr(o: Options, es: seq<Expr>, row: Row)
    ensures Skips(o, Or(es)) <==> es == [] || exists e :: e in es && Skips(o, e)
    ensures !Skips(o, Or(es)) ==>
              (Passes(o, Or(es), row) <==> exists e :: e in es && Passes(o, e, row))
  {
    KeptMeaning(o, es, row);
    FirstSkipMeaning(o, es);
    if es != [] {
      assert es[0] in es;
    }
    if KeptConds(o, es) != [] {
      OneOrMeaning(KeptConds(o, es), row);
    }
  }

  /* ---- leaves ---- */

  lemma {:induction false} ConsideredMembers(o: Options, keys: seq<Key>)
    ensures forall k :: k in Considered(o, keys) <==> k in keys && !(o.skipResource && k.context.Resource?)
  {
    if keys != [] {
      ConsideredMembers(o, keys[1..]);
      assert keys == [keys[0]] + keys[1..];
    }
  }

  lemma {:induction false} EmittedMembers(o: Options, cmp: string, keys: seq<Key>)
    ensures forall k :: k in Emitted(o, cmp, keys) <==> k in keys && o.builder(KeyTest(k, cmp)).Emits?
  {
    if keys != [] {
      EmittedMembers(o, cmp, keys[1..]);
      assert keys == [keys[0]] + keys[1..];
    }
  }

  lemma {:induction false} TestsOnMembers(keys: seq<Key>, cmp: string)
    ensures |TestsOn(keys, cmp)| == |keys|
    ensures forall c :: c in TestsOn(keys, cmp) <==> exists k :: k in keys && c == Is(KeyTest(k, cmp))
  {
    if keys != [] {
      TestsOnMembers(keys[1..], cmp);
      assert keys == [keys[0]] + keys[1..];
    }
  }

  /** A key that another clause enforces, or that the builder declines, is missing from the SQL. */
  predicate KeepsKey(o: Options, cmp: string, k: Key) {
    !(o.skipResource && k.context.Resource?) && o.builder(KeyTest(k, cmp)).Emits?
  }

  lemma VisitComparison(o: Options, l: Leaf, row: Row)
    requires l.Comparison? && VisitLeaf(o, l).Sql?
    ensures l.operand.Usable? && exists k :: k in l.keys && KeepsKey(o, l.cmp, k)
    ensures Eval(VisitLeaf(o, l).cond, row) <==>
            if l.negative then forall k :: k in l.keys && KeepsKey(o, l.cmp, k) ==> row(KeyTest(k, l.cmp))
            else exists k :: k in l.keys && KeepsKey(o, l.cmp, k) && row(KeyTest(k, l.cmp))
  {
    var considered := Considered(o, l.keys);
    var kept := Emitted(o, l.cmp, considered);
    var conds := TestsOn(kept, l.cmp);
    ConsideredMembers(o, l.keys);
    EmittedMembers(o, l.cmp, considered);
    TestsOnMembers(kept, l.cmp);
    OneOrMeaning(conds, row);
    assert kept[0] in kept;
    assert forall k :: k in kept <==> k in l.keys && KeepsKey(o, l.cmp, k);
    if l.negative {
      assert (forall c :: c in conds ==> Eval(c, row)) <==> (forall k :: k in kept ==> row(KeyTest(k, l.cmp))) by {
        forall k | k in kept ensures Is(KeyTest(k, l.cmp)) in conds {}
      }
    } else {
      assert (exists c :: c in conds && Eval(c, row)) <==> (exists k :: k in kept && row(KeyTest(k, l.cmp))) by {
        forall k | k in kept ensures Is(KeyTest(k, l.cmp)) in conds {}
      }
    }
  }

  predicate KeepsAll(o: Options, l: Leaf) {
    l.Comparison? ==> forall k :: k in l.keys ==> KeepsKey(o, l.cmp, k)
  }

  /* ---- weaker and stronger ---- */

  /**
   The compiled clause is implied by the expression. Dropping a member weakens an AND and a NOT turns
   weaker into stronger, so the condition follows the polarity.
   */
  predicate Weak(o: Options, e: Expr) {
    || Skips(o, e)
    || match e
       case Or(args) => forall a :: a in args ==> Weak(o, a)
       case And(args) => forall a :: a in args ==> Weak(o, a)
       case Not(a) => Strong(o, a)
       case Group(a) => Weak(o, a)
       case Atom(l) => (l.Comparison? && l.negative) || KeepsAll(o, l)
  }

  /** The compiled clause implies the expression. */
  predicate Strong(o: Options, e: Expr) {
    && !Skips(o, e)
    && match e
       case Or(args) => forall a :: a in args ==> Strong(o, a)
       case And(args) => forall a :: a in args ==> Strong(o, a)
       case Not(a) => Weak(o, a)
       case Group(a) => Strong(o, a)
       case Atom(l) => (l.Comparison? && !l.negative) || KeepsAll(o, l)
  }

  lemma {:induction false} LeafDirections(o: Options, l: Leaf, row: Row)
    requires VisitLeaf(o, l).Sql?
    ensures Weak(o, Atom(l)) && LeafSem(l, row) ==> Eval(VisitLeaf(o, l).cond, row)
    ensures Strong(o, Atom(l)) && Eval(VisitLeaf(o, l).cond, row) ==> LeafSem(l, row)
  {
    if l.Comparison? {
      VisitComparison(o, l, row);
    }
  }

  /** The two directions, for every expression, option set and row. */
  lemma {:induction false} Directions(o: Options, e: Expr, row: Row)
    requires !Skips(o, e)
    ensures Weak(o, e) && Sem(e, row) ==> Passes(o, e, row)
    ensures Strong(o, e) && Passes(o, e, row) ==> Sem(e, row)
  {
    match e
    case Or(args) =>
      VisitOr(o, args, row);
      forall a | a in args
        ensures !Skips(o, a) && Weak(o, a) && Sem(a, row) ==> Passes(o, a, row)
        ensures Strong(o, a) ==> !Skips(o, a) && (Passes(o, a, row) ==> Sem(a, row))
      {
        if !Skips(o, a) { Directions(o, a, row); }
      }
    case And(args) =>
      VisitAnd(o, args, row);
      forall a | a in args
        ensures !Skips(o, a) && Weak(o, a) && Sem(a, row) ==> Passes(o, a, row)
        ensures Strong(o, a) ==> !Skips(o, a) && (Passes(o, a, row) ==> Sem(a, row))
      {
        if !Skips(o, a) { Directions(o, a, row); }
      }
    case Not(a) =>
      Directions(o, a, row);
    case Group(a) =>
      Directions(o, a, row);
    case Atom(l) =>
      LeafDirections(o, l, row);
  }

  /** A prepared clause never loses a row of the filter, when the condition holds. */
  lemma PreparedIsWeaker(o: Options, e: Expr, row: Row)
    requires Weak(EffectiveOptions(o, e), e) && Sem(e, row)
    ensures Prepare(o, e).Where? ==> Eval(Prepare(o, e).cond, row)
  {
    if !Skips(EffectiveOptions(o, e), e) {
      Directions(EffectiveOptions(o, e), e, row);
    }
  }
}
