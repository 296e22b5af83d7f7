/** The clashes that the constraints on one field can have. */
module ContradictionChecks {
  /*
   Values are texts; `parse` is what a float parser makes of them. `Finds` says what each kind of report
   means for the constraints collected on a field, and every check is proved exact for it.
   */

  import opened TimeWindows

  datatype Op = Eq | Neq | Lt | Le | Gt | Ge | In | NotIn | Between | NotBetween | Exists | NotExists

  type Parse = string -> Option<real>

  /** What one comparison demands of its field. */
  datatype Constraint = Constraint(op: Op, value: string, values: seq<string>)

  predicate IsRange(op: Op) {
    op.Lt? || op.Le? || op.Gt? || op.Ge?
  }

  predicate ImpliesExistence(op: Op) {
    op.Eq? || IsRange(op) || op.In? || op.Between?
  }

  /* ---- what a constraint means ---- */

  datatype Value = Num(n: real) | Text(s: string)

  function Meaning(parse: Parse, text: string): Value {
    match parse(text) case Some(n) => Num(n) case None => Text(text)
  }

  predicate Before(s: string, t: string) {
    t != "" && (s == "" || s[0] < t[0] || (s[0] == t[0] && Before(s[1..], t[1..])))
  }

  /** Numbers are compared with numbers and texts with texts. */
  predicate SameKind(a: Value, b: Value) {
    a.Num? <==> b.Num?
  }

  predicate Less(a: Value, b: Value) {
    match (a, b)
    case (Num(x), Num(y)) => x < y
    case (Text(x), Text(y)) => Before(x, y)
    case _ => false
  }

  predicate AtMost(a: Value, b: Value) {
    SameKind(a, b) && !Less(b, a)
  }

  predicate IsBetween(parse: Parse, v: Value, values: seq<string>) {
    |values| == 2 && AtMost(Meaning(parse, values[0]), v) && AtMost(v, Meaning(parse, values[1]))
  }

  predicate HoldsPositive(parse: Parse, v: Value, op: Op, c: Constraint) {
    var bound := Meaning(parse, c.value);
    match op
    case Eq => v == bound
    case Lt => SameKind(v, bound) && Less(v, bound)
    case Le => AtMost(v, bound)
    case Gt => SameKind(v, bound) && Less(bound, v)
    case Ge => AtMost(bound, v)
    case In => exists s :: s in c.values && v == Meaning(parse, s)
    case Between => IsBetween(parse, v, c.values)
    case _ => true
  }

  /** A negated operator holds exactly where the operator does not, absent fields included. */
  predicate Holds(parse: Parse, field: Option<Value>, c: Constraint) {
    match c.op
    case NotExists => field.None?
    case Neq => field.None? || !HoldsPositive(parse, field.value, Eq, c)
    case NotIn => field.None? || !HoldsPositive(parse, field.value, In, c)
    case NotBetween => field.None? || !HoldsPositive(parse, field.value, Between, c)
    case _ => field.Some? && HoldsPositive(parse, field.value, c.op, c)
  }

  /* ---- the checks on one field ---- */

  datatype Kind =
    | ManyValues | EqualAndNotEqual | EqualInNotIn | EqualMissingFromIn | InAndNotInOverlap
    | EmptyRange | EqualOutsideRange | ExistsAndNot | NotExistsButImplied
    | BetweensApart | EqualOutsideBetweens | EqualInNotBetween | BetweenExcluded

  /** The reports that are heuristics: text values, sampled points, partial overlaps. */
  predicate IsHeuristic(k: Kind) {
    k.InAndNotInOverlap? || k.EqualInNotBetween? || k.BetweenExcluded?
  }

  predicate InBound(parse: Parse, c: Constraint, x: real) {
    match parse(c.value)
    case None => true
    case Some(bound) =>
      match c.op
      case Gt => x > bound
      case Ge => x >= bound
      case Lt => x < bound
      case Le => x <= bound
      case _ => true
  }

  predicate IsNumericBetween(parse: Parse, c: Constraint) {
    |c.values| == 2 && parse(c.values[0]).Some? && parse(c.values[1]).Some?
  }

  predicate InNumericBetween(parse: Parse, c: Constraint, x: real) {
    IsNumericBetween(parse, c) ==> parse(c.values[0]).value <= x <= parse(c.values[1]).value
  }

  /** valueSatisfiesBetween: what cannot be checked counts as inside. */
  predicate CountsAsInside(parse: Parse, num: Option<real>, c: Constraint) {
    |c.values| == 2 && (num.None? || InNumericBetween(parse, c, num.value))
  }

  /** The groups in which the constraints of one field are checked. */
  datatype Group = Equals | Differs | Bounds | Listed | Unlisted | Present | Absent | Inside | Outside

  function GroupOf(op: Op): Group {
    match op
    case Eq => Equals
    case Neq => Differs
    case In => Listed
    case NotIn => Unlisted
    case Between => Inside
    case NotBetween => Outside
    case Exists => Present
    case NotExists => Absent
    case _ => Bounds
  }

  function Select(cs: seq<Constraint>, g: Group): seq<Constraint> {
    if cs == [] then []
    else Select(cs[..|cs| - 1], g) + (if GroupOf(cs[|cs| - 1].op) == g then [cs[|cs| - 1]] else [])
  }

  lemma {:induction false} SelectMembers(cs: seq<Constraint>, g: Group)
    ensures forall c :: c in Select(cs, g) <==> c in cs && GroupOf(c.op) == g
  {
    if cs != [] {
      SelectMembers(cs[..|cs| - 1], g);
      assert cs == cs[..|cs| - 1] + [cs[|cs| - 1]];
    }
  }

  predicate InBounds(parse: Parse, cs: seq<Constraint>, x: real) {
    forall c :: c in cs ==> InBound(parse, c, x)
  }

  predicate InBetweens(parse: Parse, cs: seq<Constraint>, x: real) {
    forall c :: c in cs ==> InNumericBetween(parse, c, x)
  }

  ghost predicate NoneInBounds(parse: Parse, cs: seq<Constraint>) {
    forall x: real :: !InBounds(parse, cs, x)
  }

  ghost predicate NoneInBetweens(parse: Parse, cs: seq<Constraint>) {
    forall x: real :: !InBetweens(parse, cs, x)
  }

  /** The samples of a numeric BETWEEN: its endpoints and its midpoint. */
  function Samples(parse: Parse, b: Constraint): seq<real>
    requires IsNumericBetween(parse, b)
  {
    var lo, hi := parse(b.values[0]).value, parse(b.values[1]).value;
    [lo, hi, (lo + hi) / 2.0]
  }

  predicate IsExcluded(parse: Parse, x: real, notBetweens: seq<Constraint>) {
    exists n :: n in notBetweens && CountsAsInside(parse, Some(x), n)
  }

  predicate AllExcluded(parse: Parse, xs: seq<real>, notBetweens: seq<Constraint>) {
    forall x :: x in xs ==> IsExcluded(parse, x, notBetweens)
  }

  predicate SomeSampledOut(parse: Parse, betweens: seq<Constraint>, notBetweens: seq<Constraint>) {
    exists b :: b in betweens && IsNumericBetween(parse, b) && AllExcluded(parse, Samples(parse, b), notBetweens)
  }

  /** findContradictionsInConstraints, report by report. */
  ghost predicate Finds(parse: Parse, cs: seq<Constraint>, k: Kind) {
    match k
    case EmptyRange => NoneInBounds(parse, Select(cs, Bounds))
    case BetweensApart => |Select(cs, Inside)| >= 2 && NoneInBetweens(parse, Select(cs, Inside))
    case _ => FindsPair(parse, cs, k)
  }

  predicate FindsPair(parse: Parse, cs: seq<Constraint>, k: Kind) {
    match k
    case ManyValues => exists a, b :: a in cs && b in cs && a.op.Eq? && b.op.Eq? && a.value != b.value
    case EqualAndNotEqual => exists a, b :: a in cs && b in cs && a.op.Eq? && b.op.Neq? && a.value == b.value
    case EqualInNotIn => exists a, b :: a in cs && b in cs && a.op.Eq? && b.op.NotIn? && a.value in b.values
    case EqualMissingFromIn => exists a, b :: a in cs && b in cs && a.op.Eq? && b.op.In? && a.value !in b.values
    case InAndNotInOverlap =>
      exists a, b :: a in cs && b in cs && a.op.In? && b.op.NotIn? && exists s :: s in a.values && s in b.values
    case EqualOutsideRange =>
      exists a, b :: a in cs && b in cs && a.op.Eq? && IsRange(b.op) && parse(a.value).Some? && !InBound(parse, b, parse(a.value).value)
    case ExistsAndNot => exists a, b :: a in cs && b in cs && a.op.Exists? && b.op.NotExists?
    case NotExistsButImplied => exists a, b :: a in cs && b in cs && a.op.NotExists? && ImpliesExistence(b.op)
    case EqualOutsideBetweens =>
      && (exists b :: b in cs && b.op.Between?)
      && exists a :: a in cs && a.op.Eq? && forall b :: b in cs && b.op.Between? ==> !CountsAsInside(parse, parse(a.value), b)
    case EqualInNotBetween => exists a, b :: a in cs && b in cs && a.op.Eq? && b.op.NotBetween? && CountsAsInside(parse, parse(a.value), b)
    case BetweenExcluded => Select(cs, Outside) != [] && SomeSampledOut(parse, Select(cs, Inside), Select(cs, Outside))
    case _ => false
  }

  const OF_VALUES: set<Kind> := {ManyValues, EqualAndNotEqual, EqualInNotIn, EqualMissingFromIn, InAndNotInOverlap}

  const OF_RANGES: set<Kind> := {EmptyRange, EqualOutsideRange, ExistsAndNot, NotExistsButImplied}

  const OF_BETWEENS: set<Kind> := {BetweensApart, EqualOutsideBetweens, EqualInNotBetween, BetweenExcluded}

  const KINDS: set<Kind> := {
    ManyValues, EqualAndNotEqual, EqualInNotIn, EqualMissingFromIn, InAndNotInOverlap,
    EmptyRange, EqualOutsideRange, ExistsAndNot, NotExistsButImplied,
    BetweensApart, EqualOutsideBetweens, EqualInNotBetween, BetweenExcluded}

  /* ---- the two numeric decisions ---- */

  /** The tightest lower bound so far, or the tightest upper bound. */
  datatype Bound = Bound(value: real, inclusive: bool)

  predicate Above(b: Option<Bound>, x: real) {
    b.Some? ==> x > b.value.value || (x == b.value.value && b.value.inclusive)
  }

  predicate Below(b: Option<Bound>, x: real) {
    b.Some? ==> x < b.value.value || (x == b.value.value && b.value.inclusive)
  }

  function Tighter(b: Option<Bound>, c: Bound, lower: bool): (r: Option<Bound>)
    ensures r.Some?
    ensures lower ==> forall x: real :: Above(r, x) <==> Above(b, x) && Above(Some(c), x)
    ensures !lower ==> forall x: real :: Below(r, x) <==> Below(b, x) && Below(Some(c), x)
  {
    if b.None? || (if lower then c.value > b.value.value else c.value < b.value.value)
       || (c.value == b.value.value && !c.inclusive && b.value.inclusive)
    then Some(c) else b
  }

  lemma OneMore(parse: Parse, cs: seq<Constraint>, i: nat, x: real)
    requires i < |cs|
    ensures InBounds(parse, cs[..i + 1], x) <==> InBounds(parse, cs[..i], x) && InBound(parse, cs[i], x)
    ensures InBetweens(parse, cs[..i + 1], x) <==> InBetweens(parse, cs[..i], x) && InNumericBetween(parse, cs[i], x)
  {
    assert cs[..i + 1] == cs[..i] + [cs[i]];
    assert forall c :: c in cs[..i + 1] <==> c in cs[..i] || c == cs[i];
  }

  /** checkRangeContradictions is exact: it answers true exactly when no real number meets all bounds. */
  method CheckRangeContradictions(parse: Parse, cs: seq<Constraint>) returns (impossible: bool)
    requires forall c :: c in cs ==> IsRange(c.op)
    ensures impossible <==> NoneInBounds(parse, cs)
  {
    var lower: Option<Bound>, upper: Option<Bound> := None, None;
    for i := 0 to |cs|
      invariant forall x: real :: InBounds(parse, cs[..i], x) <==> Above(lower, x) && Below(upper, x)
    {
      var c := cs[i];
      var bound := parse(c.value);
      if bound.Some? {
        if c.op.Gt? || c.op.Ge? {
          lower := Tighter(lower, Bound(bound.value, c.op.Ge?), true);
        } else {
          upper := Tighter(upper, Bound(bound.value, c.op.Le?), false);
        }
      }
      forall x: real
        ensures InBounds(parse, cs[..i + 1], x) <==> Above(lower, x) && Below(upper, x)
      {
        OneMore(parse, cs, i, x);
      }
    }
    assert cs[..|cs|] == cs;
    impossible := false;
    if lower.Some? && upper.Some? {
      var lo, hi := lower.value, upper.value;
      impossible := lo.value > hi.value || (lo.value == hi.value && (!lo.inclusive || !hi.inclusive));
    }
    ghost var x :=
      if lower.None? && upper.None? then 0.0
      else if upper.None? then lower.value.value + 1.0
      else if lower.None? then upper.value.value - 1.0
      else (lower.value.value + upper.value.value) / 2.0;
    assert !impossible ==> InBounds(parse, cs, x);
  }

  predicate Within(range: Option<(real, real)>, x: real) {
    range.Some? ==> range.value.0 <= x <= range.value.1
  }

  /** hasCommonIntersection is exact over the numeric ranges. */
  method HasCommonIntersection(parse: Parse, cs: seq<Constraint>) returns (common: bool)
    ensures common <==> !NoneInBetweens(parse, cs)
  {
    var range: Option<(real, real)> := None;
    for i := 0 to |cs|
      invariant forall x: real :: InBetweens(parse, cs[..i], x) <==> Within(range, x)
    {
      var c := cs[i];
      if IsNumericBetween(parse, c) {
        var lo, hi := parse(c.values[0]).value, parse(c.values[1]).value;
        if range.None? {
          range := Some((lo, hi));
        } else {
          range := Some((if lo > range.value.0 then lo else range.value.0, if hi < range.value.1 then hi else range.value.1));
        }
      }
      forall x: real
        ensures InBetweens(parse, cs[..i + 1], x) <==> Within(range, x)
      {
        OneMore(parse, cs, i, x);
      }
    }
    assert cs[..|cs|] == cs;
    common := range.None? || range.value.0 <= range.value.1;
    ghost var x := if range.None? then 0.0 else range.value.0;
    assert common ==> InBetweens(parse, cs, x);
  }

  /* ---- the other checks ---- */

  const GROUPS: set<Group> := {Equals, Differs, Bounds, Listed, Unlisted, Present, Absent, Inside, Outside}

  lemma InGroups(g: Group)
    ensures g in GROUPS
  {
    match g
    case Equals =>
    case Differs =>
    case Bounds =>
    case Listed =>
    case Unlisted =>
    case Present =>
    case Absent =>
    case Inside =>
    case Outside =>
  }

  ghost predicate IsGrouping(groups: map<Group, seq<Constraint>>, cs: seq<Constraint>) {
    forall g :: g in groups && groups[g] == Select(cs, g)
  }

  method GroupByOperator(cs: seq<Constraint>) returns (groups: map<Group, seq<Constraint>>)
    ensures IsGrouping(groups, cs)
  {
    groups := map g | g in GROUPS :: [];
    forall g: Group ensures g in GROUPS { InGroups(g); }
    for i := 0 to |cs|
      invariant IsGrouping(groups, cs[..i])
    {
      assert cs[..i + 1][..i] == cs[..i];
      var g := GroupOf(cs[i].op);
      groups := groups[g := groups[g] + [cs[i]]];
    }
    assert cs[..|cs|] == cs;
  }

  predicate SomePair(xs: seq<Constraint>, ys: seq<Constraint>, clash: (Constraint, Constraint) -> bool) {
    exists a, b :: a in xs && b in ys && clash(a, b)
  }

  /** The two nested loops that most checks are. */
  method AnyPair(xs: seq<Constraint>, ys: seq<Constraint>, clash: (Constraint, Constraint) -> bool) returns (found: bool)
    ensures found <==> SomePair(xs, ys, clash)
  {
    found := false;
    for i := 0 to |xs|
      invariant found <==> SomePair(xs[..i], ys, clash)
    {
      assert xs[..i + 1] == xs[..i] + [xs[i]];
      for j := 0 to |ys|
        invariant found <==> SomePair(xs[..i], ys, clash) || SomePair([xs[i]], ys[..j], clash)
      {
        assert ys[..j + 1] == ys[..j] + [ys[j]];
        assert xs[i] in [xs[i]] && ys[j] in ys[..j + 1];
        if clash(xs[i], ys[j]) {
          found := true;
        }
      }
      assert ys[..|ys|] == ys;
      assert xs[i] in [xs[i]] && xs[i] in xs[..i + 1];
    }
    assert xs[..|xs|] == xs;
  }

  /** More than one value among the equalities. */
  method ManyEqualValues(equal: seq<Constraint>) returns (many: bool)
    ensures many <==> SomePair(equal, equal, OtherValue)
  {
    var values: set<string> := {};
    for i := 0 to |equal|
      invariant forall s :: s in values <==> exists j :: 0 <= j < i && equal[j].value == s
    {
      values := values + {equal[i].value};
    }
    many := |values| > 1;
    if many {
      var s :| s in values;
      var others := values - {s};
      assert |others| == |values| - 1;
      var u :| u in others;
      var i :| 0 <= i < |equal| && equal[i].value == s;
      var j :| 0 <= j < |equal| && equal[j].value == u;
      assert equal[i] in equal && equal[j] in equal;
    } else {
      forall a, b | a in equal && b in equal
        ensures a.value == b.value
      {
        OnlyValue(values, a.value, b.value);
      }
    }
  }

  lemma OnlyValue(values: set<string>, s: string, u: string)
    requires |values| <= 1 && s in values && u in values
    ensures s == u
  {
    assert |values - {s}| == |values| - 1;
    assert values - {s} == {};
  }

  /** valuesSatisfyRanges: a text is not checked. */
  method ValuesSatisfyRanges(parse: Parse, value: string, ranges: seq<Constraint>) returns (ok: bool)
    ensures ok <==> (parse(value).Some? ==> InBounds(parse, ranges, parse(value).value))
  {
    var num := parse(value);
    if num.None? {
      return true;
    }
    for i := 0 to |ranges|
      invariant InBounds(parse, ranges[..i], num.value)
    {
      OneMore(parse, ranges, i, num.value);
      if !InBound(parse, ranges[i], num.value) {
        assert ranges[i] in ranges;
        return false;
      }
    }
    assert ranges[..|ranges|] == ranges;
    ok := true;
  }

  predicate SomeOutsideRange(parse: Parse, equal: seq<Constraint>, ranges: seq<Constraint>) {
    exists a :: a in equal && parse(a.value).Some? && !InBounds(parse, ranges, parse(a.value).value)
  }

  method EqualOutside(parse: Parse, equal: seq<Constraint>, ranges: seq<Constraint>) returns (outside: bool)
    ensures outside <==> SomeOutsideRange(parse, equal, ranges)
  {
    outside := false;
    for i := 0 to |equal|
      invariant outside <==> SomeOutsideRange(parse, equal[..i], ranges)
    {
      assert equal[..i + 1] == equal[..i] + [equal[i]];
      var ok := ValuesSatisfyRanges(parse, equal[i].value, ranges);
      if !ok {
        assert equal[i] in equal[..i + 1];
        outside := true;
      }
    }
    assert equal[..|equal|] == equal;
  }

  predicate OutsideAll(parse: Parse, a: Constraint, betweens: seq<Constraint>) {
    forall b :: b in betweens ==> !CountsAsInside(parse, parse(a.value), b)
  }

  predicate SomeOutsideAll(parse: Parse, equal: seq<Constraint>, betweens: seq<Constraint>) {
    exists a :: a in equal && OutsideAll(parse, a, betweens)
  }

  /** BETWEEN against equality: some equal value that no range takes. */
  method EqualOutsideEvery(parse: Parse, equal: seq<Constraint>, betweens: seq<Constraint>) returns (outside: bool)
    ensures outside <==> betweens != [] && SomeOutsideAll(parse, equal, betweens)
  {
    outside := false;
    for i := 0 to |equal|
      invariant outside <==> betweens != [] && SomeOutsideAll(parse, equal[..i], betweens)
    {
      assert equal[..i + 1] == equal[..i] + [equal[i]];
      var satisfiesAny := false;
      for j := 0 to |betweens|
        invariant !satisfiesAny && OutsideAll(parse, equal[i], betweens[..j])
      {
        assert betweens[..j + 1] == betweens[..j] + [betweens[j]];
        if CountsAsInside(parse, parse(equal[i].value), betweens[j]) {
          satisfiesAny := true;
          assert betweens[j] in betweens;
          break;
        }
      }
      assert satisfiesAny || betweens[..|betweens|] == betweens;
      assert equal[i] in equal[..i + 1];
      if |betweens| > 0 && !satisfiesAny {
        outside := true;
      }
    }
    assert equal[..|equal|] == equal;
  }

  method SamplesExcluded(parse: Parse, testValues: seq<real>, notBetweens: seq<Constraint>) returns (excluded: bool)
    ensures excluded <==> AllExcluded(parse, testValues, notBetweens)
  {
    for i := 0 to |testValues|
      invariant AllExcluded(parse, testValues[..i], notBetweens)
    {
      assert testValues[..i + 1] == testValues[..i] + [testValues[i]];
      var valid := true;
      for j := 0 to |notBetweens|
        invariant valid && !IsExcluded(parse, testValues[i], notBetweens[..j])
      {
        assert notBetweens[..j + 1] == notBetweens[..j] + [notBetweens[j]];
        if CountsAsInside(parse, Some(testValues[i]), notBetweens[j]) {
          valid := false;
          assert notBetweens[j] in notBetweens;
          break;
        }
      }
      if valid {
        assert notBetweens[..|notBetweens|] == notBetweens;
        assert testValues[i] in testValues;
        return false;
      }
    }
    assert testValues[..|testValues|] == testValues;
    excluded := true;
  }

  /** BETWEEN against NOT BETWEEN, by samples. */
  method BetweensExcluded(parse: Parse, betweens: seq<Constraint>, notBetweens: seq<Constraint>) returns (excluded: bool)
    ensures excluded <==> notBetweens != [] && SomeSampledOut(parse, betweens, notBetweens)
  {
    excluded := false;
    if |betweens| > 0 && |notBetweens| > 0 {
      for i := 0 to |betweens|
        invariant excluded <==> SomeSampledOut(parse, betweens[..i], notBetweens)
      {
        var b := betweens[i];
        assert betweens[..i + 1] == betweens[..i] + [b];
        if IsNumericBetween(parse, b) {
          var all := SamplesExcluded(parse, Samples(parse, b), notBetweens);
          if all {
            assert b in betweens[..i + 1];
            excluded := true;
          }
        }
      }
      assert betweens[..|betweens|] == betweens;
    }
  }

  predicate SameValue(a: Constraint, b: Constraint) { a.value == b.value }

  predicate OtherValue(a: Constraint, b: Constraint) { a.value != b.value }

  predicate Lists(a: Constraint, b: Constraint) { a.value in b.values }

  predicate Omits(a: Constraint, b: Constraint) { a.value !in b.values }

  predicate Overlap(a: Constraint, b: Constraint) { exists s :: s in a.values && s in b.values }

  predicate Implies(a: Constraint, b: Constraint) { ImpliesExistence(b.op) }

  function TakenBy(parse: Parse): (Constraint, Constraint) -> bool {
    (a: Constraint, b: Constraint) => CountsAsInside(parse, parse(a.value), b)
  }

  /** A clash between a constraint of one group and one of another. */
  predicate Clash(cs: seq<Constraint>, g: Group, h: Group, clash: (Constraint, Constraint) -> bool) {
    exists a, b :: a in cs && b in cs && GroupOf(a.op) == g && GroupOf(b.op) == h && clash(a, b)
  }

  method AnyClash(groups: map<Group, seq<Constraint>>, ghost cs: seq<Constraint>, g: Group, h: Group,
                  clash: (Constraint, Constraint) -> bool) returns (found: bool)
    requires IsGrouping(groups, cs)
    ensures found <==> Clash(cs, g, h, clash)
  {
    SelectMembers(cs, g);
    SelectMembers(cs, h);
    found := AnyPair(groups[g], groups[h], clash);
  }

  lemma ManyValuesClash(parse: Parse, cs: seq<Constraint>)
    ensures FindsPair(parse, cs, ManyValues) <==> Clash(cs, Equals, Equals, OtherValue)
  {
  }

  lemma NotEqualClash(parse: Parse, cs: seq<Constraint>)
    ensures FindsPair(parse, cs, EqualAndNotEqual) <==> Clash(cs, Equals, Differs, SameValue)
  {
  }

  lemma NotInClash(parse: Parse, cs: seq<Constraint>)
    ensures FindsPair(parse, cs, EqualInNotIn) <==> Clash(cs, Equals, Unlisted, Lists)
  {
  }

  lemma InClash(parse: Parse, cs: seq<Constraint>)
    ensures FindsPair(parse, cs, EqualMissingFromIn) <==> Clash(cs, Equals, Listed, Omits)
  {
  }

  lemma OverlapClash(parse: Parse, cs: seq<Constraint>)
    ensures FindsPair(parse, cs, InAndNotInOverlap) <==> Clash(cs, Listed, Unlisted, Overlap)
  {
  }

  lemma OutsideClash(parse: Parse, cs: seq<Constraint>)
    ensures FindsPair(parse, cs, EqualInNotBetween) <==> Clash(cs, Equals, Outside, TakenBy(parse))
  {
  }

  lemma NotEmpty(cs: seq<Constraint>, g: Group)
    ensures Select(cs, g) != [] <==> exists c :: c in cs && GroupOf(c.op) == g
  {
    SelectMembers(cs, g);
    if Select(cs, g) != [] { assert Select(cs, g)[0] in Select(cs, g); }
  }

  method ManyValuesCheck(parse: Parse, groups: map<Group, seq<Constraint>>, ghost cs: seq<Constraint>) returns (many: bool)
    requires IsGrouping(groups, cs)
    ensures many <==> FindsPair(parse, cs, ManyValues)
  {
    ManyValuesClash(parse, cs);
    SelectMembers(cs, Equals);
    many := ManyEqualValues(groups[Equals]);
  }

  method BoundsChecks(parse: Parse, groups: map<Group, seq<Constraint>>, ghost cs: seq<Constraint>)
    returns (impossible: bool, outside: bool)
    requires IsGrouping(groups, cs)
    ensures impossible <==> NoneInBounds(parse, Select(cs, Bounds))
    ensures outside <==> FindsPair(parse, cs, EqualOutsideRange)
  {
    SelectMembers(cs, Equals);
    SelectMembers(cs, Bounds);
    impossible := CheckRangeContradictions(parse, groups[Bounds]);
    outside := EqualOutside(parse, groups[Equals], groups[Bounds]);
  }

  method ExistsAndAbsent(parse: Parse, groups: map<Group, seq<Constraint>>, ghost cs: seq<Constraint>) returns (both: bool)
    requires IsGrouping(groups, cs)
    ensures both <==> FindsPair(parse, cs, ExistsAndNot)
  {
    NotEmpty(cs, Present);
    NotEmpty(cs, Absent);
    both := |groups[Present]| > 0 && |groups[Absent]| > 0;
  }

  method ImpliedExistence(parse: Parse, groups: map<Group, seq<Constraint>>, cs: seq<Constraint>) returns (implied: bool)
    requires IsGrouping(groups, cs)
    ensures implied <==> FindsPair(parse, cs, NotExistsButImplied)
  {
    SelectMembers(cs, Absent);
    implied := AnyPair(groups[Absent], cs, Implies);
  }

  method OutsideEveryBetween(parse: Parse, groups: map<Group, seq<Constraint>>, ghost cs: seq<Constraint>) returns (outside: bool)
    requires IsGrouping(groups, cs)
    ensures outside <==> FindsPair(parse, cs, EqualOutsideBetweens)
  {
    NotEmpty(cs, Inside);
    SelectMembers(cs, Equals);
    SelectMembers(cs, Inside);
    outside := EqualOutsideEvery(parse, groups[Equals], groups[Inside]);
  }

  /** finds says what the specification says, kind by kind. */
  ghost predicate Decides(parse: Parse, cs: seq<Constraint>, finds: Kind -> bool) {
    forall k {:trigger Finds(parse, cs, k)} :: finds(k) <==> Finds(parse, cs, k)
  }

  /** The check behind one kind of report. */
  method CheckKind(parse: Parse, groups: map<Group, seq<Constraint>>, cs: seq<Constraint>, k: Kind, ghost finds: Kind -> bool)
    returns (found: bool)
    requires IsGrouping(groups, cs) && Decides(parse, cs, finds)
    ensures found <==> finds(k)
  {
    match k {
      case ManyValues =>
        found := ManyValuesCheck(parse, groups, cs);
      case EqualAndNotEqual =>
        NotEqualClash(parse, cs);
        found := AnyClash(groups, cs, Equals, Differs, SameValue);
      case EqualInNotIn =>
        NotInClash(parse, cs);
        found := AnyClash(groups, cs, Equals, Unlisted, Lists);
      case EqualMissingFromIn =>
        InClash(parse, cs);
        found := AnyClash(groups, cs, Equals, Listed, Omits);
      case InAndNotInOverlap =>
        OverlapClash(parse, cs);
        found := AnyClash(groups, cs, Listed, Unlisted, Overlap);
      case EmptyRange =>
        var outside;
        found, outside := BoundsChecks(parse, groups, cs);
      case EqualOutsideRange =>
        var impossible;
        impossible, found := BoundsChecks(parse, groups, cs);
      case ExistsAndNot =>
        found := ExistsAndAbsent(parse, groups, cs);
      case NotExistsButImplied =>
        found := ImpliedExistence(parse, groups, cs);
      case BetweensApart =>
        found := false;
        if |groups[Inside]| >= 2 {
          var common := HasCommonIntersection(parse, groups[Inside]);
          found := !common;
        }
      case EqualOutsideBetweens =>
        found := OutsideEveryBetween(parse, groups, cs);
      case EqualInNotBetween =>
        OutsideClash(parse, cs);
        found := AnyClash(groups, cs, Equals, Outside, TakenBy(parse));
      case BetweenExcluded =>
        found := BetweensExcluded(parse, groups[Inside], groups[Outside]);
    }
    assert finds(k) <==> Finds(parse, cs, k);
  }

  lemma SomeChecks(k: Kind)
    ensures k in OF_VALUES || k in OF_RANGES || k in OF_BETWEENS
  {
    match k
    case ManyValues =>
    case EqualAndNotEqual =>
    case EqualInNotIn =>
    case EqualMissingFromIn =>
    case InAndNotInOverlap =>
    case EmptyRange =>
    case EqualOutsideRange =>
    case ExistsAndNot =>
    case NotExistsButImplied =>
    case BetweensApart =>
    case EqualOutsideBetweens =>
    case EqualInNotBetween =>
    case BetweenExcluded =>
  }

  /** Values and lists. */
  method ValueChecks(parse: Parse, groups: map<Group, seq<Constraint>>, cs: seq<Constraint>, ghost finds: Kind -> bool)
    returns (found: set<Kind>)
    requires IsGrouping(groups, cs) && Decides(parse, cs, finds)
    ensures forall k :: k in found <==> k in OF_VALUES && finds(k)
  {
    var many := CheckKind(parse, groups, cs, ManyValues, finds);
    var both := CheckKind(parse, groups, cs, EqualAndNotEqual, finds);
    var listed := CheckKind(parse, groups, cs, EqualInNotIn, finds);
    var omitted := CheckKind(parse, groups, cs, EqualMissingFromIn, finds);
    var overlap := CheckKind(parse, groups, cs, InAndNotInOverlap, finds);
    found := (if many then {ManyValues} else {}) + (if both then {EqualAndNotEqual} else {}) + (if listed then {EqualInNotIn} else {}) + (if omitted then {EqualMissingFromIn} else {}) + (if overlap then {InAndNotInOverlap} else {});
  }

  /** Bounds and existence. */
  method RangeChecks(parse: Parse, groups: map<Group, seq<Constraint>>, cs: seq<Constraint>, ghost finds: Kind -> bool)
    returns (found: set<Kind>)
    requires IsGrouping(groups, cs) && Decides(parse, cs, finds)
    ensures forall k :: k in found <==> k in OF_RANGES && finds(k)
  {
    var impossible := CheckKind(parse, groups, cs, EmptyRange, finds);
    var outside := CheckKind(parse, groups, cs, EqualOutsideRange, finds);
    var clash := CheckKind(parse, groups, cs, ExistsAndNot, finds);
    var implied := CheckKind(parse, groups, cs, NotExistsButImplied, finds);
    found := (if impossible then {EmptyRange} else {}) + (if outside then {EqualOutsideRange} else {}) + (if clash then {ExistsAndNot} else {}) + (if implied then {NotExistsButImplied} else {});
  }

  /** BETWEEN and NOT BETWEEN. */
  method BetweenChecks(parse: Parse, groups: map<Group, seq<Constraint>>, cs: seq<Constraint>, ghost finds: Kind -> bool)
    returns (found: set<Kind>)
    requires IsGrouping(groups, cs) && Decides(parse, cs, finds)
    ensures forall k :: k in found <==> k in OF_BETWEENS && finds(k)
  {
    var apart := CheckKind(parse, groups, cs, BetweensApart, finds);
    var outsideAll := CheckKind(parse, groups, cs, EqualOutsideBetweens, finds);
    var inside := CheckKind(parse, groups, cs, EqualInNotBetween, finds);
    var excluded := CheckKind(parse, groups, cs, BetweenExcluded, finds);
    found := (if apart then {BetweensApart} else {}) + (if outsideAll then {EqualOutsideBetweens} else {}) + (if inside then {EqualInNotBetween} else {}) + (if excluded then {BetweenExcluded} else {});
  }

  method RunChecks(parse: Parse, groups: map<Group, seq<Constraint>>, cs: seq<Constraint>, ghost finds: Kind -> bool)
    returns (found: set<Kind>)
    requires IsGrouping(groups, cs) && Decides(parse, cs, finds)
    ensures forall k :: k in found <==> finds(k)
  {
    var values := ValueChecks(parse, groups, cs, finds);
    var ranges := RangeChecks(parse, groups, cs, finds);
    var betweens := BetweenChecks(parse, groups, cs, finds);
    found := values + ranges + betweens;
    forall k: Kind { SomeChecks(k); }
  }

  /** findContradictionsInConstraints. */
  method FindContradictions(parse: Parse, cs: seq<Constraint>) returns (found: set<Kind>)
    ensures forall k :: k in found <==> Finds(parse, cs, k)
  {
    ghost var finds: Kind -> bool := k => Finds(parse, cs, k);
    var groups := GroupByOperator(cs);
    found := RunChecks(parse, groups, cs, finds);
  }

  /* ---- the reports on one field are right ---- */

  /** Equal values are written alike: 200 and 200.0 do not both occur. */
  predicate Canonical(parse: Parse, texts: set<string>) {
    forall s, t :: s in texts && t in texts && Meaning(parse, s) == Meaning(parse, t) ==> s == t
  }

  predicate Uses(texts: set<string>, c: Constraint) {
    (c.op.Eq? ==> c.value in texts) && (c.op.In? ==> forall s :: s in c.values ==> s in texts)
  }

  predicate HoldsAll(parse: Parse, field: Option<Value>, cs: seq<Constraint>) {
    forall c :: c in cs ==> Holds(parse, field, c)
  }

  lemma NumericBound(parse: Parse, v: Value, c: Constraint)
    requires IsRange(c.op) && HoldsPositive(parse, v, c.op, c)
    ensures parse(c.value).Some? ==> v.Num? && InBound(parse, c, v.n)
  {
  }

  lemma NumericBetween(parse: Parse, v: Value, c: Constraint)
    requires HoldsPositive(parse, v, Between, c)
    ensures IsNumericBetween(parse, c) ==> v.Num? && InNumericBetween(parse, c, v.n)
  {
  }

  /** A value that meets the constraints meets the bounds that are numbers; if none is, any number does. */
  lemma HeldBounds(parse: Parse, field: Option<Value>, cs: seq<Constraint>) returns (x: real)
    requires HoldsAll(parse, field, cs)
    ensures InBounds(parse, Select(cs, Bounds), x)
  {
    var ranges := Select(cs, Bounds);
    SelectMembers(cs, Bounds);
    x := if field.Some? && field.value.Num? then field.value.n else 0.0;
    forall c | c in ranges
      ensures InBound(parse, c, x)
    {
      assert Holds(parse, field, c);
      NumericBound(parse, field.value, c);
    }
  }

  lemma HeldBetweens(parse: Parse, field: Option<Value>, cs: seq<Constraint>) returns (x: real)
    requires HoldsAll(parse, field, cs)
    ensures InBetweens(parse, Select(cs, Inside), x)
  {
    var betweens := Select(cs, Inside);
    SelectMembers(cs, Inside);
    x := if field.Some? && field.value.Num? then field.value.n else 0.0;
    forall c | c in betweens
      ensures InNumericBetween(parse, c, x)
    {
      assert Holds(parse, field, c);
      NumericBetween(parse, field.value, c);
    }
  }

  lemma EmptyRangeIsRight(parse: Parse, field: Option<Value>, cs: seq<Constraint>)
    requires Finds(parse, cs, EmptyRange)
    ensures !HoldsAll(parse, field, cs)
  {
    if HoldsAll(parse, field, cs) {
      var x := HeldBounds(parse, field, cs);
    }
  }

  lemma BetweensApartIsRight(parse: Parse, field: Option<Value>, cs: seq<Constraint>)
    requires Finds(parse, cs, BetweensApart)
    ensures !HoldsAll(parse, field, cs)
  {
    if HoldsAll(parse, field, cs) {
      var x := HeldBetweens(parse, field, cs);
    }
  }

  /** No value of the field, and no absence of it, meets constraints with a report that is not a heuristic. */
  lemma FindingIsRight(parse: Parse, texts: set<string>, field: Option<Value>, cs: seq<Constraint>, k: Kind)
    requires Finds(parse, cs, k) && !IsHeuristic(k)
    requires Canonical(parse, texts) && forall c :: c in cs ==> Uses(texts, c)
    ensures !HoldsAll(parse, field, cs)
  {
    match k
    case EmptyRange => EmptyRangeIsRight(parse, field, cs);
    case BetweensApart => BetweensApartIsRight(parse, field, cs);
    case _ =>
  }
}
