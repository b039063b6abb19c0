/** Guard predicates, the search for fixtures that reject on each of them, and the
    publication gate that demands such a witness for every predicate. */
module GuardWitness {
  import opened Outcomes
  import opened Arithmetic
  import opened DecimalFormat
  import opened Expression

  datatype Direction = StrictlyIncreasing | StrictlyDecreasing | NonDecreasing | NonIncreasing

  datatype Predicate =
    | Range(value: Expr, minimum: Expr, maximum: Expr)
    | Positive(value: Expr)
    | Equals(left: Expr, right: Expr)
    | NotEquals(left: Expr, right: Expr)
    | SumEquals(terms: seq<Expr>, total: Expr)
    | ProductEquals(factors: seq<Expr>, total: Expr)
    | DivisibleBy(value: Expr, divisor: Expr)
    | Ordered(terms: seq<Expr>, direction: Direction)

  type Guard = seq<Predicate>

  function Expressions(p: Predicate): seq<Expr> {
    match p
    case Range(value, minimum, maximum) => [value, minimum, maximum]
    case Positive(value) => [value]
    case Equals(left, right) => [left, right]
    case NotEquals(left, right) => [left, right]
    case SumEquals(terms, total) => terms + [total]
    case ProductEquals(factors, total) => factors + [total]
    case DivisibleBy(value, divisor) => [value, divisor]
    case Ordered(terms, _) => terms
  }

  predicate WellShaped(p: Predicate) {
    forall i | 0 <= i < |Expressions(p)| :: Schema(Expressions(p)[i])
  }

  predicate GuardShaped(guard: Guard) {
    forall i | 0 <= i < |guard| :: WellShaped(guard[i])
  }

  // ----- evaluating the guard -----

  function Sum(xs: seq<real>): real {
    if xs == [] then 0.0 else Sum(xs[..|xs| - 1]) + xs[|xs| - 1]
  }

  function Product(xs: seq<real>): real {
    if xs == [] then 1.0 else Product(xs[..|xs| - 1]) * xs[|xs| - 1]
  }

  predicate InOrder(direction: Direction, a: real, b: real) {
    match direction
    case StrictlyIncreasing => a < b
    case StrictlyDecreasing => a > b
    case NonDecreasing => a <= b
    case NonIncreasing => a >= b
  }

  /** Whether a predicate holds of its evaluated expressions. */
  function Holds(p: Predicate, xs: seq<real>): Result<bool, ExprError>
    requires |xs| == |Expressions(p)|
  {
    match p
    case Range(_, _, _) => Ok(xs[1] <= xs[0] <= xs[2])
    case Positive(_) => Ok(xs[0] > 0.0)
    case Equals(_, _) => Ok(xs[0] == xs[1])
    case NotEquals(_, _) => Ok(xs[0] != xs[1])
    case SumEquals(_, _) => Ok(Sum(xs[..|xs| - 1]) == xs[|xs| - 1])
    case ProductEquals(_, _) => Ok(Product(xs[..|xs| - 1]) == xs[|xs| - 1])
    case DivisibleBy(_, _) =>
      if xs[1] == 0.0 then Err(DivideByZero) else Ok((xs[0] / xs[1]).Floor as real == xs[0] / xs[1])
    case Ordered(_, direction) => Ok(forall i | 0 <= i < |xs| - 1 :: InOrder(direction, xs[i], xs[i + 1]))
  }

  function CheckPredicate(p: Predicate, values: Values): Result<bool, ExprError>
    requires WellShaped(p)
  {
    var xs :- EvaluateAll(Expressions(p), values);
    Holds(p, xs)
  }

  /** Every predicate's verdict, or the first evaluation error. */
  function Verdicts(guard: Guard, values: Values): (r: Result<seq<bool>, ExprError>)
    requires GuardShaped(guard)
    ensures r.Ok? ==> |r.value| == |guard|
  {
    if guard == [] then Ok([])
    else
      var before :- Verdicts(guard[..|guard| - 1], values);
      var last :- CheckPredicate(guard[|guard| - 1], values);
      Ok(before + [last])
  }

  method CheckGuard(guard: Guard, values: Values) returns (r: Result<seq<bool>, ExprError>)
    requires GuardShaped(guard)
    ensures r == Verdicts(guard, values)
    ensures r.Ok? ==> |r.value| == |guard| && forall i | 0 <= i < |guard| :: CheckPredicate(guard[i], values) == Ok(r.value[i])
  {
    hide CheckPredicate, WellShaped;
    var results: seq<bool> := [];
    for i := 0 to |guard|
      invariant Verdicts(guard[..i], values) == Ok(results) && |results| == i
      invariant forall j | 0 <= j < i :: CheckPredicate(guard[j], values) == Ok(results[j])
    {
      assert guard[..i + 1][..i] == guard[..i];
      var verdict := CheckPredicate(guard[i], values);
      if verdict.Err? {
        ErrorSpreads(guard, values, i + 1);
        return Err(verdict.error);
      }
      results := results + [verdict.value];
    }
    assert guard[..|guard|] == guard;
    return Ok(results);
  }

  lemma {:induction false} ErrorSpreads(guard: Guard, values: Values, n: nat)
    requires GuardShaped(guard) && n <= |guard| && Verdicts(guard[..n], values).Err?
    ensures Verdicts(guard, values) == Err(Verdicts(guard[..n], values).error)
    decreases |guard|
  {
    if n < |guard| {
      var front := guard[..|guard| - 1];
      assert front[..n] == guard[..n];
      ErrorSpreads(front, values, n);
    } else {
      assert guard[..n] == guard;
    }
  }

  /** The predicates that evaluate and fail; none at all when any does not evaluate. */
  function FailingIndexes(guard: Guard, values: Values): set<nat>
    requires GuardShaped(guard)
  {
    var verdicts := Verdicts(guard, values);
    if verdicts.Err? then {} else set i: nat | i < |guard| && !verdicts.value[i]
  }

  /** A failing index really is a predicate that evaluates to false there. */
  lemma {:induction false} FailingMeansFalse(guard: Guard, values: Values, i: nat)
    requires GuardShaped(guard) && i in FailingIndexes(guard, values)
    ensures i < |guard| && CheckPredicate(guard[i], values) == Ok(false)
  {
    VerdictAt(guard, values, i);
  }

  lemma {:induction false} VerdictAt(guard: Guard, values: Values, i: nat)
    requires GuardShaped(guard) && i < |guard| && Verdicts(guard, values).Ok?
    ensures CheckPredicate(guard[i], values) == Ok(Verdicts(guard, values).value[i])
  {
    if i < |guard| - 1 {
      VerdictAt(guard[..|guard| - 1], values, i);
    }
  }

  // ----- references -----

  /** Every field reference an expression reads, left to right. */
  function RefsOf(e: Expr): (refs: seq<Expr>)
    ensures forall r :: r in refs ==> r.FieldRef?
    decreases e, 1
  {
    match e
    case Literal(_) => []
    case FieldRef(_, _, _) => [e]
    case Node(_, operands) => RefsOfAll(operands)
  }

  function RefsOfAll(es: seq<Expr>): (refs: seq<Expr>)
    ensures forall r :: r in refs ==> r.FieldRef?
    decreases es, 0
  {
    if es == [] then [] else RefsOf(es[0]) + RefsOfAll(es[1..])
  }

  function PredicateRefs(p: Predicate): (refs: seq<Expr>)
    ensures forall r :: r in refs ==> r.FieldRef?
  {
    RefsOfAll(Expressions(p))
  }

  /** A number stored in a record; absent when it is not finite. */
  type Stored = Option<Rational>

  datatype Bounds = Bounds(minimum: Option<Rational>, maximum: Option<Rational>)

  datatype FieldSpec = Single(bounds: Bounds) | ArrayOf(items: map<string, Bounds>)

  type Specs = map<string, FieldSpec>

  function SpecFor(ref: Expr, specs: Specs): Option<Bounds>
    requires ref.FieldRef?
  {
    if ref.field !in specs then None
    else
      match specs[ref.field]
      case Single(bounds) => if ref.item.None? then Some(bounds) else None
      case ArrayOf(items) => if ref.item.Some? && ref.item.value in items then Some(items[ref.item.value]) else None
  }

  function CurrentValue(ref: Expr, params: Values): Option<Stored>
    requires ref.FieldRef?
  {
    if ref.field !in params then None
    else
      var raw := Indexed(params[ref.field], ref.index);
      if raw.Err? then None
      else
        var leaf := Member(raw.value, ref.item);
        if leaf.Ok? && leaf.value.Number? then Some(leaf.value.number) else None
  }

  predicate AllObjects(items: seq<Raw>) {
    forall i :: 0 <= i < |items| ==> items[i].Object?
  }

  /** The record with the one scalar this reference reads replaced; none when the
      reference does not fit the record's shape. */
  function WithValue(ref: Expr, params: Values, value: Stored): Option<Values>
    requires ref.FieldRef?
  {
    if ref.item.None? then Some(params[ref.field := Number(value)])
    else if ref.field !in params || !params[ref.field].Items? || !AllObjects(params[ref.field].items) then None
    else if ref.index.None? || ref.index.value >= |params[ref.field].items| then None
    else
      var items := params[ref.field].items;
      var entry := items[ref.index.value];
      Some(params[ref.field :=
           Items(items[ref.index.value := Object(entry.members[ref.item.value := Number(value)])])])
  }

  /** Exactly one scalar differs: the one the reference names. */
  ghost predicate DiffersOnlyAt(ref: Expr, params: Values, changed: Values, value: Stored)
    requires ref.FieldRef?
  {
    && ref.field in changed
    && (forall f :: f != ref.field ==> (f in changed <==> f in params) && (f in params ==> changed[f] == params[f]))
    && if ref.item.None? then changed[ref.field] == Number(value)
       else
         && ref.field in params && params[ref.field].Items? && changed[ref.field].Items? && ref.index.Some?
         && var was, now, at := params[ref.field].items, changed[ref.field].items, ref.index.value;
         && |now| == |was| && at < |now| && (forall j :: 0 <= j < |now| && j != at ==> now[j] == was[j])
         && was[at].Object? && now[at].Object? && ref.item.value in now[at].members
         && now[at].members[ref.item.value] == Number(value)
         && forall m :: m != ref.item.value ==>
                          (m in now[at].members <==> m in was[at].members)
                          && (m in was[at].members ==> now[at].members[m] == was[at].members[m])
  }

  lemma WithValueChangesOne(ref: Expr, params: Values, value: Stored)
    requires ref.FieldRef? && WithValue(ref, params, value).Some?
    ensures DiffersOnlyAt(ref, params, WithValue(ref, params, value).value, value)
  {
  }

  // ----- candidate values -----

  /** A reduced fraction stays reduced when a whole number is added. */
  lemma ShiftReduced(n: int, d: nat, k: int)
    requires d > 0 && Coprime(Abs(n), d)
    ensures Coprime(Abs(n + k * d), d)
  {
    var g := Gcd(Abs(n + k * d), d);
    GcdPositive(Abs(n + k * d), d);
    GcdDividesBoth(Abs(n + k * d), d);
    DividesAbs(g, n + k * d);
    DividesProduct(g, d, -k);
    DividesSum(g, n + k * d, -k * d);
    DividesAbs(g, n);
    CoprimeNoCommonFactor(Abs(n), d, g);
  }

  lemma DividesAbs(g: int, n: int)
    ensures Divides(g, Abs(n)) <==> Divides(g, n)
  {
    if Divides(g, Abs(n)) {
      var q :| q * g == Abs(n);
      DividesIntro(g, n, if n < 0 then -q else q);
    }
    if Divides(g, n) {
      var q :| q * g == n;
      DividesIntro(g, Abs(n), if n < 0 then -q else q);
    }
  }

  function Shifted(q: Rational, k: int): Rational {
    ShiftReduced(q.numerator, q.denominator, k);
    Fraction(q.numerator + k * q.denominator, q.denominator)
  }

  /** The values tried, repetitions included: around the bounds, around zero, and
      what the predicate's other references hold. */
  function AllCandidates(bounds: Bounds, siblings: seq<Stored>): seq<Stored> {
    (if bounds.minimum.Some? then
       [Some(Shifted(bounds.minimum.value, -1)), bounds.minimum, Some(Shifted(bounds.minimum.value, 1))]
     else [])
    + (if bounds.maximum.Some? then [Some(Shifted(bounds.maximum.value, 1)), bounds.maximum] else [])
    + [Some(Whole(0)), Some(Whole(1)), Some(Whole(-1))] + siblings
  }

  /** The candidates in order, each once. */
  method CandidateValues(bounds: Bounds, siblings: seq<Stored>) returns (ordered: seq<Stored>)
    ensures forall c :: c in ordered <==> c in AllCandidates(bounds, siblings)
    ensures forall i, j :: 0 <= i < j < |ordered| ==> ordered[i] != ordered[j]
  {
    hide AllCandidates;
    var candidates := AllCandidates(bounds, siblings);
    ordered := [];
    for i := 0 to |candidates|
      invariant forall c :: c in ordered <==> c in candidates[..i]
      invariant forall j, k :: 0 <= j < k < |ordered| ==> ordered[j] != ordered[k]
    {
      assert candidates[..i + 1] == candidates[..i] + [candidates[i]];
      if candidates[i] !in ordered {
        ordered := ordered + [candidates[i]];
      }
    }
    assert candidates[..|candidates|] == candidates;
  }

  /** What the references other than the one at `at` currently hold. */
  function Siblings(refs: seq<Expr>, at: nat, params: Values): seq<Stored>
    requires forall r :: r in refs ==> r.FieldRef?
  {
    if refs == [] then []
    else
      var last := |refs| - 1;
      assert forall r :: r in refs[..last] ==> r in refs;
      Siblings(refs[..last], at, params)
      + (if last != at && CurrentValue(refs[last], params).Some? then [CurrentValue(refs[last], params).value] else [])
  }

  // ----- the found search -----

  /** Replacing the scalar of this reference by this value makes the predicate fail. */
  ghost predicate Witnesses(guard: Guard, index: nat, refs: seq<Expr>, at: nat, params: Values, specs: Specs, value: Stored)
    requires GuardShaped(guard) && forall r :: r in refs ==> r.FieldRef?
  {
    && at < |refs| && SpecFor(refs[at], specs).Some?
    && value in AllCandidates(SpecFor(refs[at], specs).value, Siblings(refs, at, params))
    && WithValue(refs[at], params, value).Some?
    && index in FailingIndexes(guard, WithValue(refs[at], params, value).value)
  }

  ghost predicate Witnessable(guard: Guard, index: nat, params: Values, specs: Specs)
    requires GuardShaped(guard) && index < |guard|
  {
    exists at: nat, value: Stored :: Witnesses(guard, index, PredicateRefs(guard[index]), at, params, specs, value)
  }

  /** One reference: the first candidate that makes the predicate fail. */
  method SearchReference(guard: Guard, index: nat, refs: seq<Expr>, at: nat, params: Values, specs: Specs)
    returns (found: Option<Values>, ghost value: Stored)
    requires GuardShaped(guard) && at < |refs| && forall r :: r in refs ==> r.FieldRef?
    ensures found.Some? ==>
              Witnesses(guard, index, refs, at, params, specs, value)
              && found == WithValue(refs[at], params, value)
    ensures found.None? ==> forall v: Stored :: !Witnesses(guard, index, refs, at, params, specs, v)
  {
    hide FailingIndexes, WithValue, AllCandidates, Siblings, SpecFor;
    value := None;
    var ref := refs[at];
    var spec := SpecFor(ref, specs);
    if spec.None? {
      return None, None;
    }
    var candidates := CandidateValues(spec.value, Siblings(refs, at, params));
    for i := 0 to |candidates|
      invariant forall j :: 0 <= j < i ==> !Witnesses(guard, index, refs, at, params, specs, candidates[j])
    {
      assert candidates[i] in candidates;
      var mutated := WithValue(ref, params, candidates[i]);
      if mutated.Some? && index in FailingIndexes(guard, mutated.value) {
        return mutated, candidates[i];
      }
    }
    return None, None;
  }

  method FindWitness(guard: Guard, index: nat, params: Values, specs: Specs)
    returns (found: Option<Values>, ghost at: nat, ghost value: Stored)
    requires GuardShaped(guard) && index < |guard|
    ensures found.Some? <==> Witnessable(guard, index, params, specs)
    ensures found.Some? ==>
              Witnesses(guard, index, PredicateRefs(guard[index]), at, params, specs, value)
              && found == WithValue(PredicateRefs(guard[index])[at], params, value)
  {
    hide Witnesses, PredicateRefs;
    at, value := 0, None;
    var refs := PredicateRefs(guard[index]);
    for i := 0 to |refs|
      invariant forall j: nat, v: Stored :: j < i ==> !Witnesses(guard, index, refs, j, params, specs, v)
    {
      found, value := SearchReference(guard, index, refs, i, params, specs);
      if found.Some? {
        at := i;
        return;
      }
    }
    found := None;
    forall j: nat, v: Stored
      ensures !Witnesses(guard, index, refs, j, params, specs, v)
    {
      if j >= |refs| {
        OnlyListedReferences(guard, index, refs, j, params, specs, v);
      }
    }
  }

  lemma OnlyListedReferences(guard: Guard, index: nat, refs: seq<Expr>, at: nat, params: Values, specs: Specs, v: Stored)
    requires GuardShaped(guard) && (forall r :: r in refs ==> r.FieldRef?) && at >= |refs|
    ensures !Witnesses(guard, index, refs, at, params, specs, v)
  {
  }

  // ----- adding witnesses to the fixtures -----

  datatype Kind = PositiveFixture | NegativeFixture | BoundaryFixture

  datatype Fixture = Fixture(kind: Kind, accept: bool, mutated: bool, observation: Option<string>, params: Values)

  function Mutated(params: Values): Fixture {
    Fixture(NegativeFixture, false, true, None, params)
  }

  /** The predicates some rejecting fixture fails on. */
  function Covered(guard: Guard, fixtures: seq<Fixture>): set<nat>
    requires GuardShaped(guard)
  {
    if fixtures == [] then {}
    else
      var last := fixtures[|fixtures| - 1];
      Covered(guard, fixtures[..|fixtures| - 1]) + (if last.accept then {} else FailingIndexes(guard, last.params))
  }

  function FirstBase(fixtures: seq<Fixture>): Option<Fixture> {
    if fixtures == [] then None
    else if fixtures[0].kind.PositiveFixture? && fixtures[0].accept then Some(fixtures[0])
    else FirstBase(fixtures[1..])
  }

  ghost predicate Compiles(guard: Guard, contract: FieldContract) {
    forall i, j :: 0 <= i < |guard| && 0 <= j < |Expressions(guard[i])| ==>
                     Accepted(Expressions(guard[i])[j], 0, 0, contract)
  }

  method CompileGuard(guard: Guard, contract: FieldContract) returns (compiles: bool)
    requires GuardShaped(guard)
    ensures compiles <==> Compiles(guard, contract)
  {
    hide Accepted;
    for i := 0 to |guard|
      invariant forall a, j :: 0 <= a < i && 0 <= j < |Expressions(guard[a])| ==>
                                 Accepted(Expressions(guard[a])[j], 0, 0, contract)
    {
      assert WellShaped(guard[i]);
      var es := Expressions(guard[i]);
      for j := 0 to |es|
        invariant forall b :: 0 <= b < j ==> Accepted(es[b], 0, 0, contract)
      {
        var r := CompileExpression(es[j], contract);
        if r.Err? {
          return false;
        }
      }
    }
    return true;
  }

  /** A fixture made for one predicate: it fails there, and is the base with a
      single scalar that predicate reads replaced. */
  ghost predicate MadeFor(guard: Guard, base: Values, f: Fixture, index: nat)
    requires GuardShaped(guard)
  {
    && index < |guard| && f == Mutated(f.params)
    && index in FailingIndexes(guard, f.params) && CheckPredicate(guard[index], f.params) == Ok(false)
    && exists at: nat, value: Stored ::
         && at < |PredicateRefs(guard[index])|
         && DiffersOnlyAt(PredicateRefs(guard[index])[at], base, f.params, value)
  }

  ghost predicate MadeForSome(guard: Guard, base: Values, f: Fixture)
    requires GuardShaped(guard)
  {
    exists index: nat :: MadeFor(guard, base, f, index)
  }

  /** The search result for one predicate as a fixture. */
  method WitnessFixture(guard: Guard, index: nat, base: Values, specs: Specs) returns (f: Option<Fixture>)
    requires GuardShaped(guard) && index < |guard|
    ensures f.Some? <==> Witnessable(guard, index, base, specs)
    ensures f.Some? ==> MadeFor(guard, base, f.value, index)
  {
    hide FailingIndexes, WithValue, DiffersOnlyAt, PredicateRefs, CheckPredicate, WellShaped;
    ghost var at: nat, value: Stored;
    var found: Option<Values>;
    found, at, value := FindWitness(guard, index, base, specs);
    if found.None? {
      return None;
    }
    WithValueChangesOne(PredicateRefs(guard[index])[at], base, value);
    FailingMeansFalse(guard, found.value, index);
    return Some(Mutated(found.value));
  }

  /** One rejecting fixture per predicate that has none and can be witnessed. */
  method AddWitnesses(guard: Guard, fixtures: seq<Fixture>, base: Values, specs: Specs) returns (added: seq<Fixture>)
    requires GuardShaped(guard)
    ensures forall k :: 0 <= k < |added| ==> MadeForSome(guard, base, added[k])
    ensures forall i: nat :: i < |guard| && i !in Covered(guard, fixtures + added) ==> !Witnessable(guard, i, base, specs)
  {
    hide FailingIndexes, MadeFor, MadeForSome, Witnessable;
    var covered := Covered(guard, fixtures);
    added := [];
    assert fixtures + [] == fixtures;
    for index := 0 to |guard|
      invariant covered == Covered(guard, fixtures + added)
      invariant forall k :: 0 <= k < |added| ==> MadeForSome(guard, base, added[k])
      invariant forall i: nat :: i < index && i !in covered ==> !Witnessable(guard, i, base, specs)
    {
      if index !in covered {
        var f := WitnessFixture(guard, index, base, specs);
        if f.Some? {
          ghost var before := fixtures + added;
          MadeForCovers(guard, base, f.value, index);
          assert fixtures + (added + [f.value]) == before + [f.value];
          assert (before + [f.value])[..|before|] == before;
          added := added + [f.value];
          covered := covered + FailingIndexes(guard, f.value.params);
        }
      }
    }
  }

  lemma MadeForCovers(guard: Guard, base: Values, f: Fixture, index: nat)
    requires GuardShaped(guard) && MadeFor(guard, base, f, index)
    ensures !f.accept && index in FailingIndexes(guard, f.params) && MadeForSome(guard, base, f)
  {
  }

  /** The fixtures a draft is validated with. The given ones stay in front; each
      added one is built from the first accepted positive fixture for a predicate
      it really fails, changing a single scalar; and with a compiling guard and
      such a base, whatever stays uncovered has no witness in the whole search. */
  method EnsureGuardPredicateWitnesses(guard: Guard, contract: FieldContract, specs: Specs, fixtures: seq<Fixture>)
    returns (result: seq<Fixture>)
    requires GuardShaped(guard)
    ensures fixtures <= result
    ensures !Compiles(guard, contract) || FirstBase(fixtures).None? ==> result == fixtures
    ensures Compiles(guard, contract) && FirstBase(fixtures).Some? ==>
              var base := FirstBase(fixtures).value.params;
              && (forall k :: |fixtures| <= k < |result| ==> MadeForSome(guard, base, result[k]))
              && forall i: nat :: i < |guard| && i !in Covered(guard, result) ==> !Witnessable(guard, i, base, specs)
  {
    hide *;
    var compiles := CompileGuard(guard, contract);
    if !compiles {
      return fixtures;
    }
    var base := FirstBase(fixtures);
    if base.None? {
      return fixtures;
    }
    var added := AddWitnesses(guard, fixtures, base.value.params, specs);
    result := fixtures + added;
    forall k | |fixtures| <= k < |result|
      ensures MadeForSome(guard, base.value.params, result[k])
    {
      assert result[k] == added[k - |fixtures|];
    }
  }

  // ----- the coverage gate -----

  /** What validating one fixture reports: whether it behaved as expected, and the
      predicates it fails on when it is meant to reject. */
  datatype CheckResult = CheckResult(passed: bool, failed: set<nat>)

  /** The parts of a draft seen only from outside: which records its params model
      accepts, and whether a fixture's numbers are on its slide. */
  datatype Model = Model(accepts: Values -> bool, grounded: Fixture -> bool)

  /** The outcome is the expected one, and an accepted positive fixture with an
      observation is grounded in it. */
  predicate Behaves(model: Model, f: Fixture) {
    && model.accepts(f.params) == f.accept
    && (f.accept && f.kind.PositiveFixture? && f.observation.Some? ==> model.grounded(f))
  }

  /** The params model runs the guard: it accepts nothing the guard fails on. */
  ghost predicate GuardsItself(guard: Guard, model: Model)
    requires GuardShaped(guard)
  {
    forall v: Values :: FailingIndexes(guard, v) != {} ==> !model.accepts(v)
  }

  /** Under such a model a fixture made for a predicate rejects as it should. */
  lemma WitnessBehaves(guard: Guard, model: Model, base: Values, f: Fixture)
    requires GuardShaped(guard) && GuardsItself(guard, model) && MadeForSome(guard, base, f)
    ensures Behaves(model, f)
  {
    hide FailingIndexes, DiffersOnlyAt, PredicateRefs, CheckPredicate, WellShaped;
    var index: nat :| MadeFor(guard, base, f, index);
    assert FailingIndexes(guard, f.params) != {};
  }

  datatype GateError = FixtureFailed(at: nat) | CoverageIncomplete(missing: set<nat>)

  function Reported(results: seq<CheckResult>): set<nat> {
    if results == [] then {} else Reported(results[..|results| - 1]) + results[|results| - 1].failed
  }

  lemma ReportedSnoc(results: seq<CheckResult>, last: CheckResult)
    ensures Reported(results + [last]) == Reported(results) + last.failed
  {
    assert (results + [last])[..|results|] == results;
  }

  lemma CoveredAt(guard: Guard, fixtures: seq<Fixture>, i: nat)
    requires GuardShaped(guard) && i < |fixtures|
    ensures Covered(guard, fixtures[..i + 1])
         == Covered(guard, fixtures[..i]) + (if fixtures[i].accept then {} else FailingIndexes(guard, fixtures[i].params))
  {
    assert fixtures[..i + 1][..i] == fixtures[..i];
  }

  ghost predicate AllReported(guard: Guard, reported: set<nat>) {
    forall i: nat :: i < |guard| ==> i in reported
  }

  lemma MissingIsUnreported(guard: Guard, reported: set<nat>, missing: set<nat>)
    requires forall i: nat :: i in missing <==> i < |guard| && i !in reported
    ensures missing == {} <==> AllReported(guard, reported)
  {
    if AllReported(guard, reported) {
      assert forall i: nat :: i !in missing;
    }
  }

  method ValidateFixtures(guard: Guard, fixtures: seq<Fixture>, model: Model)
    returns (results: seq<CheckResult>)
    requires GuardShaped(guard)
    ensures |results| == |fixtures|
    ensures forall i :: 0 <= i < |results| ==> results[i].passed == Behaves(model, fixtures[i])
    ensures forall i :: 0 <= i < |results| ==>
                          var f := fixtures[i];
                          results[i].passed <==>
                          if f.accept
                          then model.accepts(f.params)
                               && (f.kind == PositiveFixture && f.observation != None ==> model.grounded(f))
                          else !model.accepts(f.params)
    ensures forall i :: 0 <= i < |results| ==>
                          results[i].failed == if fixtures[i].accept then {} else FailingIndexes(guard, fixtures[i].params)
    ensures Reported(results) == Covered(guard, fixtures)
  {
    hide FailingIndexes;
    results := [];
    assert Reported([]) == Covered(guard, fixtures[..0]);
    for i := 0 to |fixtures|
      invariant |results| == i && Reported(results) == Covered(guard, fixtures[..i])
      invariant forall j :: 0 <= j < i ==> results[j].passed == Behaves(model, fixtures[j])
      invariant forall j :: 0 <= j < i ==>
                              results[j].failed == if fixtures[j].accept then {} else FailingIndexes(guard, fixtures[j].params)
    {
      hide Reported, Covered;
      var failed := if fixtures[i].accept then {} else FailingIndexes(guard, fixtures[i].params);
      var result := CheckResult(Behaves(model, fixtures[i]), failed);
      ReportedSnoc(results, result);
      CoveredAt(guard, fixtures, i);
      results := results + [result];
    }
    assert fixtures[..|fixtures|] == fixtures;
  }

  /** The first misbehaving fixture, or else the predicates nothing rejects on. */
  method RequireAllFixturesAndGuardCoverage(guard: Guard, results: seq<CheckResult>) returns (error: Option<GateError>)
    ensures error.None? <==>
            (forall k :: 0 <= k < |results| ==> results[k].passed)
            && AllReported(guard, Reported(results))
    ensures error.Some? && error.value.FixtureFailed? ==>
              error.value.at < |results| && !results[error.value.at].passed
              && forall k :: 0 <= k < error.value.at ==> results[k].passed
    ensures error.Some? && error.value.CoverageIncomplete? ==>
              (forall k :: 0 <= k < |results| ==> results[k].passed)
              && forall i: nat :: i in error.value.missing <==> i < |guard| && i !in Reported(results)
  {
    for k := 0 to |results|
      invariant forall j :: 0 <= j < k ==> results[j].passed
    {
      if !results[k].passed {
        return Some(FixtureFailed(k));
      }
    }
    var missing := set i: nat | i < |guard| && i !in Reported(results);
    if missing != {} {
      MissingIsUnreported(guard, Reported(results), missing);
      return Some(CoverageIncomplete(missing));
    }
    MissingIsUnreported(guard, Reported(results), missing);
    return None;
  }

  /** Witnesses first, then validation and the gate. With a compiling guard and an
      accepted positive base, coverage can be reported incomplete only for
      predicates on which no fixture rejects and for which the full search over
      references and candidate values finds nothing; and when the params model runs
      the guard, a fixture reported as failing is never one the search added. */
  method CheckWithWitnesses(guard: Guard, contract: FieldContract, specs: Specs, fixtures: seq<Fixture>, model: Model)
    returns (result: seq<Fixture>, error: Option<GateError>)
    requires GuardShaped(guard)
    ensures fixtures <= result
    ensures error.None? <==>
            (forall k :: 0 <= k < |result| ==> Behaves(model, result[k]))
            && AllReported(guard, Covered(guard, result))
    ensures error.Some? && error.value.CoverageIncomplete? ==>
              forall i: nat :: i in error.value.missing <==> i < |guard| && i !in Covered(guard, result)
    ensures error.Some? && error.value.CoverageIncomplete? && Compiles(guard, contract) && FirstBase(fixtures).Some? ==>
              forall i: nat :: i in error.value.missing ==>
                                 i < |guard| && !Witnessable(guard, i, FirstBase(fixtures).value.params, specs)
    ensures GuardsItself(guard, model) && error.Some? && error.value.FixtureFailed? ==> error.value.at < |fixtures|
  {
    hide *;
    result := EnsureGuardPredicateWitnesses(guard, contract, specs, fixtures);
    var results := ValidateFixtures(guard, result, model);
    error := RequireAllFixturesAndGuardCoverage(guard, results);
    if (GuardsItself(guard, model) && error.Some? && error.value.FixtureFailed? && |fixtures| <= error.value.at) {
      WitnessBehaves(guard, model, FirstBase(fixtures).value.params, result[error.value.at]);
      assert false;
    }
  }

  // ----- a predicate the search never misses -----

  /** A positivity predicate on a bounded scalar field is always witnessed, as long
      as the guard still evaluates with that field at zero. */
  lemma PositiveFieldWitnessed(guard: Guard, index: nat, field: string, params: Values, specs: Specs)
    requires GuardShaped(guard) && index < |guard| && guard[index] == Positive(FieldRef(field, None, None))
    requires field in specs && specs[field].Single?
    requires Verdicts(guard, params[field := Number(Some(Whole(0)))]).Ok?
    ensures Witnessable(guard, index, params, specs)
  {
    var ref := FieldRef(field, None, None);
    OnlyReference(guard[index], ref);
    ZeroFails(guard, index, field, params);
    ZeroIsTried(specs[field].bounds, Siblings([ref], 0, params));
    hide FailingIndexes, AllCandidates, Siblings, PredicateRefs, Verdicts, Whole, WellShaped, Expressions;
    assert WithValue(ref, params, Some(Whole(0))) == Some(params[field := Number(Some(Whole(0)))]);
    assert Witnesses(guard, index, PredicateRefs(guard[index]), 0, params, specs, Some(Whole(0)));
  }

  lemma OnlyReference(p: Predicate, ref: Expr)
    requires p == Positive(ref) && ref.FieldRef?
    ensures PredicateRefs(p) == [ref]
  {
    assert [ref][1..] == [] && RefsOfAll([]) == [];
    assert RefsOf(ref) == [ref];
    assert RefsOfAll([ref]) == [ref] + [];
  }

  lemma ZeroFails(guard: Guard, index: nat, field: string, params: Values)
    requires GuardShaped(guard) && index < |guard| && guard[index] == Positive(FieldRef(field, None, None))
    requires Verdicts(guard, params[field := Number(Some(Whole(0)))]).Ok?
    ensures index in FailingIndexes(guard, params[field := Number(Some(Whole(0)))])
  {
    var zeroed := params[field := Number(Some(Whole(0)))];
    VerdictAt(guard, zeroed, index);
    ZeroIsNotPositive(field, zeroed);
    hide Verdicts, CheckPredicate, WellShaped, Whole;
  }

  lemma ZeroIsNotPositive(field: string, values: Values)
    requires field in values && values[field] == Number(Some(Whole(0)))
    ensures CheckPredicate(Positive(FieldRef(field, None, None)), values) == Ok(false)
  {
  }

  lemma ZeroIsTried(bounds: Bounds, siblings: seq<Stored>)
    ensures Some(Whole(0)) in AllCandidates(bounds, siblings)
  {
  }
}
