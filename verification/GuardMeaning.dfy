/** What each guard predicate says of the values of its own expressions. */
module GuardMeaning {
  import opened Outcomes
  import opened DecimalFormat
  import opened Expression
  import opened GuardWitness

  /** The value of an expression where it has one. */
  function ValueOf(e: Expr, values: Values): real {
    if Schema(e) && Evaluate(e, values).Ok? then Evaluate(e, values).value else 0.0
  }

  ghost predicate AddsUp(es: seq<Expr>, values: Values, sums: seq<real>, total: real) {
    && |sums| == |es| + 1 && sums[0] == 0.0 && sums[|es|] == total
    && forall i | 0 <= i < |es| :: sums[i + 1] == sums[i] + ValueOf(es[i], values)
  }

  function Multiplied(x: real, y: real): real {
    x * y
  }

  ghost predicate MultipliesUp(es: seq<Expr>, values: Values, products: seq<real>, total: real) {
    && |products| == |es| + 1 && products[0] == 1.0 && products[|es|] == total
    && forall i | 0 <= i < |es| :: products[i + 1] == Multiplied(products[i], ValueOf(es[i], values))
  }

  predicate Follows(direction: Direction, a: real, b: real) {
    && (direction.StrictlyIncreasing? ==> b > a)
    && (direction.StrictlyDecreasing? ==> b < a)
    && (direction.NonDecreasing? ==> b >= a)
    && (direction.NonIncreasing? ==> b <= a)
  }

  predicate IsMultiple(x: real, y: real, k: int) {
    x == k as real * y
  }

  /** A sum or product is that of all terms in turn, divisibility means an integral
      quotient, and an order holds between any two terms, not only neighbours. */
  ghost predicate Says(p: Predicate, values: Values) {
    match p
    case Range(value, minimum, maximum) =>
      ValueOf(minimum, values) <= ValueOf(value, values) && ValueOf(value, values) <= ValueOf(maximum, values)
    case Positive(value) => ValueOf(value, values) > 0.0
    case Equals(left, right) => ValueOf(left, values) == ValueOf(right, values)
    case NotEquals(left, right) => ValueOf(left, values) != ValueOf(right, values)
    case SumEquals(terms, total) => exists sums :: AddsUp(terms, values, sums, ValueOf(total, values))
    case ProductEquals(factors, total) => exists products :: MultipliesUp(factors, values, products, ValueOf(total, values))
    case DivisibleBy(value, divisor) => exists k :: IsMultiple(ValueOf(value, values), ValueOf(divisor, values), k)
    case Ordered(terms, direction) =>
      forall i, j :: 0 <= i < j < |terms| ==> Follows(direction, ValueOf(terms[i], values), ValueOf(terms[j], values))
  }

  // ----- sums and products -----

  ghost predicate AreValues(es: seq<Expr>, values: Values, xs: seq<real>) {
    |xs| == |es| && forall i | 0 <= i < |es| :: xs[i] == ValueOf(es[i], values)
  }

  lemma {:induction false} SumOfValues(es: seq<Expr>, values: Values, xs: seq<real>, sums: seq<real>, total: real)
    requires AreValues(es, values, xs) && AddsUp(es, values, sums, total)
    ensures Sum(xs) == total
    decreases |es|
  {
    if es != [] {
      var n := |es| - 1;
      SumOfValues(es[..n], values, xs[..n], sums[..n + 1], sums[n]);
    }
  }

  lemma {:induction false} RunningSums(es: seq<Expr>, values: Values, xs: seq<real>) returns (sums: seq<real>)
    requires AreValues(es, values, xs)
    ensures AddsUp(es, values, sums, Sum(xs))
    decreases |es|
  {
    sums := [0.0];
    if es != [] {
      var n := |es| - 1;
      sums := RunningSums(es[..n], values, xs[..n]);
      sums := sums + [Sum(xs)];
    }
  }

  lemma ProductSnoc(xs: seq<real>)
    requires xs != []
    ensures Product(xs) == Multiplied(Product(xs[..|xs| - 1]), xs[|xs| - 1])
  {
  }

  lemma {:induction false} ProductOfValues(es: seq<Expr>, values: Values, xs: seq<real>, products: seq<real>, total: real)
    requires AreValues(es, values, xs) && MultipliesUp(es, values, products, total)
    ensures Product(xs) == total
    decreases |es|
  {
    if es != [] {
      var n := |es| - 1;
      ProductSnoc(xs);
      hide Product, Multiplied, ValueOf;
      ProductOfValues(es[..n], values, xs[..n], products[..n + 1], products[n]);
    }
  }

  lemma MultipliesNext(es: seq<Expr>, values: Values, products: seq<real>, total: real)
    requires es != [] && MultipliesUp(es[..|es| - 1], values, products, total)
    ensures
      var all := Multiplied(total, ValueOf(es[|es| - 1], values));
      MultipliesUp(es, values, products + [all], all)
  {
    hide Multiplied, ValueOf;
  }

  lemma {:induction false} RunningProducts(es: seq<Expr>, values: Values, xs: seq<real>) returns (products: seq<real>)
    requires AreValues(es, values, xs)
    ensures MultipliesUp(es, values, products, Product(xs))
    decreases |es|
  {
    products := [1.0];
    if es != [] {
      var n := |es| - 1;
      ProductSnoc(xs);
      products := RunningProducts(es[..n], values, xs[..n]);
      hide Product, Multiplied, ValueOf;
      MultipliesNext(es, values, products, Product(xs[..n]));
      products := products + [Product(xs)];
    }
  }

  // ----- order and divisibility -----

  lemma {:induction false} OrderReaches(direction: Direction, xs: seq<real>, i: nat, j: nat)
    requires i < j < |xs| && forall k | 0 <= k < |xs| - 1 :: InOrder(direction, xs[k], xs[k + 1])
    ensures Follows(direction, xs[i], xs[j])
    decreases j - i
  {
    assert InOrder(direction, xs[j - 1], xs[j - 1 + 1]);
    if i < j - 1 {
      OrderReaches(direction, xs, i, j - 1);
    }
  }

  lemma OrderIff(direction: Direction, xs: seq<real>)
    ensures (forall k | 0 <= k < |xs| - 1 :: InOrder(direction, xs[k], xs[k + 1]))
       <==> forall i, j :: 0 <= i < j < |xs| ==> Follows(direction, xs[i], xs[j])
  {
    if forall k | 0 <= k < |xs| - 1 :: InOrder(direction, xs[k], xs[k + 1]) {
      forall i, j | 0 <= i < j < |xs|
        ensures Follows(direction, xs[i], xs[j])
      {
        OrderReaches(direction, xs, i, j);
      }
    }
    if forall i, j :: 0 <= i < j < |xs| ==> Follows(direction, xs[i], xs[j]) {
      forall k | 0 <= k < |xs| - 1
        ensures InOrder(direction, xs[k], xs[k + 1])
      {
        assert Follows(direction, xs[k], xs[k + 1]);
      }
    }
  }

  lemma IntegralQuotient(x: real, y: real)
    requires y != 0.0
    ensures (x / y).Floor as real == x / y <==> exists k :: IsMultiple(x, y, k)
  {
    if (x / y).Floor as real == x / y {
      assert IsMultiple(x, y, (x / y).Floor);
    }
    if k :| IsMultiple(x, y, k) {
      assert x / y == k as real;
    }
  }

  // ----- main result -----

  /** Where all its expressions have values, a predicate's verdict is what it says of
      them, and only a zero divisor leaves it without one; where some has none, the
      first error is reported. */
  lemma VerdictMeans(p: Predicate, values: Values)
    requires WellShaped(p)
    ensures
      var es := Expressions(p);
      if forall i | 0 <= i < |es| :: Evaluate(es[i], values).Ok?
      then
        CheckPredicate(p, values)
        == if p.DivisibleBy? && ValueOf(p.divisor, values) == 0.0 then Err(DivideByZero) else Ok(Says(p, values))
      else exists i | 0 <= i < |es| ::
          && CheckPredicate(p, values).Err? && Evaluate(es[i], values) == Err(CheckPredicate(p, values).error)
          && forall j | 0 <= j < i :: Evaluate(es[j], values).Ok?
  {
    var es := Expressions(p);
    if forall i | 0 <= i < |es| :: Evaluate(es[i], values).Ok? {
      EvaluateEach(es, values);
      VerdictSays(p, values, EvaluateAll(es, values).value);
    } else {
      var i := FirstError(es, values);
      FirstErrorReported(es, values, i);
    }
  }

  lemma {:induction false} FirstError(es: seq<Expr>, values: Values) returns (i: nat)
    requires forall j | 0 <= j < |es| :: Schema(es[j])
    requires exists j | 0 <= j < |es| :: Evaluate(es[j], values).Err?
    ensures i < |es| && Evaluate(es[i], values).Err? && forall j | 0 <= j < i :: Evaluate(es[j], values).Ok?
    decreases |es|
  {
    var n := |es| - 1;
    if exists j | 0 <= j < n :: Evaluate(es[j], values).Err? {
      var j :| 0 <= j < n && Evaluate(es[j], values).Err?;
      assert es[..n][j] == es[j];
      i := FirstError(es[..n], values);
      assert forall j | 0 <= j < n :: es[..n][j] == es[j];
    } else {
      i := n;
    }
  }

  lemma EvaluateEach(es: seq<Expr>, values: Values)
    requires forall i | 0 <= i < |es| :: Schema(es[i]) && Evaluate(es[i], values).Ok?
    ensures EvaluateAll(es, values).Ok? && AreValues(es, values, EvaluateAll(es, values).value)
  {
    hide Evaluate, Schema;
  }

  lemma VerdictSays(p: Predicate, values: Values, xs: seq<real>)
    requires AreValues(Expressions(p), values, xs)
    ensures Holds(p, xs)
         == if p.DivisibleBy? && ValueOf(p.divisor, values) == 0.0 then Err(DivideByZero) else Ok(Says(p, values))
  {
    hide ValueOf, AddsUp, MultipliesUp, IsMultiple, Follows, InOrder, Sum, Product;
    var n := |xs| - 1;
    match p
    case SumEquals(terms, total) => {
      TotalLast(terms, total, values, xs);
      var sums := RunningSums(terms, values, xs[..n]);
      forall sums | AddsUp(terms, values, sums, xs[n])
        ensures Sum(xs[..n]) == xs[n]
      {
        SumOfValues(terms, values, xs[..n], sums, xs[n]);
      }
    }
    case ProductEquals(factors, total) => {
      TotalLast(factors, total, values, xs);
      var products := RunningProducts(factors, values, xs[..n]);
      forall products | MultipliesUp(factors, values, products, xs[n])
        ensures Product(xs[..n]) == xs[n]
      {
        ProductOfValues(factors, values, xs[..n], products, xs[n]);
      }
    }
    case DivisibleBy(_, _) => {
      if xs[1] != 0.0 {
        IntegralQuotient(xs[0], xs[1]);
      }
    }
    case Ordered(terms, direction) => OrderIff(direction, xs);
    case _ =>
  }

  lemma TotalLast(es: seq<Expr>, total: Expr, values: Values, xs: seq<real>)
    requires AreValues(es + [total], values, xs)
    ensures |xs| == |es| + 1 && AreValues(es, values, xs[..|es|]) && xs[|es|] == ValueOf(total, values)
  {
    hide ValueOf;
    var all := es + [total];
    assert forall i | 0 <= i < |es| :: es[i] == all[i];
    assert all[|es|] == total;
  }

  // ----- what the search works with -----

  /** A fixture fails on a predicate when every predicate evaluates and this one is
      false. */
  lemma FailingIff(guard: Guard, values: Values, i: nat)
    requires GuardShaped(guard)
    ensures i in FailingIndexes(guard, values) <==>
            && (forall j | 0 <= j < |guard| :: CheckPredicate(guard[j], values).Ok?)
            && i < |guard| && CheckPredicate(guard[i], values) == Ok(false)
  {
    hide CheckPredicate;
    if Verdicts(guard, values).Ok? {
      forall j: nat | j < |guard|
        ensures CheckPredicate(guard[j], values) == Ok(Verdicts(guard, values).value[j])
      {
        VerdictAt(guard, values, j);
      }
    } else {
      var j := FailsToEvaluate(guard, values);
    }
  }

  lemma {:induction false} FailsToEvaluate(guard: Guard, values: Values) returns (j: nat)
    requires GuardShaped(guard) && Verdicts(guard, values).Err?
    ensures j < |guard| && CheckPredicate(guard[j], values).Err?
    decreases |guard|
  {
    hide CheckPredicate;
    var n := |guard| - 1;
    if Verdicts(guard[..n], values).Err? {
      j := FailsToEvaluate(guard[..n], values);
    } else {
      j := n;
    }
  }

  /** A predicate is covered when some fixture meant to be rejected fails on it. */
  lemma {:induction false} CoveredIff(guard: Guard, fixtures: seq<Fixture>, i: nat)
    requires GuardShaped(guard)
    ensures i in Covered(guard, fixtures) <==>
            exists k :: 0 <= k < |fixtures| && !fixtures[k].accept && i in FailingIndexes(guard, fixtures[k].params)
    decreases |fixtures|
  {
    hide FailingIndexes;
    if fixtures != [] {
      var n := |fixtures| - 1;
      CoveredIff(guard, fixtures[..n], i);
      assert forall k :: 0 <= k < n ==> fixtures[..n][k] == fixtures[k];
    }
  }

  /** The base is the first positive fixture that is accepted. */
  lemma {:induction false} BaseIsFirst(fixtures: seq<Fixture>)
    ensures
      var base := FirstBase(fixtures);
      if base.None? then forall k :: 0 <= k < |fixtures| ==> !(fixtures[k].kind == PositiveFixture && fixtures[k].accept)
      else exists k :: 0 <= k < |fixtures| && fixtures[k] == base.value && base.value.kind == PositiveFixture && base.value.accept
                       && forall j :: 0 <= j < k ==> !(fixtures[j].kind == PositiveFixture && fixtures[j].accept)
    decreases |fixtures|
  {
    if fixtures != [] && !(fixtures[0].kind == PositiveFixture && fixtures[0].accept) {
      BaseIsFirst(fixtures[1..]);
      assert forall j :: 0 < j < |fixtures| ==> fixtures[j] == fixtures[1..][j - 1];
      var base := FirstBase(fixtures[1..]);
      if base.Some? {
        var k :| 0 <= k < |fixtures[1..]| && fixtures[1..][k] == base.value
                 && forall j :: 0 <= j < k ==> !(fixtures[1..][j].kind == PositiveFixture && fixtures[1..][j].accept);
        assert fixtures[k + 1] == base.value;
      }
    }
  }

  /** The values around the bounds and around zero. */
  predicate IsTried(bounds: Bounds, x: real) {
    || x in {0.0, 1.0, -1.0}
    || (bounds.minimum.Some? && x - bounds.minimum.value.Value() in {-1.0, 0.0, 1.0})
    || (bounds.maximum.Some? && x - bounds.maximum.value.Value() in {0.0, 1.0})
  }

  lemma ShiftedValue(q: Rational, k: int)
    ensures Shifted(q, k).Value() == q.Value() + k as real
  {
    var n, d := q.numerator as real, q.denominator as real;
    assert (n + k as real * d) / d == n / d + k as real;
  }

  ghost predicate Among(cs: seq<Stored>, x: real) {
    exists c :: c in cs && c.Some? && c.value.Value() == x
  }

  lemma AmongConcat(a: seq<Stored>, b: seq<Stored>, x: real)
    ensures Among(a + b, x) <==> Among(a, x) || Among(b, x)
    ensures None in a + b <==> None in a || None in b
  {
    if Among(a, x) {
      var c :| c in a && c.Some? && c.value.Value() == x;
      assert c in a + b;
    }
    if Among(b, x) {
      var c :| c in b && c.Some? && c.value.Value() == x;
      assert c in a + b;
    }
  }

  /** Every value around the bounds and zero is tried, and so is what the other
      references hold; nothing else is. */
  lemma CandidatesIff(bounds: Bounds, siblings: seq<Stored>, x: real)
    ensures Among(AllCandidates(bounds, siblings), x) <==> IsTried(bounds, x) || Among(siblings, x)
    ensures None in AllCandidates(bounds, siblings) <==> None in siblings
  {
    var low, high := LowCandidates(bounds), HighCandidates(bounds);
    var zero: seq<Stored> := [Some(Whole(0)), Some(Whole(1)), Some(Whole(-1))];
    assert AllCandidates(bounds, siblings) == low + high + zero + siblings;
    LowTried(bounds, x);
    HighTried(bounds, x);
    ZeroTried(x);
    hide AllCandidates, LowCandidates, HighCandidates, Among, Whole;
    AmongConcat(low, high, x);
    AmongConcat(low + high, zero, x);
    AmongConcat(low + high + zero, siblings, x);
  }

  function LowCandidates(bounds: Bounds): seq<Stored> {
    if bounds.minimum.None? then []
    else [Some(Shifted(bounds.minimum.value, -1)), bounds.minimum, Some(Shifted(bounds.minimum.value, 1))]
  }

  function HighCandidates(bounds: Bounds): seq<Stored> {
    if bounds.maximum.None? then [] else [Some(Shifted(bounds.maximum.value, 1)), bounds.maximum]
  }

  lemma LowTried(bounds: Bounds, x: real)
    ensures Among(LowCandidates(bounds), x) <==>
            bounds.minimum.Some? && x - bounds.minimum.value.Value() in {-1.0, 0.0, 1.0}
    ensures None !in LowCandidates(bounds)
  {
    if bounds.minimum.Some? {
      ShiftedValue(bounds.minimum.value, -1);
      ShiftedValue(bounds.minimum.value, 1);
      hide Shifted;
      var cs := LowCandidates(bounds);
      assert cs[0] in cs && cs[1] in cs && cs[2] in cs;
    }
  }

  lemma HighTried(bounds: Bounds, x: real)
    ensures Among(HighCandidates(bounds), x) <==>
            bounds.maximum.Some? && x - bounds.maximum.value.Value() in {0.0, 1.0}
    ensures None !in HighCandidates(bounds)
  {
    if bounds.maximum.Some? {
      ShiftedValue(bounds.maximum.value, 1);
      hide Shifted;
      var cs := HighCandidates(bounds);
      assert cs[0] in cs && cs[1] in cs;
    }
  }

  lemma ZeroTried(x: real)
    ensures Among([Some(Whole(0)), Some(Whole(1)), Some(Whole(-1))], x) <==> x in {0.0, 1.0, -1.0}
  {
    var cs := [Some(Whole(0)), Some(Whole(1)), Some(Whole(-1))];
    assert cs[0] in cs && cs[1] in cs && cs[2] in cs;
    assert Whole(0).Value() == 0.0 && Whole(1).Value() == 1.0 && Whole(-1).Value() == -1.0;
  }

  /** What the other references hold, wherever they can be read as numbers. */
  lemma SiblingsIff(refs: seq<Expr>, at: nat, params: Values, c: Stored)
    requires forall r :: r in refs ==> r.FieldRef?
    ensures c in Siblings(refs, at, params) <==>
            exists j :: 0 <= j < |refs| && j != at && ReadsRaw(refs[j].field, refs[j].index, refs[j].item, params, Number(c))
  {
    HeldElsewhere(refs, at, params, c);
    hide Siblings, CurrentValue, ReadsRaw;
    forall j | 0 <= j < |refs|
      ensures refs[j].FieldRef?
      ensures CurrentValue(refs[j], params) == Some(c) <==> ReadsRaw(refs[j].field, refs[j].index, refs[j].item, params, Number(c))
    {
      HeldIff(refs[j], params, c);
    }
  }

  lemma {:induction false} HeldElsewhere(refs: seq<Expr>, at: nat, params: Values, c: Stored)
    requires forall r :: r in refs ==> r.FieldRef?
    ensures c in Siblings(refs, at, params) <==>
            exists j :: 0 <= j < |refs| && j != at && CurrentValue(refs[j], params) == Some(c)
    decreases |refs|
  {
    hide CurrentValue;
    if refs != [] {
      var n := |refs| - 1;
      assert forall r :: r in refs[..n] ==> r in refs;
      HeldElsewhere(refs[..n], at, params, c);
      assert forall j :: 0 <= j < n ==> refs[..n][j] == refs[j];
    }
  }

  lemma HeldIff(ref: Expr, params: Values, c: Stored)
    requires ref.FieldRef?
    ensures CurrentValue(ref, params) == Some(c) <==> ReadsRaw(ref.field, ref.index, ref.item, params, Number(c))
  {
  }

  // ----- references -----

  /** The reference stands somewhere in the expression. */
  predicate Mentions(e: Expr, ref: Expr) {
    match e
    case Literal(_) => false
    case FieldRef(_, _, _) => e == ref
    case Node(_, operands) => exists i :: 0 <= i < |operands| && Mentions(operands[i], ref)
  }

  /** The references of the earlier expressions come first. */
  lemma {:induction false} RefsInOrder(es: seq<Expr>, others: seq<Expr>)
    ensures RefsOfAll(es + others) == RefsOfAll(es) + RefsOfAll(others)
    decreases |es|
  {
    hide RefsOf;
    if es == [] {
      assert es + others == others;
    } else {
      assert (es + others)[0] == es[0] && (es + others)[1..] == es[1..] + others;
      RefsInOrder(es[1..], others);
    }
  }

  /** The references of several expressions are exactly those that stand in them. */
  lemma {:induction false} RefsIff(es: seq<Expr>, ref: Expr)
    ensures ref in RefsOfAll(es) <==> exists i :: 0 <= i < |es| && Mentions(es[i], ref)
    decreases es
  {
    if es != [] {
      RefsIff(es[1..], ref);
      RefsIn(es[0], ref);
      hide Mentions, RefsOf;
      if exists i :: 0 <= i < |es[1..]| && Mentions(es[1..][i], ref) {
        var i :| 0 <= i < |es[1..]| && Mentions(es[1..][i], ref);
        assert Mentions(es[i + 1], ref);
      }
      assert forall i :: 0 < i < |es| ==> es[i] == es[1..][i - 1];
    }
  }

  lemma {:induction false} RefsIn(e: Expr, ref: Expr)
    ensures ref in RefsOf(e) <==> Mentions(e, ref)
    decreases e
  {
    if e.Node? {
      RefsIff(e.operands, ref);
    }
  }

  /** The bounds tried for a reference are those of the field it names, or of the named
      member of its entries. */
  lemma BoundsIff(ref: Expr, specs: Specs, bounds: Bounds)
    requires ref.FieldRef?
    ensures SpecFor(ref, specs) == Some(bounds) <==>
            && ref.field in specs
            && ((specs[ref.field] == Single(bounds) && ref.item == None)
                || (ref.item.Some? && specs[ref.field].ArrayOf? && ref.item.value in specs[ref.field].items
                    && specs[ref.field].items[ref.item.value] == bounds))
  {
  }
}
