/** The compile-time gate of the common-denominator lesson: two operand
    partitions, each refined to the common denominator, and a bridge carrying the
    result of the answer's own sum or difference. */
module FractionBridge {
  import opened Collections
  import opened Outcomes
  import opened Arithmetic
  import opened DecimalFormat
  import opened Expression

  type Ref = string

  datatype Partition = Partition(ref: Ref, whole: Expr, parts: Expr, shaded: Expr)

  datatype Visual = Parted(partition: Partition) | OtherVisual(ref: Ref)

  /** A beat, whether it is a focus or derive beat, and the visuals it names. */
  datatype Beat = Beat(walks: bool, targets: seq<Ref>)

  datatype Plan = Plan(primary: Visual, supporting: seq<Visual>, beats: seq<Beat>)

  datatype Refusal =
    | FourPartitionsNeeded | LiteralPartsNeeded | ZeroDivision | WrongDenominator
    | WrongRefinedParts(ref: Ref) | LiteralWholeNeeded(ref: Ref) | DifferentWhole(ref: Ref)
    | LiteralCountsNeeded(ref: Ref) | PositivePartsNeeded(ref: Ref) | ShadedOutOfRange(ref: Ref)
    | RefinedNotEqual(ref: Ref) | NotAdditive | OperandsNotLiteral | OperandsMismatch
    | NegativeDifference | ResultMismatch | NoBridgeBeat

  // ----- reading literals -----

  function LiteralInteger(e: Expr): Option<int> {
    if e.Literal? && e.number.Some? && e.number.value.denominator == 1 then Some(e.number.value.numerator) else None
  }

  function Partitions(visuals: seq<Visual>): seq<Partition> {
    if visuals == [] then []
    else (if visuals[0].Parted? then [visuals[0].partition] else []) + Partitions(visuals[1..])
  }

  /** The partitions among the visuals, each at its place and in document order. */
  ghost predicate Gathers(visuals: seq<Visual>, at: seq<nat>, ps: seq<Partition>) {
    Stand(visuals, at, ps) && CoversParted(visuals, at)
  }

  ghost predicate Stand(visuals: seq<Visual>, at: seq<nat>, ps: seq<Partition>) {
    && Increasing(at) && |at| == |ps|
    && forall k :: 0 <= k < |at| ==> at[k] < |visuals| && visuals[at[k]] == Parted(ps[k])
  }

  ghost predicate CoversParted(visuals: seq<Visual>, at: seq<nat>) {
    forall i: nat :: i in at <==> i < |visuals| && visuals[i].Parted?
  }

  lemma {:induction false} PartitionsGathered(visuals: seq<Visual>) returns (at: seq<nat>)
    ensures Gathers(visuals, at, Partitions(visuals))
  {
    at := [];
    if visuals != [] {
      var v, rest := visuals[0], visuals[1..];
      var later := PartitionsGathered(rest);
      assert visuals == [v] + rest;
      hide Stand, CoversParted;
      StandLater(v, rest, later, Partitions(rest));
      CoversLater(v, rest, later);
      if v.Parted? {
        at := [0] + Shifted(later);
      } else {
        at := Shifted(later);
        assert [] + Partitions(rest) == Partitions(rest);
      }
    }
  }

  lemma StandLater(v: Visual, visuals: seq<Visual>, at: seq<nat>, ps: seq<Partition>)
    requires Stand(visuals, at, ps)
    ensures Stand([v] + visuals, Shifted(at), ps)
    ensures v.Parted? ==> Stand([v] + visuals, [0] + Shifted(at), [v.partition] + ps)
  {
    assert forall k :: 0 <= k < |at| ==> ([v] + visuals)[Shifted(at)[k]] == visuals[at[k]];
    hide Shifted;
  }

  lemma CoversLater(v: Visual, visuals: seq<Visual>, at: seq<nat>)
    requires CoversParted(visuals, at)
    ensures CoversParted([v] + visuals, if v.Parted? then [0] + Shifted(at) else Shifted(at))
  {
    var all, to := [v] + visuals, if v.Parted? then [0] + Shifted(at) else Shifted(at);
    forall i: nat
      ensures i in to <==> i < |all| && all[i].Parted?
    {
      ShiftedMember(at, i);
      hide Shifted;
      if i > 0 {
        assert i in to <==> i in Shifted(at);
      } else {
        assert i in to <==> v.Parted?;
      }
    }
  }

  /** There is only one way to gather them. */
  lemma GathersOnce(visuals: seq<Visual>, at: seq<nat>, ps: seq<Partition>, to: seq<nat>, qs: seq<Partition>)
    requires Gathers(visuals, at, ps) && Gathers(visuals, to, qs)
    ensures at == to && ps == qs
  {
    OneOrder(at, to, (i: nat, j: nat) => i < j);
    forall k | 0 <= k < |ps|
      ensures ps[k] == qs[k]
    {
      assert Parted(ps[k]) == visuals[at[k]] == Parted(qs[k]);
    }
  }

  /** How much of a partition is shaded, as its two counts. */
  datatype Counts = Counts(shaded: int, parts: int)

  function Share(shaded: int, parts: int): real
    requires parts != 0
  {
    shaded as real / parts as real
  }

  function CheckCounts(p: Partition): Result<Counts, Refusal> {
    var parts, shaded := LiteralInteger(p.parts), LiteralInteger(p.shaded);
    if parts.None? || shaded.None? then Err(LiteralCountsNeeded(p.ref))
    else if parts.value <= 0 then Err(PositivePartsNeeded(p.ref))
    else if shaded.value < 0 || shaded.value > parts.value then Err(ShadedOutOfRange(p.ref))
    else Ok(Counts(shaded.value, parts.value))
  }

  function Lcm(a: int, b: int): int
    requires a != 0 || b != 0
  {
    GcdPositive(Abs(a), Abs(b));
    a * b / Gcd(Abs(a), Abs(b))
  }

  function FirstUnreadWhole(ps: seq<Partition>): Option<Refusal> {
    if ps == [] then None
    else if LiteralInteger(ps[0].whole).None? then Some(LiteralWholeNeeded(ps[0].ref))
    else FirstUnreadWhole(ps[1..])
  }

  function FirstOtherWhole(ps: seq<Partition>, whole: Option<int>): Option<Refusal> {
    if ps == [] then None
    else if LiteralInteger(ps[0].whole) != whole then Some(DifferentWhole(ps[0].ref))
    else FirstOtherWhole(ps[1..], whole)
  }

  /** Every whole must be read before any two are compared. */
  function WholeRefusal(ps: seq<Partition>): Option<Refusal>
    requires ps != []
  {
    var unread := FirstUnreadWhole(ps);
    if unread.Some? then unread else FirstOtherWhole(ps[1..], LiteralInteger(ps[0].whole))
  }

  method RequireSameWhole(ps: seq<Partition>) returns (refusal: Option<Refusal>)
    requires ps != []
    ensures refusal == WholeRefusal(ps)
    ensures refusal.None? <==>
            LiteralInteger(ps[0].whole).Some?
            && forall p :: p in ps ==> LiteralInteger(p.whole) == LiteralInteger(ps[0].whole)
  {
    var i := 0;
    while i < |ps|
      invariant 0 <= i <= |ps|
      invariant FirstUnreadWhole(ps) == FirstUnreadWhole(ps[i..])
      invariant forall p :: p in ps[..i] ==> LiteralInteger(p.whole).Some?
    {
      assert ps[i..][1..] == ps[i + 1..];
      if LiteralInteger(ps[i].whole).None? {
        assert ps[i] in ps && ps[0] in ps;
        return Some(LiteralWholeNeeded(ps[i].ref));
      }
      assert ps[..i + 1] == ps[..i] + [ps[i]];
      i := i + 1;
    }
    assert ps[..i] == ps && ps[0] in ps;
    var reference := LiteralInteger(ps[0].whole);
    i := 1;
    while i < |ps|
      invariant 1 <= i <= |ps|
      invariant FirstOtherWhole(ps[1..], reference) == FirstOtherWhole(ps[i..], reference)
      invariant forall p :: p in ps[..i] ==> LiteralInteger(p.whole) == reference
    {
      assert ps[i..][1..] == ps[i + 1..];
      if LiteralInteger(ps[i].whole) != reference {
        assert ps[i] in ps;
        return Some(DifferentWhole(ps[i].ref));
      }
      assert ps[..i + 1] == ps[..i] + [ps[i]];
      i := i + 1;
    }
    assert ps[..i] == ps;
    return None;
  }

  // ----- the answer -----

  /** A literal fraction operand with integer terms and a nonzero denominator. */
  function OperandCounts(e: Expr): Option<Counts> {
    if !(e.Node? && e.op.Ratio? && |e.operands| == 2) then None
    else
      var n, d := LiteralInteger(e.operands[0]), LiteralInteger(e.operands[1]);
      if n.None? || d.None? || d.value == 0 then None else Some(Counts(n.value, d.value))
  }

  /** Whether the bridge is what the answer's own operation makes of the operands. */
  function AnswerRefusal(answer: Option<Expr>, a: Counts, b: Counts, bridge: Counts): Option<Refusal>
    requires a.parts > 0 && b.parts > 0 && bridge.parts > 0
  {
    if answer.None? || !answer.value.Node? || !(answer.value.op.Add? || answer.value.op.Subtract?) then Some(NotAdditive)
    else
      var operands := answer.value.operands;
      if |operands| != 2 || OperandCounts(operands[0]).None? || OperandCounts(operands[1]).None? then
        Some(OperandsNotLiteral)
      else
        var x, y := OperandCounts(operands[0]).value, OperandCounts(operands[1]).value;
        var first, second := Share(a.shaded, a.parts), Share(b.shaded, b.parts);
        if Share(x.shaded, x.parts) != first || Share(y.shaded, y.parts) != second then Some(OperandsMismatch)
        else if answer.value.op.Subtract? && first - second < 0.0 then Some(NegativeDifference)
        else
          var expected := if answer.value.op.Add? then first + second else first - second;
          if Share(bridge.shaded, bridge.parts) != expected then Some(ResultMismatch) else None
  }

  predicate HasBridgeBeat(plan: Plan, bridge: Ref) {
    exists i :: 0 <= i < |plan.beats| && plan.beats[i].walks && bridge in plan.beats[i].targets
  }

  // ----- the gate -----

  /** The refusal of the first check that fails, in order; none when accepted. A
      primary visual that is no partition is not checked at all. */
  function Refused(plan: Plan, answer: Option<Expr>): Option<Refusal> {
    var ps := Partitions(plan.supporting);
    if !plan.primary.Parted? then None
    else if |ps| != 4 then Some(FourPartitionsNeeded)
    else
      var p, q := LiteralInteger(plan.primary.partition.parts), LiteralInteger(ps[0].parts);
      var ra, rb, m := LiteralInteger(ps[1].parts), LiteralInteger(ps[2].parts), LiteralInteger(ps[3].parts);
      if p.None? || q.None? || ra.None? || rb.None? || m.None? then Some(LiteralPartsNeeded)
      else if p.value == 0 && q.value == 0 then Some(ZeroDivision)
      else if m.value != Lcm(p.value, q.value) then Some(WrongDenominator)
      else if ra.value != m.value then Some(WrongRefinedParts(ps[1].ref))
      else if rb.value != m.value then Some(WrongRefinedParts(ps[2].ref))
      else if WholeRefusal([plan.primary.partition] + ps).Some? then WholeRefusal([plan.primary.partition] + ps)
      else CountsRefusal(plan, ps, answer)
  }

  function CountsRefusal(plan: Plan, ps: seq<Partition>, answer: Option<Expr>): Option<Refusal>
    requires plan.primary.Parted? && |ps| == 4
  {
    var a, b := CheckCounts(plan.primary.partition), CheckCounts(ps[0]);
    var ra, rb, bridge := CheckCounts(ps[1]), CheckCounts(ps[2]), CheckCounts(ps[3]);
    if a.Err? then Some(a.error)
    else if b.Err? then Some(b.error)
    else if ra.Err? then Some(ra.error)
    else if rb.Err? then Some(rb.error)
    else if bridge.Err? then Some(bridge.error)
    else if Share(ra.value.shaded, ra.value.parts) != Share(a.value.shaded, a.value.parts) then Some(RefinedNotEqual(ps[1].ref))
    else if Share(rb.value.shaded, rb.value.parts) != Share(b.value.shaded, b.value.parts) then Some(RefinedNotEqual(ps[2].ref))
    else
      var refusal := AnswerRefusal(answer, a.value, b.value, bridge.value);
      if refusal.Some? then refusal
      else if !HasBridgeBeat(plan, ps[3].ref) then Some(NoBridgeBeat)
      else None
  }

  // ----- what the lesson teaches, in whole numbers -----

  /** The smallest positive number both divide. */
  ghost predicate IsLeastCommonMultiple(m: int, p: int, q: int) {
    && m > 0 && Divides(p, m) && Divides(q, m)
    && forall n :: n > 0 && Divides(p, n) && Divides(q, n) ==> m <= n
  }

  ghost predicate Reads(p: Partition, c: Counts, whole: int) {
    && IsLiteral(p.parts, c.parts) && IsLiteral(p.shaded, c.shaded) && IsLiteral(p.whole, whole)
    && c.parts > 0 && 0 <= c.shaded <= c.parts
  }

  /** The expression is a literal of this integral value. */
  ghost predicate IsLiteral(e: Expr, k: int) {
    e.Literal? && e.number.Some? && e.number.value.Value() == k as real
  }

  /** The expression is a literal fraction with these two terms. */
  ghost predicate NamesShare(e: Expr, c: Counts) {
    && e.Node? && e.op.Ratio? && |e.operands| == 2
    && IsLiteral(e.operands[0], c.shaded) && IsLiteral(e.operands[1], c.parts) && c.parts != 0
  }

  ghost predicate WalksOver(plan: Plan, bridge: Ref) {
    exists b :: b in plan.beats && b.walks && exists t :: t in b.targets && t == bridge
  }

  /** The counts of the five partitions and of the two answer operands. */
  datatype Bridge = Bridge(a: Counts, b: Counts, ra: Counts, rb: Counts, result: Counts, x: Counts, y: Counts, whole: int)

  /** The supporting partitions in document order: the second operand, the first
      operand refined, the second one refined, and the bridge. */
  ghost predicate ReadsPlan(plan: Plan, ps: seq<Partition>, k: Bridge) {
    && plan.primary.Parted? && |ps| == 4 && Reads(plan.primary.partition, k.a, k.whole) && Reads(ps[0], k.b, k.whole)
    && Reads(ps[1], k.ra, k.whole) && Reads(ps[2], k.rb, k.whole) && Reads(ps[3], k.result, k.whole)
  }

  ghost predicate ReadsAnswer(answer: Option<Expr>, k: Bridge) {
    && answer.Some? && answer.value.Node? && (answer.value.op.Add? || answer.value.op.Subtract?)
    && |answer.value.operands| == 2
    && NamesShare(answer.value.operands[0], k.x) && NamesShare(answer.value.operands[1], k.y)
  }

  /** All three refined partitions are cut into the least common multiple, each
      operand is scaled to it, the bridge holds the sum or difference of the scaled
      counts, and the answer names the operands in order. */
  ghost predicate Teaches(k: Bridge, subtract: bool) {
    && IsLeastCommonMultiple(k.result.parts, k.a.parts, k.b.parts)
    && k.ra.parts == k.result.parts && k.rb.parts == k.result.parts
    && k.ra.shaded * k.a.parts == k.a.shaded * k.result.parts
    && k.rb.shaded * k.b.parts == k.b.shaded * k.result.parts
    && k.result.shaded == (if subtract then k.ra.shaded - k.rb.shaded else k.ra.shaded + k.rb.shaded)
    && k.x.shaded * k.a.parts == k.a.shaded * k.x.parts
    && k.y.shaded * k.b.parts == k.b.shaded * k.y.parts
  }

  ghost predicate Correct(plan: Plan, answer: Option<Expr>, at: seq<nat>, ps: seq<Partition>, k: Bridge) {
    && Gathers(plan.supporting, at, ps)
    && ReadsPlan(plan, ps, k) && ReadsAnswer(answer, k)
    && Teaches(k, answer.value.op.Subtract?)
    && WalksOver(plan, ps[3].ref)
  }

  // ----- reading literals by value -----

  lemma NumberIff(e: Expr, k: int)
    ensures IsLiteral(e, k) <==> LiteralInteger(e) == Some(k)
  {
    if IsLiteral(e, k) {
      var q := e.number.value;
      IntegralIsWhole(q, k);
    }
  }

  /** A reduced fraction of integral value has denominator 1. */
  lemma IntegralIsWhole(q: Rational, k: int)
    requires q.Value() == k as real
    ensures q.denominator == 1 && q.numerator == k
  {
    var n, d := q.numerator, q.denominator;
    assert n == k * d by {
      assert n as real == (n as real / d as real) * d as real;
    }
    DividesIntro(d, n, k);
    DividesAbs(d, n);
    DividesIntro(d, d, 1);
    CoprimeNoCommonFactor(Abs(n), d, d);
  }

  lemma DividesAbs(d: int, n: int)
    requires Divides(d, n)
    ensures Divides(d, Abs(n))
  {
    var q :| q * d == n;
    if n < 0 {
      assert (-q) * d == -n;
      DividesIntro(d, -n, -q);
    }
  }

  lemma ReadsIff(p: Partition, c: Counts, whole: int)
    ensures Reads(p, c, whole) <==>
            && LiteralInteger(p.parts) == Some(c.parts) && LiteralInteger(p.shaded) == Some(c.shaded)
            && LiteralInteger(p.whole) == Some(whole) && c.parts > 0 && 0 <= c.shaded <= c.parts
  {
    NumberIff(p.parts, c.parts);
    NumberIff(p.shaded, c.shaded);
    NumberIff(p.whole, whole);
  }

  lemma NamesIff(e: Expr, c: Counts)
    ensures NamesShare(e, c) <==> OperandCounts(e) == Some(c)
  {
    if e.Node? && |e.operands| == 2 {
      NumberIff(e.operands[0], c.shaded);
      NumberIff(e.operands[1], c.parts);
    }
  }

  lemma WalksIff(plan: Plan, bridge: Ref)
    ensures WalksOver(plan, bridge) <==> HasBridgeBeat(plan, bridge)
  {
    if HasBridgeBeat(plan, bridge) {
      var i :| 0 <= i < |plan.beats| && plan.beats[i].walks && bridge in plan.beats[i].targets;
      assert plan.beats[i] in plan.beats;
    }
  }

  // ----- arithmetic of the common denominator -----

  lemma LcmIsLeast(p: int, q: int)
    requires p > 0 && q > 0
    ensures IsLeastCommonMultiple(Lcm(p, q), p, q)
  {
    var g := Gcd(p, q);
    GcdPositive(p, q);
    GcdDividesBoth(p, q);
    var u :| u * g == p;
    var v :| v * g == q;
    var m := u * q;
    assert u > 0 by {
      PositiveFactor(u, g, p);
    }
    assert m * g == p * q by {
      assert m * g == u * (q * g);
      assert u * (q * g) == (u * g) * q;
    }
    MultipleModZero(m, g);
    assert Lcm(p, q) == m;
    DividesIntro(q, m, u);
    assert v * p == m by {
      ScaledPair(u, v, g, p, q);
    }
    DividesIntro(p, m, v);
    assert m > 0 by {
      ProductAtLeast(u, q);
    }
    forall n | n > 0 && Divides(p, n) && Divides(q, n)
      ensures m <= n
    {
      CommonMultiple(p, q, g, u, n, m);
    }
  }

  lemma PositiveFactor(u: int, g: int, p: int)
    requires g > 0 && p > 0 && u * g == p
    ensures u > 0
  {
  }

  lemma ScaledPair(u: int, v: int, g: int, p: int, q: int)
    requires u * g == p && v * g == q
    ensures v * p == u * q
  {
    assert v * p == v * (u * g);
    assert v * (u * g) == u * (v * g);
  }

  /** A common multiple is a multiple of the least one. */
  lemma CommonMultiple(p: int, q: int, g: nat, u: int, n: int, m: int)
    requires p > 0 && q > 0 && g == Gcd(p, q) && g > 0 && u * g == p && m == u * q && m > 0
    requires n > 0 && Divides(p, n) && Divides(q, n)
    ensures Divides(m, n) && m <= n
  {
    var s :| s * p == n;
    var t :| t * q == n;
    var x, y := Bezout(p, q);
    var k := t * x + s * y;
    assert g * n == g * (k * m) by {
      BezoutOnMultiple(p, q, g, u, n, m, s, t, x, y);
    }
    Cancel(g, n, k * m);
    DividesIntro(m, n, k);
    assert k > 0 by {
      if k <= 0 {
        NonPositiveProduct(k, m);
      }
    }
    ProductAtLeast(k, m);
  }

  lemma NonPositiveProduct(k: int, m: int)
    requires k <= 0 && m > 0
    ensures k * m <= 0
  {
  }

  lemma BezoutOnMultiple(p: int, q: int, g: int, u: int, n: int, m: int, s: int, t: int, x: int, y: int)
    requires p * x + q * y == g && u * g == p && m == u * q && s * p == n && t * q == n
    ensures g * n == g * ((t * x + s * y) * m)
  {
  }

  // ----- fractions as cross products -----

  /** Two shares are equal exactly when their cross products are. */
  lemma SharesEqualIff(a: int, b: int, c: int, d: int)
    requires b != 0 && d != 0
    ensures Share(a, b) == Share(c, d) <==> a * d == c * b
  {
  }

  /** Over one denominator, adding shares is adding counts. */
  lemma SharesAdd(a: int, b: int, c: int, m: int)
    requires m > 0
    ensures Share(a, m) + Share(b, m) == Share(c, m) <==> a + b == c
    ensures Share(a, m) - Share(b, m) == Share(c, m) <==> a - b == c
  {
  }

  lemma ShareSign(a: int, b: int, m: int)
    requires m > 0
    ensures Share(a, m) - Share(b, m) < 0.0 <==> a < b
  {
  }

  // ----- the gate is exact -----

  function CountsOf(plan: Plan, answer: Option<Expr>): Option<Bridge> {
    var ps := Partitions(plan.supporting);
    if !plan.primary.Parted? || |ps| != 4 || answer.None? || !answer.value.Node? || |answer.value.operands| != 2 then None
    else
      var a, b := CheckCounts(plan.primary.partition), CheckCounts(ps[0]);
      var ra, rb, result := CheckCounts(ps[1]), CheckCounts(ps[2]), CheckCounts(ps[3]);
      var x, y := OperandCounts(answer.value.operands[0]), OperandCounts(answer.value.operands[1]);
      var whole := LiteralInteger(plan.primary.partition.whole);
      if a.Err? || b.Err? || ra.Err? || rb.Err? || result.Err? || x.None? || y.None? || whole.None? then None
      else Some(Bridge(a.value, b.value, ra.value, rb.value, result.value, x.value, y.value, whole.value))
  }

  /** With all counts read and all three refined partitions cut alike, the checks
      on fractions say exactly what the whole-number conditions say. */
  lemma FractionsAreCounts(k: Bridge, subtract: bool)
    requires k.a.parts > 0 && k.b.parts > 0 && k.result.parts > 0 && k.x.parts != 0 && k.y.parts != 0
    requires k.ra.parts == k.result.parts && k.rb.parts == k.result.parts && k.result.shaded >= 0
    ensures
      var first, second := Share(k.a.shaded, k.a.parts), Share(k.b.shaded, k.b.parts);
      (&& Share(k.ra.shaded, k.ra.parts) == first && Share(k.rb.shaded, k.rb.parts) == second
       && Share(k.x.shaded, k.x.parts) == first && Share(k.y.shaded, k.y.parts) == second
       && !(subtract && first - second < 0.0)
       && Share(k.result.shaded, k.result.parts) == (if subtract then first - second else first + second))
      <==>
      (&& k.ra.shaded * k.a.parts == k.a.shaded * k.result.parts
       && k.rb.shaded * k.b.parts == k.b.shaded * k.result.parts
       && k.result.shaded == (if subtract then k.ra.shaded - k.rb.shaded else k.ra.shaded + k.rb.shaded)
       && k.x.shaded * k.a.parts == k.a.shaded * k.x.parts
       && k.y.shaded * k.b.parts == k.b.shaded * k.y.parts)
  {
    SharesEqualIff(k.ra.shaded, k.ra.parts, k.a.shaded, k.a.parts);
    SharesEqualIff(k.rb.shaded, k.rb.parts, k.b.shaded, k.b.parts);
    SharesEqualIff(k.x.shaded, k.x.parts, k.a.shaded, k.a.parts);
    SharesEqualIff(k.y.shaded, k.y.parts, k.b.shaded, k.b.parts);
    SharesAdd(k.ra.shaded, k.rb.shaded, k.result.shaded, k.result.parts);
    ShareSign(k.ra.shaded, k.rb.shaded, k.result.parts);
    hide Share;
  }

  lemma CountsRead(p: Partition, whole: int)
    requires LiteralInteger(p.whole) == Some(whole)
    ensures CheckCounts(p).Ok? ==> Reads(p, CheckCounts(p).value, whole)
    ensures forall c: Counts, w :: Reads(p, c, w) ==> CheckCounts(p) == Ok(c) && w == whole
  {
    hide Reads;
    forall c: Counts, w
      ensures Reads(p, c, w) <==> CheckCounts(p) == Ok(c) && w == whole
    {
      ReadsIff(p, c, w);
    }
  }

  lemma WholesAgree(ps: seq<Partition>)
    requires ps != []
    ensures WholeRefusal(ps).None? <==>
            LiteralInteger(ps[0].whole).Some?
            && forall p :: p in ps ==> LiteralInteger(p.whole) == LiteralInteger(ps[0].whole)
  {
    assert ps[0] in ps;
    AllRead(ps);
    AllSame(ps[1..], LiteralInteger(ps[0].whole));
    assert ps == [ps[0]] + ps[1..];
  }

  lemma {:induction false} AllRead(ps: seq<Partition>)
    ensures FirstUnreadWhole(ps).None? <==> forall p :: p in ps ==> LiteralInteger(p.whole).Some?
  {
    if ps != [] {
      AllRead(ps[1..]);
      assert ps == [ps[0]] + ps[1..];
    }
  }

  lemma {:induction false} AllSame(ps: seq<Partition>, whole: Option<int>)
    ensures FirstOtherWhole(ps, whole).None? <==> forall p :: p in ps ==> LiteralInteger(p.whole) == whole
  {
    if ps != [] {
      AllSame(ps[1..], whole);
      assert ps == [ps[0]] + ps[1..];
    }
  }

  /** The least common multiple is the only one. */
  lemma LcmIsOnlyOne(m: int, p: int, q: int)
    requires p > 0 && q > 0
    ensures m == Lcm(p, q) <==> IsLeastCommonMultiple(m, p, q)
  {
    hide Lcm;
    LcmIsLeast(p, q);
  }

  /** Past the shape checks, what remains of the gate is the arithmetic of the
      counts and the bridge's beat. */
  lemma CountsRefusalExact(plan: Plan, answer: Option<Expr>, k: Bridge)
    requires CountsOf(plan, answer) == Some(k)
    requires k.ra.parts == k.result.parts && k.rb.parts == k.result.parts
    requires answer.value.op.Add? || answer.value.op.Subtract?
    ensures
      var ps := Partitions(plan.supporting);
      CountsRefusal(plan, ps, answer).None? <==>
      (&& k.ra.shaded * k.a.parts == k.a.shaded * k.result.parts
       && k.rb.shaded * k.b.parts == k.b.shaded * k.result.parts
       && k.result.shaded == (if answer.value.op.Subtract? then k.ra.shaded - k.rb.shaded else k.ra.shaded + k.rb.shaded)
       && k.x.shaded * k.a.parts == k.a.shaded * k.x.parts
       && k.y.shaded * k.b.parts == k.b.shaded * k.y.parts
       && HasBridgeBeat(plan, ps[3].ref))
  {
    hide Share, LiteralInteger, Partitions, HasBridgeBeat;
    FractionsAreCounts(k, answer.value.op.Subtract?);
  }

  lemma CorrectIsAccepted(plan: Plan, answer: Option<Expr>, at: seq<nat>, ps: seq<Partition>, k: Bridge)
    requires Correct(plan, answer, at, ps, k)
    ensures Refused(plan, answer).None? && CountsOf(plan, answer) == Some(k)
  {
    var to := PartitionsGathered(plan.supporting);
    GathersOnce(plan.supporting, at, ps, to, Partitions(plan.supporting));
    CorrectCounts(plan, answer, ps, k);
    CorrectWholes(plan, ps, k);
    WalksIff(plan, ps[3].ref);
    PartsAreLiterals(plan, ps, k);
    LcmIsOnlyOne(k.result.parts, k.a.parts, k.b.parts);
    CountsRefusalExact(plan, answer, k);
    hide *;
    PassedShape(plan, answer, ps, k);
  }

  lemma PassedShape(plan: Plan, answer: Option<Expr>, ps: seq<Partition>, k: Bridge)
    requires ps == Partitions(plan.supporting) && plan.primary.Parted? && |ps| == 4
    requires LiteralInteger(plan.primary.partition.parts) == Some(k.a.parts) && LiteralInteger(ps[0].parts) == Some(k.b.parts)
    requires LiteralInteger(ps[1].parts) == LiteralInteger(ps[2].parts) == LiteralInteger(ps[3].parts) == Some(k.result.parts)
    requires k.a.parts > 0 && k.b.parts > 0 && k.result.parts == Lcm(k.a.parts, k.b.parts)
    requires WholeRefusal([plan.primary.partition] + ps).None? && CountsRefusal(plan, ps, answer).None?
    ensures Refused(plan, answer).None?
  {
    hide LiteralInteger, Partitions, Lcm, WholeRefusal, CountsRefusal;
  }

  lemma CorrectCounts(plan: Plan, answer: Option<Expr>, ps: seq<Partition>, k: Bridge)
    requires ps == Partitions(plan.supporting) && ReadsPlan(plan, ps, k) && ReadsAnswer(answer, k)
    ensures CountsOf(plan, answer) == Some(k)
  {
    NamesIff(answer.value.operands[0], k.x);
    NamesIff(answer.value.operands[1], k.y);
    CorrectWholes(plan, ps, k);
    PartsAreLiterals(plan, ps, k);
    hide Reads, NamesShare, LiteralInteger, Partitions, CheckCounts, OperandCounts, WholeRefusal;
    CountsRead(plan.primary.partition, k.whole);
    CountsRead(ps[0], k.whole);
    CountsRead(ps[1], k.whole);
    CountsRead(ps[2], k.whole);
    CountsRead(ps[3], k.whole);
  }

  lemma PartsAreLiterals(plan: Plan, ps: seq<Partition>, k: Bridge)
    requires ReadsPlan(plan, ps, k)
    ensures LiteralInteger(plan.primary.partition.parts) == Some(k.a.parts) && LiteralInteger(ps[0].parts) == Some(k.b.parts)
    ensures LiteralInteger(ps[1].parts) == Some(k.ra.parts) && LiteralInteger(ps[2].parts) == Some(k.rb.parts)
    ensures LiteralInteger(ps[3].parts) == Some(k.result.parts)
    ensures LiteralInteger(plan.primary.partition.whole) == Some(k.whole)
    ensures forall i :: 0 <= i < 4 ==> LiteralInteger(ps[i].whole) == Some(k.whole)
  {
    ReadsIff(plan.primary.partition, k.a, k.whole);
    ReadsIff(ps[0], k.b, k.whole);
    ReadsIff(ps[1], k.ra, k.whole);
    ReadsIff(ps[2], k.rb, k.whole);
    ReadsIff(ps[3], k.result, k.whole);
    hide Reads, LiteralInteger;
  }

  lemma CorrectWholes(plan: Plan, ps: seq<Partition>, k: Bridge)
    requires ReadsPlan(plan, ps, k)
    ensures WholeRefusal([plan.primary.partition] + ps).None?
  {
    var all := [plan.primary.partition] + ps;
    WholesAgree(all);
    PartsAreLiterals(plan, ps, k);
    hide WholeRefusal, LiteralInteger, Reads;
    forall p | p in all
      ensures LiteralInteger(p.whole) == Some(k.whole)
    {
    }
  }

  lemma AcceptedWholes(primary: Partition, ps: seq<Partition>)
    requires |ps| == 4 && WholeRefusal([primary] + ps).None?
    ensures LiteralInteger(primary.whole).Some?
    ensures forall i :: 0 <= i < 4 ==> LiteralInteger(ps[i].whole) == LiteralInteger(primary.whole)
  {
    var all := [primary] + ps;
    WholesAgree(all);
    hide WholeRefusal, LiteralInteger;
    forall i | 0 <= i < 4
      ensures LiteralInteger(ps[i].whole) == LiteralInteger(primary.whole)
    {
      assert all[i + 1] in all;
    }
  }

  lemma AcceptedReads(plan: Plan, answer: Option<Expr>)
    requires plan.primary.Parted? && Refused(plan, answer).None?
    ensures CountsOf(plan, answer).Some?
    ensures
      var ps, k := Partitions(plan.supporting), CountsOf(plan, answer).value;
      && ReadsPlan(plan, ps, k) && ReadsAnswer(answer, k) && CountsRefusal(plan, ps, answer).None?
      && k.ra.parts == k.result.parts && k.rb.parts == k.result.parts && k.result.parts == Lcm(k.a.parts, k.b.parts)
  {
    var ps := Partitions(plan.supporting);
    hide Partitions, HasBridgeBeat, WholeRefusal, Lcm, Share;
    AcceptedWholes(plan.primary.partition, ps);
    var whole := LiteralInteger(plan.primary.partition.whole).value;
    CountsRead(plan.primary.partition, whole);
    CountsRead(ps[0], whole);
    CountsRead(ps[1], whole);
    CountsRead(ps[2], whole);
    CountsRead(ps[3], whole);
  }

  lemma AcceptedIsCorrect(plan: Plan, answer: Option<Expr>) returns (at: seq<nat>, ps: seq<Partition>, k: Bridge)
    requires plan.primary.Parted? && Refused(plan, answer).None?
    ensures Correct(plan, answer, at, ps, k)
  {
    AcceptedReads(plan, answer);
    at := PartitionsGathered(plan.supporting);
    ps := Partitions(plan.supporting);
    hide Refused, CountsOf, Partitions, LiteralInteger, OperandCounts, CountsRefusal, IsLeastCommonMultiple, Lcm,
      HasBridgeBeat, Gathers;
    k := CountsOf(plan, answer).value;
    CountsRefusalExact(plan, answer, k);
    LcmIsOnlyOne(k.result.parts, k.a.parts, k.b.parts);
  }

  /** The gate accepts exactly the plans whose primary visual is no partition, and
      those whose five partitions and answer satisfy the whole-number conditions
      of the lesson, the supporting four taken in document order. */
  lemma AcceptedIff(plan: Plan, answer: Option<Expr>)
    ensures Refused(plan, answer).None? <==> !plan.primary.Parted? || exists at, ps, k :: Correct(plan, answer, at, ps, k)
  {
    Unchecked(plan, answer);
    hide Refused, Correct, CountsOf;
    if plan.primary.Parted? && Refused(plan, answer).None? {
      var at, ps, k := AcceptedIsCorrect(plan, answer);
    }
    if at, ps, k :| Correct(plan, answer, at, ps, k) {
      CorrectIsAccepted(plan, answer, at, ps, k);
    }
  }

  lemma Unchecked(plan: Plan, answer: Option<Expr>)
    ensures !plan.primary.Parted? ==> Refused(plan, answer).None?
  {
  }

  /** The four supporting partitions all have literal parts. */
  ghost predicate FourLiteral(plan: Plan, at: seq<nat>, ps: seq<Partition>) {
    && plan.primary.Parted? && Gathers(plan.supporting, at, ps) && |ps| == 4
    && HasNumber(plan.primary.partition.parts) && forall i :: 0 <= i < 4 ==> HasNumber(ps[i].parts)
  }

  ghost predicate HasNumber(e: Expr) {
    exists k :: IsLiteral(e, k)
  }

  /** The gate divides by zero exactly when it comes to compare the denominators of
      two operands that both have zero parts. */
  lemma ZeroDivisionIff(plan: Plan, answer: Option<Expr>)
    ensures Refused(plan, answer) == Some(ZeroDivision) <==>
            exists at: seq<nat>, ps: seq<Partition> ::
              FourLiteral(plan, at, ps) && IsLiteral(plan.primary.partition.parts, 0) && IsLiteral(ps[0].parts, 0)
  {
    var ps := Partitions(plan.supporting);
    var at := PartitionsGathered(plan.supporting);
    forall to, qs | FourLiteral(plan, to, qs)
      ensures qs == ps
    {
      GathersOnce(plan.supporting, at, ps, to, qs);
    }
    hide *;
    DividesByZero(plan, answer, at, ps);
  }

  lemma DividesByZero(plan: Plan, answer: Option<Expr>, at: seq<nat>, ps: seq<Partition>)
    requires ps == Partitions(plan.supporting) && Gathers(plan.supporting, at, ps)
    ensures Refused(plan, answer) == Some(ZeroDivision) <==>
            FourLiteral(plan, at, ps) && IsLiteral(plan.primary.partition.parts, 0) && IsLiteral(ps[0].parts, 0)
  {
    hide Gathers, Partitions, IsNumber;
    if plan.primary.Parted? && |ps| == 4 {
      LiteralIff(plan.primary.partition.parts);
      NumberIff(plan.primary.partition.parts, 0);
      NumberIff(ps[0].parts, 0);
      LiteralIff(ps[0].parts);
      LiteralIff(ps[1].parts);
      LiteralIff(ps[2].parts);
      LiteralIff(ps[3].parts);
      hide LiteralInteger, HasNumber, WholeRefusal, CountsRefusal;
      WholeRefusalKinds([plan.primary.partition] + ps);
      CountsRefusalKinds(plan, ps, answer);
    }
  }

  lemma LiteralIff(e: Expr)
    ensures HasNumber(e) <==> LiteralInteger(e).Some?
  {
    if k :| IsLiteral(e, k) {
      NumberIff(e, k);
    }
    if LiteralInteger(e).Some? {
      NumberIff(e, LiteralInteger(e).value);
    }
  }

  lemma WholeRefusalKinds(ps: seq<Partition>)
    requires ps != []
    ensures WholeRefusal(ps) != Some(ZeroDivision)
  {
    UnreadKinds(ps);
    OtherKinds(ps[1..], LiteralInteger(ps[0].whole));
  }

  lemma {:induction false} UnreadKinds(ps: seq<Partition>)
    ensures FirstUnreadWhole(ps) != Some(ZeroDivision)
  {
    if ps != [] {
      UnreadKinds(ps[1..]);
    }
  }

  lemma {:induction false} OtherKinds(ps: seq<Partition>, whole: Option<int>)
    ensures FirstOtherWhole(ps, whole) != Some(ZeroDivision)
  {
    if ps != [] {
      OtherKinds(ps[1..], whole);
    }
  }

  lemma CountsRefusalKinds(plan: Plan, ps: seq<Partition>, answer: Option<Expr>)
    requires plan.primary.Parted? && |ps| == 4
    ensures CountsRefusal(plan, ps, answer) != Some(ZeroDivision)
  {
    hide LiteralInteger, Share, OperandCounts, HasBridgeBeat;
  }

  /** In an accepted plan each refined count is its operand's count times the
      number of new parts per old part, and the scaled counts combine, as whole
      numbers, to the bridge's count. */
  lemma AcceptedScales(plan: Plan, answer: Option<Expr>) returns (at: seq<nat>, ps: seq<Partition>, k: Bridge)
    requires plan.primary.Parted? && Refused(plan, answer).None?
    ensures Correct(plan, answer, at, ps, k)
    ensures
      && k.a.parts > 0 && k.b.parts > 0
      && k.result.parts == (k.result.parts / k.a.parts) * k.a.parts
      && k.result.parts == (k.result.parts / k.b.parts) * k.b.parts
      && k.ra.shaded == k.a.shaded * (k.result.parts / k.a.parts)
      && k.rb.shaded == k.b.shaded * (k.result.parts / k.b.parts)
      && (answer.value.op.Add? ==> k.ra.shaded + k.rb.shaded == k.result.shaded)
      && (answer.value.op.Subtract? ==> k.ra.shaded - k.rb.shaded == k.result.shaded)
  {
    at, ps, k := AcceptedIsCorrect(plan, answer);
    hide Refused, CountsOf, HasBridgeBeat, LiteralInteger, Gathers;
    ScaleCount(k.a.shaded, k.a.parts, k.ra.shaded, k.result.parts);
    ScaleCount(k.b.shaded, k.b.parts, k.rb.shaded, k.result.parts);
  }

  lemma ScaleCount(shaded: int, parts: int, refined: int, m: int)
    requires parts > 0 && Divides(parts, m) && refined * parts == shaded * m
    ensures m == (m / parts) * parts && refined == shaded * (m / parts)
  {
    var factor :| factor * parts == m;
    MultipleModZero(factor, parts);
    assert parts * refined == parts * (shaded * factor) by {
      assert shaded * (factor * parts) == parts * (shaded * factor);
    }
    Cancel(parts, refined, shaded * factor);
  }

  // ----- the bridge is the evaluated answer -----

  predicate WithinMagnitude(x: int) {
    -MAX_NUMERIC_MAGNITUDE <= x as real <= MAX_NUMERIC_MAGNITUDE
  }

  lemma EvaluateLiteral(e: Expr, values: Values, x: int)
    requires LiteralInteger(e) == Some(x) && Schema(e)
    ensures Evaluate(e, values) == if WithinMagnitude(x) then Ok(x as real) else Err(Overflow)
  {
    assert e.number.value.Value() == x as real / 1.0;
  }

  lemma ShareWithinOne(c: Counts)
    requires 0 <= c.shaded <= c.parts && c.parts > 0
    ensures 0.0 <= Share(c.shaded, c.parts) <= 1.0
  {
  }

  lemma EvaluatePair(e: Expr, values: Values)
    requires Schema(e) && e.Node? && |e.operands| == 2
    ensures
      var x, y := Evaluate(e.operands[0], values), Evaluate(e.operands[1], values);
      EvaluateAll(e.operands, values)
      == if x.Err? then Err(x.error) else if y.Err? then Err(y.error) else Ok([x.value, y.value])
  {
    var es := e.operands;
    var x, y := Evaluate(es[0], values), Evaluate(es[1], values);
    EvaluateOne(es[1], values);
    assert es[1..] == [es[1]];
    if x.Ok? && y.Ok? {
      assert [x.value] + [y.value] == [x.value, y.value];
    }
  }

  lemma EvaluateOne(e: Expr, values: Values)
    requires Schema(e)
    ensures var y := Evaluate(e, values); EvaluateAll([e], values) == if y.Err? then Err(y.error) else Ok([y.value])
  {
    assert [e][1..] == [];
    assert EvaluateAll([], values) == Ok([]);
    var y := Evaluate(e, values);
    if y.Ok? {
      assert [y.value] + [] == [y.value];
    }
  }

  lemma EvaluateOperand(e: Expr, values: Values, c: Counts)
    requires Schema(e) && OperandCounts(e) == Some(c) && -1.0 <= Share(c.shaded, c.parts) <= 1.0
    ensures Evaluate(e, values)
         == if WithinMagnitude(c.shaded) && WithinMagnitude(c.parts) then Ok(Share(c.shaded, c.parts)) else Err(Overflow)
  {
    EvaluatePair(e, values);
    EvaluateLiteral(e.operands[0], values, c.shaded);
    EvaluateLiteral(e.operands[1], values, c.parts);
  }

  /** The bridge's fraction is the value of the answer expression, for every record
      of fields; only literals beyond the evaluator's magnitude cap stop it. */
  lemma BridgeIsEvaluatedAnswer(plan: Plan, answer: Option<Expr>, values: Values)
    returns (at: seq<nat>, ps: seq<Partition>, k: Bridge)
    requires plan.primary.Parted? && Refused(plan, answer).None? && answer.Some? && Schema(answer.value)
    ensures Correct(plan, answer, at, ps, k)
    ensures
      && k.result.parts != 0
      && Evaluate(answer.value, values)
         == (if (WithinMagnitude(k.x.shaded) && WithinMagnitude(k.x.parts)
                 && WithinMagnitude(k.y.shaded) && WithinMagnitude(k.y.parts))
             then Ok(Share(k.result.shaded, k.result.parts)) else Err(Overflow))
  {
    at, ps, k := AcceptedIsCorrect(plan, answer);
    hide Refused, CountsOf, HasBridgeBeat, LiteralInteger, WithinMagnitude, Evaluate, OperandCounts, Share, Teaches, Gathers;
    OperandsHaveParts(answer, k);
    AnswerShares(k, answer.value.op.Subtract?);
    ShareWithinOne(k.result);
    AnswerEvaluates(answer.value, values, k);
  }

  lemma OperandsHaveParts(answer: Option<Expr>, k: Bridge)
    requires ReadsAnswer(answer, k)
    ensures k.x.parts != 0 && k.y.parts != 0
  {
  }

  lemma AnswerEvaluates(e: Expr, values: Values, k: Bridge)
    requires Schema(e) && ReadsAnswer(Some(e), k) && k.x.parts != 0 && k.y.parts != 0 && k.result.parts != 0
    requires 0.0 <= Share(k.x.shaded, k.x.parts) <= 1.0 && 0.0 <= Share(k.y.shaded, k.y.parts) <= 1.0
    requires 0.0 <= Share(k.result.shaded, k.result.parts) <= 1.0
    requires
      var x, y := Share(k.x.shaded, k.x.parts), Share(k.y.shaded, k.y.parts);
      Share(k.result.shaded, k.result.parts) == if e.op.Subtract? then x - y else x + y
    ensures
      Evaluate(e, values)
      == (if (WithinMagnitude(k.x.shaded) && WithinMagnitude(k.x.parts)
              && WithinMagnitude(k.y.shaded) && WithinMagnitude(k.y.parts))
          then Ok(Share(k.result.shaded, k.result.parts)) else Err(Overflow))
  {
    NamesIff(e.operands[0], k.x);
    NamesIff(e.operands[1], k.y);
    hide LiteralInteger, WithinMagnitude, Evaluate, EvaluateAll, Share, OperandCounts, NamesShare;
    var es := e.operands;
    EvaluateOperand(es[0], values, k.x);
    EvaluateOperand(es[1], values, k.y);
    EvaluatePair(e, values);
    EvaluateSum(e, values, Share(k.x.shaded, k.x.parts), Share(k.y.shaded, k.y.parts));
  }

  lemma EvaluateSum(e: Expr, values: Values, x: real, y: real)
    requires Schema(e) && e.Node? && |e.operands| == 2 && (e.op.Add? || e.op.Subtract?)
    requires var sum := if e.op.Add? then x + y else x - y; 0.0 <= sum <= 1.0
    ensures EvaluateAll(e.operands, values) == Ok([x, y]) ==>
              Evaluate(e, values) == Ok(if e.op.Add? then x + y else x - y)
    ensures EvaluateAll(e.operands, values) == Err(Overflow) ==> Evaluate(e, values) == Err(Overflow)
  {
    hide EvaluateAll;
    if e.op.Add? {
      FoldTwo(x, y);
    }
  }

  lemma FoldTwo(x: real, y: real)
    ensures Fold(Add, 0.0, [x, y]) == Ok(x + y)
  {
    assert [x, y][1..] == [y] && [y][1..] == [];
    assert Fold(Add, 0.0 + x + y, []) == Ok(x + y);
    assert Fold(Add, 0.0 + x, [y]) == Ok(x + y);
  }

  lemma AnswerShares(k: Bridge, subtract: bool)
    requires k.a.parts > 0 && k.b.parts > 0 && k.result.parts > 0 && k.x.parts != 0 && k.y.parts != 0
    requires 0 <= k.a.shaded <= k.a.parts && 0 <= k.b.shaded <= k.b.parts && 0 <= k.result.shaded <= k.result.parts
    requires Teaches(k, subtract)
    ensures
      var x, y := Share(k.x.shaded, k.x.parts), Share(k.y.shaded, k.y.parts);
      && 0.0 <= x <= 1.0 && 0.0 <= y <= 1.0
      && Share(k.result.shaded, k.result.parts) == (if subtract then x - y else x + y)
  {
    FractionsAreCounts(k, subtract);
    ShareWithinOne(k.a);
    ShareWithinOne(k.b);
    hide Share;
  }
}
