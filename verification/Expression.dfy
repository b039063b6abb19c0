/** Answer and guard expressions: compilation against a field contract, and
    exact evaluation over a record of field values. */
module Expression {
  import opened Outcomes
  import opened DecimalFormat

  const MAX_EXPRESSION_DEPTH := 6
  const MAX_EXPRESSION_OPERATIONS := 20
  const MAX_NUMERIC_MAGNITUDE := 1000000000000.0

  datatype Operator = Add | Subtract | Multiply | Divide | Ratio

  /** A literal is `None` when the float it was written as is not finite. */
  datatype Expr =
    | Literal(number: Option<Rational>)
    | FieldRef(field: string, index: Option<nat>, item: Option<string>)
    | Node(op: Operator, operands: seq<Expr>)

  /** Two to four operands for + and x, exactly two for the other operators. */
  predicate Arity(op: Operator, n: nat) {
    if op.Add? || op.Multiply? then 2 <= n <= 4 else n == 2
  }

  predicate Schema(e: Expr) {
    e.Node? ==> Arity(e.op, |e.operands|) && forall i | 0 <= i < |e.operands| :: Schema(e.operands[i])
  }

  datatype ExprError =
    | UnknownField | UnexpectedItemField | ArrayItemFieldRequired | ArrayIndexRequired
    | UnknownItemField | TooDeep | TooManyOperations | NonFiniteLiteral
    | MissingValue | IndexOutOfRange | NonFiniteValue | UnsupportedType | Overflow | DivideByZero

  // ----- compilation -----

  datatype FieldContract = FieldContract(scalars: set<string>, arrays: map<string, set<string>>)

  function ValidateFieldRef(e: Expr, contract: FieldContract): Option<ExprError>
    requires e.FieldRef?
  {
    if e.field !in contract.scalars && e.field !in contract.arrays then Some(UnknownField)
    else if e.field !in contract.arrays then
      if e.item.Some? then Some(UnexpectedItemField) else None
    else if e.item.None? then Some(ArrayItemFieldRequired)
    else if e.index.None? then Some(ArrayIndexRequired)
    else if e.item.value !in contract.arrays[e.field] then Some(UnknownItemField)
    else None
  }

  /** Every leaf is finite or names a field the contract declares. */
  predicate LeavesLegal(e: Expr, contract: FieldContract) {
    match e
    case Literal(number) => number.Some?
    case FieldRef(_, _, _) => ValidateFieldRef(e, contract) == None
    case Node(_, operands) => forall i | 0 <= i < |operands| :: LeavesLegal(operands[i], contract)
  }

  /** Edges on the longest path to a leaf. */
  function Height(e: Expr): nat
    decreases e, 1
  {
    if e.Node? then TallestHeight(e.operands) + 1 else 0
  }

  function TallestHeight(es: seq<Expr>): nat
    decreases es, 0
  {
    if es == [] then 0 else Max(TallestHeight(es[..|es| - 1]), Height(es[|es| - 1]))
  }

  function Operations(e: Expr): nat
    decreases e, 1
  {
    if e.Node? then TotalOperations(e.operands) + 1 else 0
  }

  function TotalOperations(es: seq<Expr>): nat
    decreases es, 0
  {
    if es == [] then 0 else TotalOperations(es[..|es| - 1]) + Operations(es[|es| - 1])
  }

  function FieldsOf(e: Expr): set<string>
    decreases e, 1
  {
    match e
    case Literal(_) => {}
    case FieldRef(field, _, _) => {field}
    case Node(_, operands) => FieldsOfAll(operands)
  }

  function FieldsOfAll(es: seq<Expr>): set<string>
    decreases es, 0
  {
    if es == [] then {} else FieldsOfAll(es[..|es| - 1]) + FieldsOf(es[|es| - 1])
  }

  lemma {:induction false} OperandsBounded(es: seq<Expr>, i: nat)
    requires i < |es|
    ensures Height(es[i]) <= TallestHeight(es)
    ensures TotalOperations(es[..i + 1]) <= TotalOperations(es)
    ensures TotalOperations(es[..i + 1]) == TotalOperations(es[..i]) + Operations(es[i])
    ensures FieldsOfAll(es[..i + 1]) == FieldsOfAll(es[..i]) + FieldsOf(es[i])
    decreases |es|
  {
    assert es[..i + 1][..i] == es[..i];
    if i < |es| - 1 {
      var front := es[..|es| - 1];
      OperandsBounded(front, i);
      assert front[..i + 1] == es[..i + 1];
    } else {
      assert es[..i + 1] == es;
    }
  }

  lemma {:induction false} TallestAtMost(es: seq<Expr>, bound: int)
    requires 0 <= bound
    requires forall i | 0 <= i < |es| :: Height(es[i]) <= bound
    ensures TallestHeight(es) <= bound
    decreases |es|
  {
    if es != [] {
      var front := es[..|es| - 1];
      forall i | 0 <= i < |front| ensures Height(front[i]) <= bound {
        assert front[i] == es[i];
      }
      TallestAtMost(front, bound);
    }
  }

  /** What compilation accepts, as a property of the whole tree. */
  ghost predicate Accepted(e: Expr, depth: nat, used: nat, contract: FieldContract) {
    && depth + Height(e) <= MAX_EXPRESSION_DEPTH
    && used + Operations(e) <= MAX_EXPRESSION_OPERATIONS
    && LeavesLegal(e, contract)
  }

  /** The compile-time walk, with its running operation count and field set. */
  class Walker {
    const contract: FieldContract
    var opCount: nat
    var referenced: set<string>

    constructor (contract: FieldContract)
      ensures this.contract == contract && opCount == 0 && referenced == {}
    {
      this.contract := contract;
      opCount, referenced := 0, {};
    }

    method Walk(current: Expr, depth: nat) returns (error: Option<ExprError>)
      requires Schema(current) && opCount <= MAX_EXPRESSION_OPERATIONS
      modifies this
      ensures error.None? <==> Accepted(current, depth, old(opCount), contract)
      ensures error.None? ==> opCount == old(opCount) + Operations(current)
      ensures error.None? ==> referenced == old(referenced) + FieldsOf(current)
      decreases current
    {
      if depth > MAX_EXPRESSION_DEPTH {
        return Some(TooDeep);
      }
      if current.Literal? {
        return if current.number.None? then Some(NonFiniteLiteral) else None;
      }
      if current.FieldRef? {
        var invalid := ValidateFieldRef(current, contract);
        if invalid.None? {
          referenced := referenced + {current.field};
        }
        return invalid;
      }
      opCount := opCount + 1;
      if opCount > MAX_EXPRESSION_OPERATIONS {
        return Some(TooManyOperations);
      }
      error := WalkOperands(current.operands, depth + 1);
    }

    method WalkOperands(operands: seq<Expr>, depth: nat) returns (error: Option<ExprError>)
      requires operands != [] && forall j | 0 <= j < |operands| :: Schema(operands[j])
      requires opCount <= MAX_EXPRESSION_OPERATIONS
      modifies this
      ensures error.None? <==>
              && depth + TallestHeight(operands) <= MAX_EXPRESSION_DEPTH
              && old(opCount) + TotalOperations(operands) <= MAX_EXPRESSION_OPERATIONS
              && forall j | 0 <= j < |operands| :: LeavesLegal(operands[j], contract)
      ensures error.None? ==> opCount == old(opCount) + TotalOperations(operands)
      ensures error.None? ==> referenced == old(referenced) + FieldsOfAll(operands)
      decreases operands
    {
      var i := 0;
      while i < |operands|
        invariant 0 <= i <= |operands|
        invariant opCount == old(opCount) + TotalOperations(operands[..i]) <= MAX_EXPRESSION_OPERATIONS
        invariant forall j | 0 <= j < i :: depth + Height(operands[j]) <= MAX_EXPRESSION_DEPTH
        invariant forall j | 0 <= j < i :: LeavesLegal(operands[j], contract)
        invariant referenced == old(referenced) + FieldsOfAll(operands[..i])
      {
        OperandsBounded(operands, i);
        error := Walk(operands[i], depth);
        if error.Some? {
          return;
        }
        i := i + 1;
      }
      assert operands[..i] == operands;
      assert depth + Height(operands[0]) <= MAX_EXPRESSION_DEPTH;
      TallestAtMost(operands, MAX_EXPRESSION_DEPTH - depth);
      return None;
    }
  }

  /** Compilation succeeds exactly on trees within the depth and operation
      limits whose leaves are all legal; on success its counters are the tree's. */
  method CompileExpression(node: Expr, contract: FieldContract)
    returns (result: Result<set<string>, ExprError>)
    requires Schema(node)
    ensures result.Ok? <==> Accepted(node, 0, 0, contract)
    ensures result.Ok? ==> result.value == FieldsOf(node)
  {
    var walker := new Walker(contract);
    var error := walker.Walk(node, 0);
    if error.Some? {
      return Err(error.value);
    }
    return Ok(walker.referenced);
  }

  // ----- evaluation -----

  /** A stored field value: a number (`None` when not finite), a list, an object,
      or anything else. */
  datatype Raw =
    | Number(number: Option<Rational>)
    | Items(items: seq<Raw>)
    | Object(members: map<string, Raw>)
    | Other

  type Values = map<string, Raw>

  function AbsReal(x: real): real { if x < 0.0 then -x else x }

  function CheckMagnitude(x: real): Result<real, ExprError> {
    if AbsReal(x) > MAX_NUMERIC_MAGNITUDE then Err(Overflow) else Ok(x)
  }

  function ToFraction(raw: Raw): Result<Rational, ExprError> {
    if !raw.Number? then Err(UnsupportedType)
    else if raw.number.None? then Err(NonFiniteValue)
    else Ok(raw.number.value)
  }

  function Indexed(raw: Raw, index: Option<nat>): Result<Raw, ExprError> {
    if index.None? then Ok(raw)
    else if !raw.Items? || index.value >= |raw.items| then Err(IndexOutOfRange)
    else Ok(raw.items[index.value])
  }

  function Member(raw: Raw, item: Option<string>): Result<Raw, ExprError> {
    if item.None? then Ok(raw)
    else if !raw.Object? || item.value !in raw.members then Err(UnknownItemField)
    else Ok(raw.members[item.value])
  }

  /** The exact fraction an atom stands for, before the magnitude check. */
  function AtomNumber(e: Expr, values: Values): Result<Rational, ExprError>
    requires !e.Node?
  {
    if e.Literal? then ToFraction(Number(e.number))
    else if e.field !in values then Err(MissingValue)
    else
      var raw :- Indexed(values[e.field], e.index);
      var leaf :- Member(raw, e.item);
      ToFraction(leaf)
  }

  function Combine(op: Operator, a: real, b: real): Result<real, ExprError> {
    match op
    case Add => Ok(a + b)
    case Subtract => Ok(a - b)
    case Multiply => Ok(a * b)
    case _ => if b == 0.0 then Err(DivideByZero) else Ok(a / b)
  }

  function Fold(op: Operator, a: real, rest: seq<real>): Result<real, ExprError>
    decreases |rest|
  {
    if rest == [] then Ok(a)
    else
      var b :- Combine(op, a, rest[0]);
      Fold(op, b, rest[1..])
  }

  /** The uncapped result of one operator on its evaluated operands. */
  function Operate(op: Operator, operands: seq<real>): Result<real, ExprError>
    requires Arity(op, |operands|)
  {
    match op
    case Add => Fold(Add, 0.0, operands)
    case Multiply => Fold(Multiply, 1.0, operands)
    case _ => Combine(op, operands[0], operands[1])
  }

  function Evaluate(e: Expr, values: Values): Result<real, ExprError>
    requires Schema(e)
    decreases e, 1
  {
    if e.Node? then
      var operands :- EvaluateAll(e.operands, values);
      var x :- Operate(e.op, operands);
      CheckMagnitude(x)
    else
      var number :- AtomNumber(e, values);
      CheckMagnitude(number.Value())
  }

  /** Operands left to right, stopping at the first error. */
  function EvaluateAll(es: seq<Expr>, values: Values): (r: Result<seq<real>, ExprError>)
    requires forall i | 0 <= i < |es| :: Schema(es[i])
    ensures r.Ok? ==> |r.value| == |es|
    ensures r.Ok? ==> forall i | 0 <= i < |es| :: Evaluate(es[i], values) == Ok(r.value[i])
    ensures r.Err? ==> exists i | 0 <= i < |es| :: Evaluate(es[i], values) == Err(r.error)
    decreases es, 0
  {
    if es == [] then Ok([])
    else
      var first :- Evaluate(es[0], values);
      var rest :- EvaluateAll(es[1..], values);
      Ok([first] + rest)
  }

  ghost predicate WithinLimit(x: real) {
    -MAX_NUMERIC_MAGNITUDE <= x <= MAX_NUMERIC_MAGNITUDE
  }

  /** A reference reads the member of the entry it names: the field's own value, the
      entry at its index, the entry's member, or the member of the field's value. */
  predicate ReadsRaw(field: string, index: Option<nat>, item: Option<string>, values: Values, raw: Raw) {
    && field in values
    && match (index, item)
       case (None, None) => raw == values[field]
       case (Some(i), None) => values[field].Items? && i < |values[field].items| && raw == values[field].items[i]
       case (None, Some(m)) => values[field].Object? && m in values[field].members && raw == values[field].members[m]
       case (Some(i), Some(m)) =>
         && values[field].Items? && i < |values[field].items|
         && values[field].items[i].Object? && m in values[field].items[i].members
         && raw == values[field].items[i].members[m]
  }

  /** A reference evaluates exactly when what it reads is a finite number within the
      limit, and then to that number; beyond the limit it overflows. */
  lemma FieldReads(field: string, index: Option<nat>, item: Option<string>, values: Values)
    ensures
      var r := Evaluate(FieldRef(field, index, item), values);
      && (forall raw :: ReadsRaw(field, index, item, values, raw) ==>
                          r == if !raw.Number? then Err(UnsupportedType)
                          else if raw.number.None? then Err(NonFiniteValue)
                          else if WithinLimit(raw.number.value.Value()) then Ok(raw.number.value.Value())
                          else Err(Overflow))
      && ((forall raw :: !ReadsRaw(field, index, item, values, raw)) ==>
            r.Err? && r.error in {MissingValue, IndexOutOfRange, UnknownItemField}
            && (r.error == MissingValue <==> field !in values))
  {
    if field in values && Indexed(values[field], index).Ok? && Member(Indexed(values[field], index).value, item).Ok? {
      assert ReadsRaw(field, index, item, values, Member(Indexed(values[field], index).value, item).value);
    }
  }

  /** A reference is legal exactly when it names a scalar without a member, or an
      entry's member that the contract declares. */
  lemma LegalReferenceIff(field: string, index: Option<nat>, item: Option<string>, contract: FieldContract)
    ensures LeavesLegal(FieldRef(field, index, item), contract) <==>
            || (field in contract.scalars && field !in contract.arrays && item.None?)
            || (field in contract.arrays && index.Some? && item.Some? && item.value in contract.arrays[field])
  {
  }

  /** The error reported for a list of operands is that of the first one that has
      any; without one, every operand's value is kept in its place. */
  lemma {:induction false} FirstErrorReported(es: seq<Expr>, values: Values, i: nat)
    requires forall j | 0 <= j < |es| :: Schema(es[j])
    requires i < |es| && forall j | 0 <= j < i :: Evaluate(es[j], values).Ok?
    ensures Evaluate(es[i], values).Err? ==> EvaluateAll(es, values) == Err(Evaluate(es[i], values).error)
    ensures EvaluateAll(es, values).Ok? ==>
              |EvaluateAll(es, values).value| == |es| && Evaluate(es[i], values) == Ok(EvaluateAll(es, values).value[i])
    decreases |es|
  {
    hide Schema, Evaluate;
    if i > 0 {
      assert Evaluate(es[0], values).Ok?;
      FirstErrorReported(es[1..], values, i - 1);
    }
  }

  // ----- what an accepted expression can do at run time -----

  ghost predicate IsNumber(raw: Raw) {
    raw.Number? && raw.number.Some?
  }

  /** A numeric record of the contract's shape. */
  ghost predicate Conforms(values: Values, contract: FieldContract) {
    && (forall f | f in contract.scalars && f !in contract.arrays :: f in values && IsNumber(values[f]))
    && (forall f | f in contract.arrays :: f in values && values[f].Items?)
    && (forall f, i, m | f in contract.arrays && 0 <= i < |values[f].items| && m in contract.arrays[f] ::
          var entry := values[f].items[i]; entry.Object? && m in entry.members && IsNumber(entry.members[m]))
  }

  /** Every subexpression evaluates, to a value within the magnitude limit. */
  ghost predicate AllWithinLimit(e: Expr, values: Values)
    requires Schema(e)
  {
    && Evaluate(e, values).Ok?
    && -MAX_NUMERIC_MAGNITUDE <= Evaluate(e, values).value <= MAX_NUMERIC_MAGNITUDE
    && (e.Node? ==> forall i | 0 <= i < |e.operands| :: AllWithinLimit(e.operands[i], values))
  }

  lemma {:induction false} FoldError(op: Operator, a: real, rest: seq<real>)
    ensures Fold(op, a, rest).Err? ==> Fold(op, a, rest).error == DivideByZero
    decreases |rest|
  {
    if rest != [] && Combine(op, a, rest[0]).Ok? {
      FoldError(op, Combine(op, a, rest[0]).value, rest[1..]);
    }
  }

  /** An expression accepted against a contract, run on any numeric record of
      that shape, fails only by division by zero, overflow or a bad index. */
  lemma {:induction false} AcceptedFailures(e: Expr, values: Values, contract: FieldContract)
    requires Schema(e) && LeavesLegal(e, contract) && Conforms(values, contract)
    ensures Evaluate(e, values).Err? ==>
              Evaluate(e, values).error in {DivideByZero, Overflow, IndexOutOfRange}
    decreases e
  {
    if e.Node? {
      var r := EvaluateAll(e.operands, values);
      if r.Err? {
        var i :| 0 <= i < |e.operands| && Evaluate(e.operands[i], values) == Err(r.error);
        AcceptedFailures(e.operands[i], values, contract);
      } else {
        FoldError(e.op, if e.op.Add? then 0.0 else 1.0, r.value);
      }
    }
  }

  lemma {:induction false} SuccessWithinLimit(e: Expr, values: Values)
    requires Schema(e) && Evaluate(e, values).Ok?
    ensures AllWithinLimit(e, values)
    decreases e
  {
    if e.Node? {
      forall i | 0 <= i < |e.operands| ensures AllWithinLimit(e.operands[i], values) {
        SuccessWithinLimit(e.operands[i], values);
      }
    }
  }
}
