/** The one-line text of an answer expression, and what a reader of that line
    computes: a calculator that splits the line into tokens and applies
    left-associative operators in three tiers, + and -, then × and ÷, then /. */
module ExpressionDisplay {
  import opened Outcomes
  import opened Arithmetic
  import opened DecimalFormat
  import opened Expression

  /** An expression whose atoms have been looked up. */
  datatype Tree = Atom(number: Rational) | Branch(op: Operator, operands: seq<Tree>)

  predicate Shaped(t: Tree) {
    t.Branch? ==> Arity(t.op, |t.operands|) && forall i | 0 <= i < |t.operands| :: Shaped(t.operands[i])
  }

  /** Atoms are evaluated left to right as the line is written. */
  function Ground(e: Expr, values: Values): (r: Result<Tree, ExprError>)
    requires Schema(e)
    ensures r.Ok? ==> Shaped(r.value)
    decreases e, 1
  {
    if e.Node? then
      var operands :- GroundAll(e.operands, values);
      Ok(Branch(e.op, operands))
    else
      var number :- AtomNumber(e, values);
      var _ :- CheckMagnitude(number.Value());
      Ok(Atom(number))
  }

  function GroundAll(es: seq<Expr>, values: Values): (r: Result<seq<Tree>, ExprError>)
    requires forall i | 0 <= i < |es| :: Schema(es[i])
    ensures r.Ok? ==> |r.value| == |es| && forall i | 0 <= i < |es| :: Ground(es[i], values) == Ok(r.value[i])
    ensures r.Ok? ==> forall i | 0 <= i < |es| :: Shaped(r.value[i])
    decreases es, 0
  {
    if es == [] then Ok([])
    else
      var first :- Ground(es[0], values);
      var rest :- GroundAll(es[1..], values);
      Ok([first] + rest)
  }

  // ----- the printer -----

  function Precedence(op: Operator): nat {
    match op
    case Add => 1 case Subtract => 1
    case Multiply => 2 case Divide => 2
    case Ratio => 3
  }

  predicate NonAssociative(op: Operator) {
    op.Subtract? || op.Divide? || op.Ratio?
  }

  predicate NeedsParentheses(child: Operator, parent: Option<Operator>, isRight: bool) {
    parent.Some?
    && (Precedence(child) < Precedence(parent.value)
        || (Precedence(child) == Precedence(parent.value) && isRight && NonAssociative(parent.value)))
  }

  function Symbol(op: Operator): char {
    match op
    case Add => '+' case Subtract => '-' case Multiply => '×' case Divide => '÷' case Ratio => '/'
  }

  function Separator(op: Operator): string {
    if op.Ratio? then "/" else " " + [Symbol(op)] + " "
  }

  function Display(t: Tree, parent: Option<Operator>, isRight: bool): string
    requires Shaped(t)
    decreases t, 1
  {
    if t.Atom? then Format(t.number)
    else
      var text := DisplayOperands(t.op, t.operands, false);
      if NeedsParentheses(t.op, parent, isRight) then "(" + (text + ")") else text
  }

  function DisplayOperands(op: Operator, operands: seq<Tree>, isRight: bool): string
    requires forall i | 0 <= i < |operands| :: Shaped(operands[i])
    requires operands != []
    decreases operands, 0
  {
    var first := Display(operands[0], Some(op), isRight);
    if |operands| == 1 then first
    else first + (Separator(op) + DisplayOperands(op, operands[1..], true))
  }

  function ExpressionDisplay(e: Expr, values: Values): Result<string, ExprError>
    requires Schema(e)
  {
    var tree :- Ground(e, values);
    Ok(Display(tree, None, false))
  }

  // ----- exact value, without the magnitude limit -----

  /** `None` is an undefined value: a division by zero somewhere. */
  type Quantity = Option<real>

  function Times(a: real, b: real): real { a * b }

  function Apply(op: Operator, a: Quantity, b: Quantity): Quantity {
    if a.None? || b.None? then None
    else match op
         case Add => Some(a.value + b.value)
         case Subtract => Some(a.value - b.value)
         case Multiply => Some(Times(a.value, b.value))
         case _ => if b.value == 0.0 then None else Some(a.value / b.value)
  }

  function Exact(t: Tree): Quantity
    requires Shaped(t)
    decreases t, 1
  {
    if t.Atom? then Some(t.number.Value())
    else match t.op
         case Add => ApplyAll(Add, Some(0.0), t.operands)
         case Multiply => ApplyAll(Multiply, Some(1.0), t.operands)
         case _ => Apply(t.op, Exact(t.operands[0]), Exact(t.operands[1]))
  }

  function ApplyAll(op: Operator, acc: Quantity, operands: seq<Tree>): Quantity
    requires forall i | 0 <= i < |operands| :: Shaped(operands[i])
    decreases operands, 0
  {
    if operands == [] then acc
    else ApplyAll(op, Apply(op, acc, Exact(operands[0])), operands[1..])
  }

  // ----- the reader of the line -----

  datatype Token = Num(value: real) | Op(op: Operator) | Open | Close

  function OperatorAt(c: char): Option<Operator> {
    if c == '+' then Some(Add) else if c == '-' then Some(Subtract)
    else if c == '×' then Some(Multiply) else if c == '÷' then Some(Divide) else None
  }

  /** Numbers carry their own minus sign; the four spaced symbols are binary. */
  function NextToken(s: string): (r: Option<(Token, nat)>)
    requires s != ""
    ensures r.Some? ==> 0 < r.value.1 <= |s|
  {
    if s[0] == '(' then Some((Open, 1))
    else if s[0] == ')' then Some((Close, 1))
    else if s[0] == '/' then Some((Op(Ratio), 1))
    else if s[0] == ' ' then
      if |s| >= 3 && s[2] == ' ' && OperatorAt(s[1]).Some? then Some((Op(OperatorAt(s[1]).value), 3)) else None
    else match ScanDecimal(s)
         case Some(scan) => Some((Num(scan.value), scan.length))
         case None => None
  }

  function Tokenize(s: string): Option<seq<Token>>
    decreases |s|
  {
    if s == "" then Some([])
    else match NextToken(s)
         case None => None
         case Some((token, length)) => Prepend([token], Tokenize(s[length..]))
  }

  function Prepend(front: seq<Token>, rest: Option<seq<Token>>): Option<seq<Token>> {
    match rest
    case None => None
    case Some(tokens) => Some(front + tokens)
  }

  datatype Reading = Reading(value: Quantity, rest: seq<Token>)

  /** A parenthesised sum must end at its closing parenthesis. */
  function CloseOff(inner: Option<Reading>): (r: Option<Reading>)
    ensures r.Some? ==> inner.Some? && |r.value.rest| < |inner.value.rest|
  {
    if inner.Some? && inner.value.rest != [] && inner.value.rest[0] == Close
    then Some(Reading(inner.value.value, inner.value.rest[1..])) else None
  }

  /** Tier 4 is a number or a parenthesised sum; a lower tier is a chain of the
      next tier's readings joined by that tier's operators. */
  function Read(tier: nat, ts: seq<Token>): (r: Option<Reading>)
    requires 1 <= tier <= 4
    ensures r.Some? ==> |r.value.rest| < |ts|
    decreases |ts|, 4 - tier, 1
  {
    if ts == [] then None
    else if tier == 4 then
      match ts[0]
      case Num(x) => Some(Reading(Some(x), ts[1..]))
      case Open =>
        CloseOff(Read(1, ts[1..]))
      case _ => None
    else
      match Read(tier + 1, ts)
      case None => None
      case Some(first) => Chain(tier, first.value, first.rest)
  }

  predicate StartsWithTier(tier: nat, ts: seq<Token>) {
    ts != [] && ts[0].Op? && Precedence(ts[0].op) == tier
  }

  function Chain(tier: nat, acc: Quantity, ts: seq<Token>): (r: Option<Reading>)
    requires 1 <= tier <= 3
    ensures r.Some? ==> |r.value.rest| <= |ts|
    decreases |ts|, 4 - tier, 0
  {
    if !StartsWithTier(tier, ts) then Some(Reading(acc, ts))
    else Continue(tier, acc, ts[0].op, ts[1..])
  }

  /** After an operator: the right operand, then the rest of the chain. */
  function Continue(tier: nat, acc: Quantity, op: Operator, ts: seq<Token>): (r: Option<Reading>)
    requires 1 <= tier <= 3
    ensures r.Some? ==> |r.value.rest| < |ts|
    decreases |ts|, 4 - tier, 2
  {
    match Read(tier + 1, ts)
    case None => None
    case Some(next) => Chain(tier, Apply(op, acc, next.value), next.rest)
  }

  /** What the whole line is worth; `None` when it is not a well-formed line. */
  function Calculate(line: string): Option<Quantity> {
    match Tokenize(line)
    case None => None
    case Some(tokens) =>
      match Read(1, tokens)
      case Some(reading) => if reading.rest == [] then Some(reading.value) else None
      case None => None
  }

  // ----- the tokens of a displayed tree -----

  function AtomTokens(number: Rational): seq<Token> {
    if PrintsAsRatio(number) then [Num(number.numerator as real), Op(Ratio), Num(number.denominator as real)]
    else [Num(number.Value())]
  }

  function Tokens(t: Tree, parent: Option<Operator>, isRight: bool): seq<Token>
    requires Shaped(t)
    decreases t, 1
  {
    if t.Atom? then AtomTokens(t.number)
    else
      var inner := OperandTokens(t.op, t.operands, false);
      if NeedsParentheses(t.op, parent, isRight) then [Open] + (inner + [Close]) else inner
  }

  function OperandTokens(op: Operator, operands: seq<Tree>, isRight: bool): seq<Token>
    requires forall i | 0 <= i < |operands| :: Shaped(operands[i])
    requires operands != []
    decreases operands, 0
  {
    var first := Tokens(operands[0], Some(op), isRight);
    if |operands| == 1 then first
    else first + ([Op(op)] + OperandTokens(op, operands[1..], true))
  }

  /** Text that may follow a displayed operand. */
  ghost predicate Boundary(rest: string) {
    rest == "" || rest[0] == ' ' || rest[0] == ')' || rest[0] == '/'
  }

  lemma PrependPrepend(a: seq<Token>, b: seq<Token>, rest: Option<seq<Token>>)
    ensures Prepend(a, Prepend(b, rest)) == Prepend(a + b, rest)
  {
    if rest.Some? {
      assert a + (b + rest.value) == (a + b) + rest.value;
    }
  }

  lemma TokenizeNumber(text: string, rest: string, value: real)
    requires ScanDecimal(text + rest) == Some(Scan(value, |text|))
    ensures Tokenize(text + rest) == Prepend([Num(value)], Tokenize(rest))
  {
    assert (text + rest)[|text|..] == rest;
    var c := (text + rest)[0];
    assert c == '-' || IsDigit(c);
  }

  lemma TokenizeQuotient(top: string, bottom: string, n: real, d: real, rest: string)
    requires ScanDecimal(top + ("/" + (bottom + rest))) == Some(Scan(n, |top|))
    requires ScanDecimal(bottom + rest) == Some(Scan(d, |bottom|))
    ensures Tokenize(top + ("/" + (bottom + rest))) == Prepend([Num(n), Op(Ratio), Num(d)], Tokenize(rest))
  {
    assert Separator(Ratio) == "/";
    hide *;
    TokenizeNumber(top, "/" + (bottom + rest), n);
    TokenizeSeparator(Ratio, bottom + rest);
    TokenizeNumber(bottom, rest, d);
    PrependPrepend([Op(Ratio)], [Num(d)], Tokenize(rest));
    PrependPrepend([Num(n)], [Op(Ratio)] + [Num(d)], Tokenize(rest));
    assert [Num(n)] + ([Op(Ratio)] + [Num(d)]) == [Num(n), Op(Ratio), Num(d)];
  }

  lemma TokenizeRatio(number: Rational, rest: string)
    requires PrintsAsRatio(number) && Boundary(rest)
    ensures Tokenize(Format(number) + rest) == Prepend(AtomTokens(number), Tokenize(rest))
  {
    hide ScanDecimal;
    var top, bottom := RatioTop(number), Digits(number.denominator);
    ScanFormattedRatio(number, rest);
    assert (top + "/" + bottom) + rest == top + ("/" + (bottom + rest));
    TokenizeQuotient(top, bottom, number.numerator as real, number.denominator as real, rest);
  }

  lemma TokenizeAtom(number: Rational, rest: string)
    requires Boundary(rest)
    ensures Tokenize(Format(number) + rest) == Prepend(AtomTokens(number), Tokenize(rest))
  {
    if PrintsAsRatio(number) {
      TokenizeRatio(number, rest);
    } else {
      ScanFormattedDecimal(number, rest);
      TokenizeNumber(Format(number), rest, number.Value());
    }
  }

  lemma TokenizeSeparator(op: Operator, rest: string)
    ensures Tokenize(Separator(op) + rest) == Prepend([Op(op)], Tokenize(rest))
    ensures Boundary(Separator(op) + rest)
  {
  }

  /** The line splits into exactly the tokens of the tree. */
  lemma {:induction false} TokenizeDisplay(t: Tree, parent: Option<Operator>, isRight: bool, rest: string)
    requires Shaped(t) && Boundary(rest)
    ensures Tokenize(Display(t, parent, isRight) + rest) == Prepend(Tokens(t, parent, isRight), Tokenize(rest))
    decreases t, 1
  {
    if t.Atom? {
      TokenizeAtom(t.number, rest);
    } else if NeedsParentheses(t.op, parent, isRight) {
      var text, inner := DisplayOperands(t.op, t.operands, false), OperandTokens(t.op, t.operands, false);
      TokenizeOperands(t.op, t.operands, false, ")" + rest);
      TokenizeWrapped(text, inner, rest);
    } else {
      TokenizeOperands(t.op, t.operands, false, rest);
    }
  }

  lemma TokenizeWrapped(text: string, inner: seq<Token>, rest: string)
    requires Tokenize(text + (")" + rest)) == Prepend(inner, Tokenize(")" + rest))
    ensures Tokenize("(" + (text + ")") + rest) == Prepend([Open] + (inner + [Close]), Tokenize(rest))
  {
    TokenizeParenthesis('(', text + (")" + rest));
    TokenizeParenthesis(')', rest);
    assert "(" + (text + ")") + rest == "(" + (text + (")" + rest));
    PrependPrepend(inner, [Close], Tokenize(rest));
    PrependPrepend([Open], inner + [Close], Tokenize(rest));
  }

  lemma TokenizeParenthesis(c: char, rest: string)
    requires c == '(' || c == ')'
    ensures Tokenize([c] + rest) == Prepend([if c == '(' then Open else Close], Tokenize(rest))
  {
    assert ([c] + rest)[1..] == rest;
  }

  lemma {:induction false} TokenizeOperands(op: Operator, operands: seq<Tree>, isRight: bool, rest: string)
    requires forall i | 0 <= i < |operands| :: Shaped(operands[i])
    requires operands != [] && Boundary(rest)
    ensures Tokenize(DisplayOperands(op, operands, isRight) + rest)
         == Prepend(OperandTokens(op, operands, isRight), Tokenize(rest))
    decreases operands, 0
  {
    if |operands| == 1 {
      TokenizeDisplay(operands[0], Some(op), isRight, rest);
    } else {
      var first, others := Display(operands[0], Some(op), isRight), DisplayOperands(op, operands[1..], true);
      var tail := Separator(op) + (others + rest);
      TokenizeSeparator(op, others + rest);
      TokenizeDisplay(operands[0], Some(op), isRight, tail);
      TokenizeOperands(op, operands[1..], true, rest);
      assert first + (Separator(op) + others) + rest == first + tail;
      var otherTokens := OperandTokens(op, operands[1..], true);
      PrependPrepend([Op(op)], otherTokens, Tokenize(rest));
      PrependPrepend(Tokens(operands[0], Some(op), isRight), [Op(op)] + otherTokens, Tokenize(rest));
    }
  }

  // ----- the tokens read back to the value -----

  /** The tier at which a displayed operand stands on the line. */
  function ShownTier(t: Tree, parent: Option<Operator>, isRight: bool): nat {
    if t.Atom? then (if PrintsAsRatio(t.number) then 3 else 4)
    else if NeedsParentheses(t.op, parent, isRight) then 4
    else Precedence(t.op)
  }

  /** No fraction has an atom printing as a ratio for its denominator. */
  predicate Readable(t: Tree)
    requires Shaped(t)
  {
    t.Branch? ==>
      && (forall i | 0 <= i < |t.operands| :: Readable(t.operands[i]))
      && (t.op.Ratio? ==> !(t.operands[1].Atom? && PrintsAsRatio(t.operands[1].number)))
  }

  /** Nothing that binds tighter than the tier follows. */
  ghost predicate Loose(tier: nat, rest: seq<Token>) {
    forall k | tier < k <= 3 :: !StartsWithTier(k, rest)
  }

  /** The operand may stand after the operator without parentheses of its own. */
  ghost predicate Fits(op: Operator, t: Tree, isRight: bool) {
    var shown := ShownTier(t, Some(op), isRight);
    shown >= Precedence(op) && (isRight && NonAssociative(op) ==> shown > Precedence(op))
  }

  lemma OperandFits(t: Tree, i: nat)
    requires Shaped(t) && Readable(t) && t.Branch? && i < |t.operands|
    ensures Fits(t.op, t.operands[i], i > 0)
  {
  }

  /** Chaining an associative operator before a same-tier chain regroups freely. */
  lemma Reassociate(outer: Operator, inner: Operator, a: Quantity, b: Quantity, c: Quantity)
    requires !NonAssociative(outer) && Precedence(outer) == Precedence(inner)
    ensures Apply(outer, a, Apply(inner, b, c)) == Apply(inner, Apply(outer, a, b), c)
  {
    if a.Some? && b.Some? && c.Some? && outer.Multiply? {
      RegroupProduct(inner, a.value, b.value, c.value);
    }
  }

  lemma RegroupProduct(inner: Operator, a: real, b: real, c: real)
    requires inner.Multiply? || inner.Divide?
    ensures Apply(Multiply, Some(a), Apply(inner, Some(b), Some(c)))
         == Apply(inner, Apply(Multiply, Some(a), Some(b)), Some(c))
  {
    if inner.Multiply? {
      TimesAssociates(a, b, c);
    } else if c != 0.0 {
      TimesQuotient(a, b, c);
    }
  }

  lemma TimesAssociates(a: real, b: real, c: real)
    ensures Times(a, Times(b, c)) == Times(Times(a, b), c)
  {
    ProductAssociates(a, b, c, Times(a, b), Times(b, c));
  }

  lemma ProductAssociates(a: real, b: real, c: real, ab: real, bc: real)
    requires ab == a * b && bc == b * c
    ensures a * bc == ab * c
  {
  }

  lemma TimesQuotient(a: real, b: real, c: real)
    requires c != 0.0
    ensures Times(a, b / c) == Times(a, b) / c
  {
    var quotient := b / c;
    assert quotient * c == b;
    assert (a * quotient) * c == a * (quotient * c);
  }

  lemma {:induction false} ReassociateAll(outer: Operator, inner: Operator, a: Quantity, b: Quantity, operands: seq<Tree>)
    requires forall i | 0 <= i < |operands| :: Shaped(operands[i])
    requires !NonAssociative(outer) && Precedence(outer) == Precedence(inner)
    ensures Apply(outer, a, ApplyAll(inner, b, operands)) == ApplyAll(inner, Apply(outer, a, b), operands)
    decreases |operands|
  {
    if operands != [] {
      var c := Exact(operands[0]);
      ReassociateAll(outer, inner, a, Apply(inner, b, c), operands[1..]);
      Reassociate(outer, inner, a, b, c);
    }
  }

  lemma ExactFromFirst(t: Tree)
    requires Shaped(t) && t.Branch?
    ensures Exact(t) == ApplyAll(t.op, Exact(t.operands[0]), t.operands[1..])
  {
  }

  /** A displayed operand reads, at any tier up to its own, to its exact value. */
  lemma {:induction false} ReadOperand(t: Tree, parent: Option<Operator>, isRight: bool, tier: nat, rest: seq<Token>)
    requires Shaped(t) && Readable(t)
    requires 1 <= tier <= ShownTier(t, parent, isRight) && Loose(tier, rest)
    ensures Read(tier, Tokens(t, parent, isRight) + rest)
         == if tier == 4 then Some(Reading(Exact(t), rest)) else Chain(tier, Exact(t), rest)
    decreases t, if ShownTier(t, parent, isRight) == 4 then 1 else 0, 5 - tier
  {
    var shown := ShownTier(t, parent, isRight);
    if tier < shown {
      ReadOperand(t, parent, isRight, tier + 1, rest);
      assert !StartsWithTier(tier + 1, rest);
    } else if t.Atom? {
      ReadAtom(t, tier, rest);
    } else if shown == 4 {
      ReadOperand(t, None, false, 1, [Close] + rest);
      ReadWrapped(OperandTokens(t.op, t.operands, false), Exact(t), rest);
    } else {
      ReadChain(t, rest);
    }
  }

  lemma ReadAtom(t: Tree, tier: nat, rest: seq<Token>)
    requires t.Atom? && tier == (if PrintsAsRatio(t.number) then 3 else 4)
    ensures Read(tier, AtomTokens(t.number) + rest)
         == if tier == 4 then Some(Reading(Exact(t), rest)) else Chain(tier, Exact(t), rest)
  {
    var ts := AtomTokens(t.number) + rest;
    if tier == 4 {
      assert ts[1..] == rest;
    } else {
      var n, d := t.number.numerator as real, t.number.denominator as real;
      var tail := [Op(Ratio), Num(d)] + rest;
      assert ts[1..] == tail && tail[1..] == [Num(d)] + rest && ([Num(d)] + rest)[1..] == rest;
      assert Read(4, ts) == Some(Reading(Some(n), tail));
      assert Chain(3, Some(n), tail) == Continue(3, Some(n), Ratio, [Num(d)] + rest);
      assert Read(4, [Num(d)] + rest) == Some(Reading(Some(d), rest));
    }
  }

  lemma ReadOpen(ts: seq<Token>)
    requires ts != [] && ts[0] == Open
    ensures Read(4, ts) == CloseOff(Read(1, ts[1..]))
  {
  }

  lemma ReadWrapped(inner: seq<Token>, value: Quantity, rest: seq<Token>)
    requires Read(1, inner + ([Close] + rest)) == Chain(1, value, [Close] + rest)
    ensures Read(4, [Open] + (inner + [Close]) + rest) == Some(Reading(value, rest))
  {
    hide Read, Continue;
    var ts, after := [Open] + (inner + [Close]) + rest, [Close] + rest;
    DropOpen(inner, rest);
    ReadOpen(ts);
    assert Chain(1, value, after) == Some(Reading(value, after));
  }

  lemma DropOpen(inner: seq<Token>, rest: seq<Token>)
    ensures ([Open] + (inner + [Close]) + rest)[1..] == inner + ([Close] + rest)
    ensures ([Close] + rest)[1..] == rest
  {
  }

  /** An unparenthesised chain: its first operand, then each of the others. */
  lemma {:induction false} ReadChain(t: Tree, rest: seq<Token>)
    requires Shaped(t) && Readable(t) && t.Branch? && Loose(Precedence(t.op), rest)
    ensures Read(Precedence(t.op), OperandTokens(t.op, t.operands, false) + rest)
         == Chain(Precedence(t.op), Exact(t), rest)
    decreases t, 0, 0
  {
    var others := OperandTokens(t.op, t.operands[1..], true) + rest;
    OperandFits(t, 0);
    ReadOperand(t.operands[0], Some(t.op), false, Precedence(t.op), [Op(t.op)] + others);
    SplitOperands(t.op, t.operands, false, rest);
    assert ([Op(t.op)] + others)[1..] == others;
    RestFits(t);
    ContinueRest(t.op, t.operands[1..], Exact(t.operands[0]), rest);
    ExactFromFirst(t);
  }

  lemma SplitOperands(op: Operator, operands: seq<Tree>, isRight: bool, rest: seq<Token>)
    requires forall i | 0 <= i < |operands| :: Shaped(operands[i])
    requires |operands| > 1
    ensures OperandTokens(op, operands, isRight) + rest
         == Tokens(operands[0], Some(op), isRight) + ([Op(op)] + (OperandTokens(op, operands[1..], true) + rest))
  {
  }

  ghost predicate AllFit(op: Operator, operands: seq<Tree>)
    requires forall i | 0 <= i < |operands| :: Shaped(operands[i])
  {
    forall i | 0 <= i < |operands| :: Readable(operands[i]) && Fits(op, operands[i], true)
  }

  lemma RestFits(t: Tree)
    requires Shaped(t) && Readable(t) && t.Branch?
    ensures AllFit(t.op, t.operands[1..])
  {
  }

  /** Each right operand in turn extends the chain by one application. */
  lemma {:induction false} ContinueRest(op: Operator, operands: seq<Tree>, acc: Quantity, rest: seq<Token>)
    requires forall i | 0 <= i < |operands| :: Shaped(operands[i])
    requires operands != [] && AllFit(op, operands) && Loose(Precedence(op), rest)
    ensures Continue(Precedence(op), acc, op, OperandTokens(op, operands, true) + rest)
         == Chain(Precedence(op), ApplyAll(op, acc, operands), rest)
    decreases operands, 0
  {
    var first := operands[0];
    assert Fits(op, first, true);
    if |operands| == 1 {
      ContinueOperand(op, op, first, true, acc, rest);
      assert ApplyAll(op, acc, operands) == ApplyAll(op, Apply(op, acc, Exact(first)), []);
    } else {
      var others := OperandTokens(op, operands[1..], true) + rest;
      SplitOperands(op, operands, true, rest);
      ContinueOperand(op, op, first, true, acc, [Op(op)] + others);
      assert ([Op(op)] + others)[1..] == others;
      ContinueRest(op, operands[1..], Apply(op, acc, Exact(first)), rest);
    }
  }

  /** An operand after an operator: one reading when it binds tighter, otherwise a
      same-tier chain whose omitted parentheses do not change the value. */
  lemma {:induction false} ContinueOperand(
    outer: Operator, parent: Operator, t: Tree, isRight: bool, acc: Quantity, rest: seq<Token>)
    requires Shaped(t) && Readable(t) && Precedence(outer) == Precedence(parent)
    requires ShownTier(t, Some(parent), isRight) >= Precedence(outer)
    requires NonAssociative(outer) ==> ShownTier(t, Some(parent), isRight) > Precedence(outer)
    requires Loose(Precedence(outer), rest)
    ensures Continue(Precedence(outer), acc, outer, Tokens(t, Some(parent), isRight) + rest)
         == Chain(Precedence(outer), Apply(outer, acc, Exact(t)), rest)
    decreases t, 2
  {
    var tier := Precedence(outer);
    if ShownTier(t, Some(parent), isRight) > tier {
      ReadOperand(t, Some(parent), isRight, tier + 1, rest);
      assert tier < 3 ==> !StartsWithTier(tier + 1, rest);
    } else {
      ContinueChain(outer, t, acc, rest);
    }
  }

  lemma {:induction false} ContinueChain(outer: Operator, t: Tree, acc: Quantity, rest: seq<Token>)
    requires Shaped(t) && Readable(t) && t.Branch? && Precedence(t.op) == Precedence(outer)
    requires !NonAssociative(outer) && Loose(Precedence(outer), rest)
    ensures Continue(Precedence(outer), acc, outer, OperandTokens(t.op, t.operands, false) + rest)
         == Chain(Precedence(outer), Apply(outer, acc, Exact(t)), rest)
    decreases t, 1
  {
    var first := t.operands[0];
    var others := OperandTokens(t.op, t.operands[1..], true) + rest;
    OperandFits(t, 0);
    SplitOperands(t.op, t.operands, false, rest);
    ContinueOperand(outer, t.op, first, false, acc, [Op(t.op)] + others);
    assert ([Op(t.op)] + others)[1..] == others;
    RestFits(t);
    ContinueRest(t.op, t.operands[1..], Apply(outer, acc, Exact(first)), rest);
    ReassociateAll(outer, t.op, acc, Exact(first), t.operands[1..]);
    ExactFromFirst(t);
  }

  // ----- main results -----

  /** The displayed line, recomputed by an ordinary reader, has exactly the
      tree's value, undefined divisions included. */
  lemma DisplayPreservesValue(t: Tree)
    requires Shaped(t) && Readable(t)
    ensures Calculate(Display(t, None, false)) == Some(Exact(t))
  {
    var line, tokens := Display(t, None, false), Tokens(t, None, false);
    assert line + "" == line && tokens + [] == tokens;
    TokenizeDisplay(t, None, false, "");
    ReadOperand(t, None, false, 1, []);
  }

  lemma {:induction false} GroundAllSucceeds(es: seq<Expr>, values: Values)
    requires forall i | 0 <= i < |es| :: Schema(es[i]) && Ground(es[i], values).Ok?
    ensures GroundAll(es, values).Ok?
    decreases |es|
  {
    if es != [] {
      GroundAllSucceeds(es[1..], values);
    }
  }

  lemma {:induction false} FoldIsApplyAll(op: Operator, acc: real, operands: seq<Tree>, reals: seq<real>)
    requires |operands| == |reals|
    requires forall i | 0 <= i < |operands| :: Shaped(operands[i]) && Exact(operands[i]) == Some(reals[i])
    ensures ApplyAll(op, Some(acc), operands)
         == if Fold(op, acc, reals).Ok? then Some(Fold(op, acc, reals).value) else None
    decreases |operands|
  {
    if operands != [] {
      var step := Combine(op, acc, reals[0]);
      if step.Ok? {
        FoldIsApplyAll(op, step.value, operands[1..], reals[1..]);
      } else {
        UndefinedStays(op, operands[1..]);
      }
    }
  }

  lemma {:induction false} UndefinedStays(op: Operator, operands: seq<Tree>)
    requires forall i | 0 <= i < |operands| :: Shaped(operands[i])
    ensures ApplyAll(op, None, operands) == None
    decreases |operands|
  {
    if operands != [] {
      UndefinedStays(op, operands[1..]);
    }
  }

  lemma {:induction false} UndefinedOperand(op: Operator, acc: Quantity, operands: seq<Tree>, i: nat)
    requires forall j | 0 <= j < |operands| :: Shaped(operands[j])
    requires i < |operands| && Exact(operands[i]) == None
    ensures ApplyAll(op, acc, operands) == None
    decreases |operands|
  {
    if i == 0 {
      UndefinedStays(op, operands[1..]);
    } else {
      UndefinedOperand(op, Apply(op, acc, Exact(operands[0])), operands[1..], i - 1);
    }
  }

  /** The capped evaluator, where it answers, answers with the exact value; and
      where it fails by dividing by zero the value is undefined. An undefined value
      may also be reported as another failure, when a limit is hit first. */
  lemma {:induction false} EvaluateIsExact(e: Expr, values: Values)
    requires Schema(e)
    ensures Evaluate(e, values).Ok? ==>
              Ground(e, values).Ok? && Exact(Ground(e, values).value) == Some(Evaluate(e, values).value)
    ensures Evaluate(e, values) == Err(DivideByZero) && Ground(e, values).Ok? ==>
              Exact(Ground(e, values).value) == None
    decreases e
  {
    if e.Node? {
      forall i | 0 <= i < |e.operands|
        ensures Evaluate(e.operands[i], values).Ok? ==>
                  Ground(e.operands[i], values).Ok?
                  && Exact(Ground(e.operands[i], values).value) == Some(Evaluate(e.operands[i], values).value)
        ensures Evaluate(e.operands[i], values) == Err(DivideByZero) && Ground(e.operands[i], values).Ok? ==>
                  Exact(Ground(e.operands[i], values).value) == None
      {
        EvaluateIsExact(e.operands[i], values);
      }
      var reals := EvaluateAll(e.operands, values);
      if reals.Ok? {
        GroundAllSucceeds(e.operands, values);
        OperateIsExact(Ground(e, values).value, reals.value);
      } else if reals.error == DivideByZero && Ground(e, values).Ok? {
        var i :| 0 <= i < |e.operands| && Evaluate(e.operands[i], values) == Err(DivideByZero);
        UndefinedIn(Ground(e, values).value, i);
      }
    }
  }

  lemma OperateIsExact(t: Tree, reals: seq<real>)
    requires Shaped(t) && t.Branch? && |reals| == |t.operands|
    requires forall i | 0 <= i < |reals| :: Exact(t.operands[i]) == Some(reals[i])
    ensures Exact(t) == if Operate(t.op, reals).Ok? then Some(Operate(t.op, reals).value) else None
  {
    if t.op.Add? {
      FoldIsApplyAll(Add, 0.0, t.operands, reals);
    } else if t.op.Multiply? {
      FoldIsApplyAll(Multiply, 1.0, t.operands, reals);
    }
  }

  lemma UndefinedIn(t: Tree, i: nat)
    requires Shaped(t) && t.Branch? && i < |t.operands| && Exact(t.operands[i]) == None
    ensures Exact(t) == None
  {
    if t.op.Add? {
      UndefinedOperand(Add, Some(0.0), t.operands, i);
    } else if t.op.Multiply? {
      UndefinedOperand(Multiply, Some(1.0), t.operands, i);
    }
  }

  /** The displayed line of an expression is worth what the evaluator says. */
  lemma DisplayAgreesWithEvaluate(e: Expr, values: Values, line: string)
    requires Schema(e) && ExpressionDisplay(e, values) == Ok(line)
    requires Readable(Ground(e, values).value)
    ensures Evaluate(e, values).Ok? ==> Calculate(line) == Some(Some(Evaluate(e, values).value))
    ensures Evaluate(e, values) == Err(DivideByZero) ==> Calculate(line) == Some(None)
  {
    EvaluateIsExact(e, values);
    DisplayPreservesValue(Ground(e, values).value);
  }

  // ----- what any line is worth -----

  /** A fraction over an atom printing as p/d is read as (n / p) / d. */
  predicate Misread(t: Tree)
    requires Shaped(t)
  {
    t.Branch? && t.op.Ratio? && t.operands[1].Atom? && PrintsAsRatio(t.operands[1].number)
  }

  /** (n / p) / d */
  function Quotients(n: Tree, p: int, d: int): (t: Tree)
    requires Shaped(n)
    ensures Shaped(t)
  {
    var inner := Branch(Ratio, [n, Atom(Whole(p))]);
    assert Shaped(inner);
    Branch(Ratio, [inner, Atom(Whole(d))])
  }

  /** The tree the line is read as. */
  function Regroup(t: Tree): (r: Tree)
    requires Shaped(t)
    ensures Shaped(r) && (t.Atom? ==> r == t) && (t.Branch? ==> r.Branch? && r.op == t.op)
    decreases t, 1
  {
    if t.Atom? then t
    else if Misread(t) then
      Quotients(Regroup(t.operands[0]), t.operands[1].number.numerator, t.operands[1].number.denominator)
    else Branch(t.op, RegroupAll(t.operands))
  }

  function RegroupAll(ts: seq<Tree>): (rs: seq<Tree>)
    requires forall i | 0 <= i < |ts| :: Shaped(ts[i])
    ensures |rs| == |ts| && forall i | 0 <= i < |ts| :: rs[i] == Regroup(ts[i])
    ensures forall i | 0 <= i < |rs| :: Shaped(rs[i])
    decreases ts, 0
  {
    if ts == [] then [] else [Regroup(ts[0])] + RegroupAll(ts[1..])
  }

  lemma {:induction false} RegroupReadable(t: Tree)
    requires Shaped(t)
    ensures Readable(Regroup(t))
    decreases t
  {
    if t.Branch? {
      if Misread(t) {
        RegroupReadable(t.operands[0]);
        QuotientsReadable(Regroup(t.operands[0]), t.operands[1].number);
      } else {
        hide PrintsAsRatio;
        forall i | 0 <= i < |t.operands|
          ensures Readable(Regroup(t.operands[i]))
        {
          RegroupReadable(t.operands[i]);
        }
      }
    }
  }

  lemma QuotientsReadable(n: Tree, q: Rational)
    requires Shaped(n) && Readable(n)
    ensures Readable(Quotients(n, q.numerator, q.denominator))
  {
    UnitDenominator(Whole(q.numerator));
    UnitDenominator(Whole(q.denominator));
    hide PrintsAsRatio, Whole;
    assert Readable(Branch(Ratio, [n, Atom(Whole(q.numerator))]));
  }

  /** A readable tree is read as it is. */
  lemma {:induction false} ReadableStays(t: Tree)
    requires Shaped(t) && Readable(t)
    ensures Regroup(t) == t
    decreases t
  {
    if t.Branch? {
      forall i | 0 <= i < |t.operands|
        ensures Regroup(t.operands[i]) == t.operands[i]
      {
        ReadableStays(t.operands[i]);
      }
      assert RegroupAll(t.operands) == t.operands;
    }
  }

  lemma WholeTokens(k: int)
    ensures AtomTokens(Whole(k)) == [Num(k as real)]
  {
    UnitDenominator(Whole(k));
  }

  lemma RatioTokens(n: Tree, q: Rational, parent: Option<Operator>, isRight: bool)
    requires Shaped(n)
    ensures Tokens(Branch(Ratio, [n, Atom(q)]), parent, isRight)
         == var inner := Tokens(n, Some(Ratio), false) + ([Op(Ratio)] + AtomTokens(q));
            if NeedsParentheses(Ratio, parent, isRight) then [Open] + (inner + [Close]) else inner
  {
    var operands := [n, Atom(q)];
    assert operands[1..] == [Atom(q)];
    assert OperandTokens(Ratio, [Atom(q)], true) == AtomTokens(q);
  }

  /** Regrouping does not change the line's tokens. */
  lemma {:induction false} SameTokens(t: Tree, parent: Option<Operator>, isRight: bool)
    requires Shaped(t)
    ensures Tokens(Regroup(t), parent, isRight) == Tokens(t, parent, isRight)
    decreases t, 1
  {
    if t.Branch? {
      if Misread(t) {
        SameTokens(t.operands[0], Some(Ratio), false);
        assert t == Branch(Ratio, [t.operands[0], t.operands[1]]);
        SplitRatioTokens(t.operands[0], Regroup(t.operands[0]), t.operands[1].number, parent, isRight);
      } else {
        SameOperandTokens(t.op, t.operands, false);
      }
    }
  }

  lemma SplitRatioTokens(n: Tree, m: Tree, q: Rational, parent: Option<Operator>, isRight: bool)
    requires Shaped(n) && Shaped(m) && PrintsAsRatio(q)
    requires Tokens(m, Some(Ratio), false) == Tokens(n, Some(Ratio), false)
    ensures Tokens(Quotients(m, q.numerator, q.denominator), parent, isRight)
         == Tokens(Branch(Ratio, [n, Atom(q)]), parent, isRight)
  {
    var inner := Branch(Ratio, [m, Atom(Whole(q.numerator))]);
    assert Shaped(inner);
    RatioTokens(n, q, parent, isRight);
    RatioTokens(inner, Whole(q.denominator), parent, isRight);
    RatioTokens(m, Whole(q.numerator), Some(Ratio), false);
    WholeTokens(q.numerator);
    WholeTokens(q.denominator);
    RatioAtomTokens(q);
    hide Tokens, AtomTokens, PrintsAsRatio, Whole;
    TwoSlashes(Tokens(n, Some(Ratio), false), Num(q.numerator as real), Num(q.denominator as real));
  }

  lemma RatioAtomTokens(q: Rational)
    requires PrintsAsRatio(q)
    ensures AtomTokens(q) == [Num(q.numerator as real), Op(Ratio), Num(q.denominator as real)]
  {
  }

  lemma TwoSlashes(first: seq<Token>, p: Token, d: Token)
    ensures (first + ([Op(Ratio)] + [p])) + ([Op(Ratio)] + [d]) == first + ([Op(Ratio)] + [p, Op(Ratio), d])
  {
  }

  lemma {:induction false} SameOperandTokens(op: Operator, ts: seq<Tree>, isRight: bool)
    requires ts != [] && forall i | 0 <= i < |ts| :: Shaped(ts[i])
    ensures OperandTokens(op, RegroupAll(ts), isRight) == OperandTokens(op, ts, isRight)
    decreases ts, 0
  {
    SameTokens(ts[0], Some(op), isRight);
    if |ts| > 1 {
      SameOperandTokens(op, ts[1..], true);
      assert RegroupAll(ts)[1..] == RegroupAll(ts[1..]);
    }
  }

  /** What any displayed line is worth: the exact value of its tree with every
      fraction n over p/d, where p/d is an atom printed as a ratio, regrouped as
      (n / p) / d, at any depth. */
  lemma LineIsRegrouped(t: Tree)
    requires Shaped(t)
    ensures Readable(Regroup(t)) && Calculate(Display(t, None, false)) == Some(Exact(Regroup(t)))
  {
    var r := Regroup(t);
    RegroupReadable(t);
    DisplayPreservesValue(r);
    SameTokens(t, None, false);
    TokenizeDisplay(t, None, false, "");
    TokenizeDisplay(r, None, false, "");
    var ours, theirs := Display(t, None, false), Display(r, None, false);
    hide Display, Tokens, Tokenize, Regroup;
    assert ours + "" == ours && theirs + "" == theirs;
  }

  // ----- the excluded shape: a ratio over an atom that itself prints as a ratio -----

  lemma UnitDenominator(q: Rational)
    requires q.denominator == 1
    ensures !PrintsAsRatio(q)
  {
    assert Strip(1, 2) == (0, 1);
    assert Strip(1, 5) == (0, 1);
  }

  lemma ZeroNumerator(q: Rational)
    requires q.numerator == 0
    ensures q.denominator == 1
  {
    var d := q.denominator;
    assert Gcd(0, d) == Gcd(d, 0 % d);
    assert Gcd(d, 0) == d;
  }

  lemma PrintedRatioParts(q: Rational)
    requires PrintsAsRatio(q)
    ensures q.numerator != 0 && q.denominator >= 2
  {
    if q.denominator == 1 {
      UnitDenominator(q);
    } else if q.numerator == 0 {
      ZeroNumerator(q);
    }
  }

  /** How the line of such a fraction is read: (n / p) / d. */
  lemma ReadRatioOverRatio(n: Tree, q: Rational)
    requires Shaped(n) && Readable(n) && PrintsAsRatio(q)
    ensures Calculate(Display(Branch(Ratio, [n, Atom(q)]), None, false))
         == Some(Apply(Ratio, Apply(Ratio, Exact(n), Some(q.numerator as real)), Some(q.denominator as real)))
  {
    LineIsRegrouped(Branch(Ratio, [n, Atom(q)]));
    RegroupedRatio(n, q);
    hide *;
    ExactQuotients(n, q.numerator, q.denominator);
  }

  lemma RegroupedRatio(n: Tree, q: Rational)
    requires Shaped(n) && Readable(n) && PrintsAsRatio(q)
    ensures Shaped(Branch(Ratio, [n, Atom(q)]))
    ensures Regroup(Branch(Ratio, [n, Atom(q)])) == Quotients(n, q.numerator, q.denominator)
  {
    ReadableStays(n);
    hide PrintsAsRatio, Whole, Readable;
  }

  lemma ExactQuotients(n: Tree, p: int, d: int)
    requires Shaped(n)
    ensures Exact(Quotients(n, p, d)) == Apply(Ratio, Apply(Ratio, Exact(n), Some(p as real)), Some(d as real))
  {
    hide Exact, Apply, Whole, Shaped;
    ExactQuotient(n, p);
    ExactQuotient(Branch(Ratio, [n, Atom(Whole(p))]), d);
  }

  lemma ExactQuotient(n: Tree, k: int)
    requires Shaped(n)
    ensures Shaped(Branch(Ratio, [n, Atom(Whole(k))]))
    ensures Exact(Branch(Ratio, [n, Atom(Whole(k))])) == Apply(Ratio, Exact(n), Some(k as real))
  {
    assert Exact(Atom(Whole(k))) == Some(k as real);
  }

  lemma DoubleQuotient(x: real, p: real, d: real)
    requires p != 0.0 && d >= 2.0
    ensures x / p / d == x / (p / d) <==> x == 0.0
  {
    var left, inner := x / p / d, p / d;
    var right := x / inner;
    assert inner * d == p && (left * d) * p == x && right * inner == x;
    if left == right {
      assert (left * d) * (inner * d) == left * inner;
      assert x * (d * d) == x;
      assert x * (d * d - 1.0) == 0.0;
      assert d * d >= 4.0;
    }
  }

  /** A fraction over an atom keeps its value on the line exactly when the atom
      does not print as a ratio, or the numerator is zero or undefined. */
  lemma RatioOverAtomIff(n: Tree, q: Rational)
    requires Shaped(n) && Readable(n)
    ensures var t := Branch(Ratio, [n, Atom(q)]);
            Calculate(Display(t, None, false)) == Some(Exact(t))
            <==> !PrintsAsRatio(q) || Exact(n) == None || Exact(n) == Some(0.0)
  {
    var t := Branch(Ratio, [n, Atom(q)]);
    if !PrintsAsRatio(q) {
      DisplayPreservesValue(t);
    } else {
      ReadRatioOverRatio(n, q);
      PrintedRatioParts(q);
      if Exact(n).Some? {
        DoubleQuotient(Exact(n).value, q.numerator as real, q.denominator as real);
      }
    }
  }

  ghost function Two(): Rational {
    assert Gcd(2, 1) == Gcd(1, 0) == 1;
    Fraction(2, 1)
  }

  ghost function Third(): Rational {
    assert Gcd(1, 3) == Gcd(3, 1) == Gcd(1, 0) == 1;
    Fraction(1, 3)
  }

  ghost function TwoOverAThird(): Tree {
    Branch(Ratio, [Atom(Two()), Atom(Third())])
  }

  lemma FormatTwo()
    ensures Format(Two()) == "2" && !PrintsAsRatio(Two())
  {
    UnitDenominator(Two());
    assert Strip(1, 2) == (0, 1) && Strip(1, 5) == (0, 1);
    assert Twos(Two()) == 0 && Fives(Two()) == 0;
    assert Pow(10, 0) == 1;
    assert Scaled(Two()) == 2;
    hide Strip, Scaled, Pow, Twos, Fives, Gcd;
    assert Digits(2) == "2";
    assert ScaledDigits(Two()) == "2";
  }

  lemma FormatThird()
    ensures Format(Third()) == "1/3" && PrintsAsRatio(Third())
  {
  }

  lemma FormatExamples()
    ensures Format(Two()) == "2" && !PrintsAsRatio(Two())
    ensures Format(Third()) == "1/3" && PrintsAsRatio(Third())
  {
    hide *;
    FormatTwo();
    FormatThird();
  }

  lemma TwoOverAThirdText()
    ensures Shaped(TwoOverAThird())
    ensures Display(TwoOverAThird(), None, false) == "2/1/3"
  {
    FormatExamples();
    hide Format, PrintsAsRatio, Two, Third;
    var t := TwoOverAThird();
    assert t.operands[1..] == [t.operands[1]];
    assert DisplayOperands(Ratio, t.operands[1..], true) == "1/3";
    assert Display(t.operands[0], Some(Ratio), false) == "2";
  }

  /** 2 over the value 1/3 prints `2/1/3`, which reads as 2/3 instead of 6. */
  lemma RatioOverRatioExample()
    ensures Shaped(TwoOverAThird())
    ensures Display(TwoOverAThird(), None, false) == "2/1/3"
    ensures Exact(TwoOverAThird()) == Some(6.0)
    ensures Calculate(Display(TwoOverAThird(), None, false)) == Some(Some(2.0 / 3.0))
  {
    TwoOverAThirdText();
    FormatExamples();
    hide Display, Calculate, Format, PrintsAsRatio;
    ReadRatioOverRatio(Atom(Two()), Third());
  }
}
