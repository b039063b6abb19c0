/** Which parentheses a displayed line has: exactly those without which some choice
    of numbers changes what the line is worth, and those around a product that is
    the numerator of a fraction, which never do. */
module DisplayParentheses {
  import opened Outcomes
  import opened DecimalFormat
  import opened Expression
  import opened ExpressionDisplay

  // ----- lines written without parentheses -----

  function Joined(op: Operator, texts: seq<string>): string
    requires texts != []
  {
    if |texts| == 1 then texts[0] else texts[0] + (Separator(op) + Joined(op, texts[1..]))
  }

  function Texts(numbers: seq<Rational>): (texts: seq<string>)
    ensures |texts| == |numbers| && forall k | 0 <= k < |texts| :: texts[k] == Format(numbers[k])
  {
    seq(|numbers|, k requires 0 <= k < |numbers| => Format(numbers[k]))
  }

  function Atoms(numbers: seq<Rational>): (ts: seq<Tree>)
    ensures |ts| == |numbers| && forall k | 0 <= k < |ts| :: ts[k] == Atom(numbers[k])
  {
    seq(|numbers|, k requires 0 <= k < |numbers| => Atom(numbers[k]))
  }

  /** An operation on numbers, as one operand of another operation. */
  function Nested(parent: Operator, before: seq<Rational>, child: Operator, inner: seq<Rational>, after: seq<Rational>): Tree {
    Branch(parent, Atoms(before) + [Branch(child, Atoms(inner))] + Atoms(after))
  }

  /** Its line with no parentheses at all. */
  function BareLine(
    parent: Operator, before: seq<Rational>, child: Operator, inner: seq<Rational>, after: seq<Rational>): string
    requires inner != []
  {
    Joined(parent, Texts(before) + [Joined(child, Texts(inner))] + Texts(after))
  }

  predicate Plain(numbers: seq<Rational>) {
    forall k | 0 <= k < |numbers| :: !PrintsAsRatio(numbers[k])
  }

  ghost predicate Fitting(parent: Operator, before: seq<Rational>, child: Operator, inner: seq<Rational>, after: seq<Rational>) {
    && Arity(parent, |before| + 1 + |after|) && Arity(child, |inner|)
    && Plain(before) && Plain(inner) && Plain(after)
  }

  /** Without parentheses the line is worth something else than the expression. */
  ghost predicate Changes(parent: Operator, before: seq<Rational>, child: Operator, inner: seq<Rational>, after: seq<Rational>) {
    && Fitting(parent, before, child, inner, after)
    && (NestedShaped(parent, before, child, inner, after);
        Calculate(BareLine(parent, before, child, inner, after)) != Some(Exact(Nested(parent, before, child, inner, after))))
  }

  /** An operation of m operands needs parentheses as the i-th of the n operands of
      another one: for some numbers, printed as decimals, they make a difference. */
  ghost predicate Matters(parent: Operator, n: nat, i: nat, child: Operator, m: nat) {
    exists before, inner, after ::
      |before| == i && |after| == n - 1 - i && |inner| == m && Changes(parent, before, child, inner, after)
  }

  lemma NestedShaped(parent: Operator, before: seq<Rational>, child: Operator, inner: seq<Rational>, after: seq<Rational>)
    requires Fitting(parent, before, child, inner, after)
    ensures Shaped(Nested(parent, before, child, inner, after)) && Readable(Nested(parent, before, child, inner, after))
  {
    var middle := Branch(child, Atoms(inner));
    FlatShaped(child, inner);
    var operands := Atoms(before) + [middle] + Atoms(after);
    forall k | 0 <= k < |operands|
      ensures Shaped(operands[k]) && Readable(operands[k])
      ensures !(operands[k].Atom? && PrintsAsRatio(operands[k].number))
    {
      if k < |before| {
        assert operands[k] == Atom(before[k]);
      } else if k > |before| {
        assert operands[k] == Atom(after[k - |before| - 1]);
      }
    }
  }

  lemma FlatShaped(op: Operator, numbers: seq<Rational>)
    requires Arity(op, |numbers|) && Plain(numbers)
    ensures Shaped(Branch(op, Atoms(numbers))) && Readable(Branch(op, Atoms(numbers)))
  {
  }

  // ----- a printed operation is its operands' texts, joined -----

  function Shown(op: Operator, operands: seq<Tree>, isRight: bool): (texts: seq<string>)
    requires forall i | 0 <= i < |operands| :: Shaped(operands[i])
    ensures |texts| == |operands|
  {
    seq(|operands|, k requires 0 <= k < |operands| => Display(operands[k], Some(op), isRight || k > 0))
  }

  lemma {:induction false} DisplayIsJoined(op: Operator, operands: seq<Tree>, isRight: bool)
    requires operands != [] && forall i | 0 <= i < |operands| :: Shaped(operands[i])
    ensures DisplayOperands(op, operands, isRight) == Joined(op, Shown(op, operands, isRight))
    decreases |operands|
  {
    hide Display, Separator;
    if |operands| > 1 {
      DisplayIsJoined(op, operands[1..], true);
      assert Shown(op, operands, isRight)[1..] == Shown(op, operands[1..], true);
    }
  }

  lemma FlatText(op: Operator, numbers: seq<Rational>)
    requires Arity(op, |numbers|)
    ensures Shaped(Branch(op, Atoms(numbers)))
    ensures DisplayOperands(op, Atoms(numbers), false) == Joined(op, Texts(numbers))
  {
    hide Format, Separator;
    DisplayIsJoined(op, Atoms(numbers), false);
    assert Shown(op, Atoms(numbers), false) == Texts(numbers);
  }

  // ----- joining texts -----

  function Lead(op: Operator, texts: seq<string>): string {
    if texts == [] then "" else texts[0] + (Separator(op) + Lead(op, texts[1..]))
  }

  function Trail(op: Operator, texts: seq<string>): string {
    if texts == [] then "" else Separator(op) + (texts[0] + Trail(op, texts[1..]))
  }

  lemma {:induction false} JoinedTrail(op: Operator, text: string, after: seq<string>)
    ensures Joined(op, [text] + after) == text + Trail(op, after)
    decreases |after|
  {
    hide Separator;
    assert ([text] + after)[1..] == after;
    if after != [] {
      JoinedTrail(op, after[0], after[1..]);
      assert [after[0]] + after[1..] == after;
    } else {
      assert text + "" == text;
    }
  }

  lemma {:induction false} JoinedAround(op: Operator, before: seq<string>, text: string, after: seq<string>)
    ensures Joined(op, before + [text] + after) == Lead(op, before) + (text + Trail(op, after))
    decreases |before|
  {
    hide Separator;
    var all := before + [text] + after;
    if before == [] {
      JoinedTrail(op, text, after);
      assert all == [text] + after;
      assert "" + (text + Trail(op, after)) == text + Trail(op, after);
    } else {
      JoinedAround(op, before[1..], text, after);
      assert all[1..] == before[1..] + [text] + after;
      Regrouped(before[0], Separator(op), Lead(op, before[1..]), text + Trail(op, after));
    }
  }

  lemma Regrouped(a: string, b: string, c: string, d: string)
    ensures a + (b + (c + d)) == (a + (b + c)) + d
  {
  }

  lemma {:induction false} TrailSnoc(op: Operator, texts: seq<string>, last: string)
    ensures Trail(op, texts + [last]) == Trail(op, texts) + (Separator(op) + last)
    decreases |texts|
  {
    hide Separator;
    if texts == [] {
      assert Trail(op, [last]) == Separator(op) + (last + "");
      assert last + "" == last;
    } else {
      TrailSnoc(op, texts[1..], last);
      assert (texts + [last])[1..] == texts[1..] + [last];
      Regrouped(Separator(op), texts[0], Trail(op, texts[1..]), Separator(op) + last);
    }
  }

  lemma JoinedEnds(op: Operator, first: string, middle: seq<string>, last: string)
    ensures Joined(op, [first] + middle + [last]) == first + (Trail(op, middle) + (Separator(op) + last))
  {
    assert [first] + middle + [last] == [first] + (middle + [last]);
    JoinedTrail(op, first, middle + [last]);
    TrailSnoc(op, middle, last);
  }

  /** What stands before and after a joined text goes to its first and last part. */
  lemma JoinedInside(op: Operator, lead: string, first: string, middle: seq<string>, last: string, trail: string)
    ensures lead + (Joined(op, [first] + middle + [last]) + trail) == Joined(op, [lead + first] + middle + [last + trail])
  {
    JoinedEnds(op, first, middle, last);
    JoinedEnds(op, lead + first, middle, last + trail);
    hide Joined, Trail, Separator;
    var mid, sep := Trail(op, middle), Separator(op);
    assert lead + ((first + (mid + (sep + last))) + trail) == (lead + first) + (mid + (sep + (last + trail)));
  }

  // ----- how a line without parentheses is read -----

  function LeftEnd(op: Operator, before: seq<Rational>, first: Rational): Tree {
    if before == [] then Atom(first) else Branch(op, Atoms(before + [first]))
  }

  function RightEnd(op: Operator, last: Rational, after: seq<Rational>): Tree {
    if after == [] then Atom(last) else Branch(op, Atoms([last] + after))
  }

  /** The parent's operator takes the child's outer operands. */
  function TakenApart(
    parent: Operator, before: seq<Rational>, child: Operator, first: Rational, middle: seq<Rational>, last: Rational,
    after: seq<Rational>): Tree
  {
    Branch(child, [LeftEnd(parent, before, first)] + Atoms(middle) + [RightEnd(parent, last, after)])
  }

  lemma LeftEndText(parent: Operator, before: seq<Rational>, first: Rational, child: Operator)
    requires before == [] || Arity(parent, |before| + 1)
    requires Plain(before) && !PrintsAsRatio(first) && Precedence(parent) >= Precedence(child)
    ensures var t := LeftEnd(parent, before, first);
            && Shaped(t) && Readable(t) && (t.Atom? ==> !PrintsAsRatio(t.number))
            && Display(t, Some(child), false) == Lead(parent, Texts(before)) + Format(first)
  {
    hide Format, Separator, Joined, PrintsAsRatio;
    if before == [] {
      assert "" + Format(first) == Format(first);
    } else {
      FlatText(parent, before + [first]);
      FlatShaped(parent, before + [first]);
      assert Texts(before + [first]) == Texts(before) + [Format(first)] + [];
      JoinedAround(parent, Texts(before), Format(first), []);
      assert Format(first) + "" == Format(first);
    }
  }

  lemma RightEndText(parent: Operator, last: Rational, after: seq<Rational>, child: Operator)
    requires after == [] || (Arity(parent, |after| + 1) && Precedence(parent) > Precedence(child))
    requires Plain(after) && !PrintsAsRatio(last)
    ensures var t := RightEnd(parent, last, after);
            && Shaped(t) && Readable(t) && (t.Atom? ==> !PrintsAsRatio(t.number))
            && Display(t, Some(child), true) == Format(last) + Trail(parent, Texts(after))
  {
    hide Format, Separator, Joined, PrintsAsRatio;
    if after == [] {
      assert Format(last) + "" == Format(last);
    } else {
      FlatText(parent, [last] + after);
      FlatShaped(parent, [last] + after);
      assert Texts([last] + after) == [Format(last)] + Texts(after);
      JoinedTrail(parent, Format(last), Texts(after));
    }
  }

  lemma BareText(
    parent: Operator, before: seq<Rational>, child: Operator, first: Rational, middle: seq<Rational>, last: Rational,
    after: seq<Rational>)
    ensures BareLine(parent, before, child, [first] + middle + [last], after)
         == Joined(child,
                   [Lead(parent, Texts(before)) + Format(first)] + Texts(middle) + [Format(last) + Trail(parent, Texts(after))])
  {
    hide Format, Separator, Joined, Lead, Trail;
    var inner := [first] + middle + [last];
    assert Texts(inner) == [Format(first)] + Texts(middle) + [Format(last)];
    JoinedAround(parent, Texts(before), Joined(child, Texts(inner)), Texts(after));
    JoinedInside(child, Lead(parent, Texts(before)), Format(first), Texts(middle), Format(last), Trail(parent, Texts(after)));
  }

  lemma EndsText(child: Operator, left: Tree, middle: seq<Rational>, right: Tree)
    requires Shaped(left) && Shaped(right) && Arity(child, |middle| + 2)
    requires Shaped(Branch(child, [left] + Atoms(middle) + [right]))
    ensures Display(Branch(child, [left] + Atoms(middle) + [right]), None, false)
         == Joined(child, [Display(left, Some(child), false)] + Texts(middle) + [Display(right, Some(child), true)])
  {
    hide Format, Separator, Joined, NeedsParentheses;
    var operands := [left] + Atoms(middle) + [right];
    DisplayIsJoined(child, operands, false);
    var texts := [Display(left, Some(child), false)] + Texts(middle) + [Display(right, Some(child), true)];
    forall k | 0 <= k < |operands|
      ensures Display(operands[k], Some(child), false || k > 0) == texts[k]
    {
      if 0 < k < |operands| - 1 {
        assert operands[k] == Atom(middle[k - 1]);
      }
    }
    assert Shown(child, operands, false) == texts;
    TopIsBare(Branch(child, operands));
  }

  lemma TopIsBare(t: Tree)
    requires Shaped(t) && t.Branch?
    ensures Display(t, None, false) == DisplayOperands(t.op, t.operands, false)
  {
  }

  lemma TakenApartText(
    parent: Operator, before: seq<Rational>, child: Operator, first: Rational, middle: seq<Rational>, last: Rational,
    after: seq<Rational>)
    requires Fitting(parent, before, child, [first] + middle + [last], after)
    requires Precedence(parent) > Precedence(child) || (Precedence(parent) == Precedence(child) && after == [])
    ensures
      var t := TakenApart(parent, before, child, first, middle, last, after);
      && Shaped(t) && Readable(t)
      && Display(t, None, false) == BareLine(parent, before, child, [first] + middle + [last], after)
  {
    hide Format, Separator, Joined, PrintsAsRatio, Lead, Trail, LeftEnd, RightEnd, BareLine, Display, Shaped, Readable;
    var inner := [first] + middle + [last];
    assert inner[0] == first && inner[|inner| - 1] == last && forall k :: 0 <= k < |middle| ==> inner[k + 1] == middle[k];
    LeftEndText(parent, before, first, child);
    RightEndText(parent, last, after, child);
    var left, right := LeftEnd(parent, before, first), RightEnd(parent, last, after);
    TakenApartShaped(child, left, middle, right);
    EndsText(child, left, middle, right);
    BareText(parent, before, child, first, middle, last, after);
  }

  lemma TakenApartShaped(child: Operator, left: Tree, middle: seq<Rational>, right: Tree)
    requires Arity(child, |middle| + 2) && Plain(middle)
    requires Shaped(left) && Readable(left) && Shaped(right) && Readable(right)
    requires right.Atom? ==> !PrintsAsRatio(right.number)
    ensures Shaped(Branch(child, [left] + Atoms(middle) + [right])) && Readable(Branch(child, [left] + Atoms(middle) + [right]))
  {
    hide PrintsAsRatio;
    var operands := [left] + Atoms(middle) + [right];
    forall k | 0 <= k < |operands|
      ensures Shaped(operands[k]) && Readable(operands[k])
    {
      if 0 < k < |operands| - 1 {
        assert operands[k] == Atom(middle[k - 1]);
      }
    }
  }

  // ----- no parentheses: the value stays -----

  lemma AtomText(number: Rational, parent: Option<Operator>, isRight: bool)
    ensures Display(Atom(number), parent, isRight) == Format(number)
  {
  }

  lemma AroundOne(before: seq<Rational>, middle: Tree, after: seq<Rational>, parent: Operator)
    requires Shaped(middle)
    ensures forall t :: t in Atoms(before) + [middle] + Atoms(after) ==> Shaped(t)
    ensures Shown(parent, Atoms(before) + [middle] + Atoms(after), false)
         == Texts(before) + [Display(middle, Some(parent), before != [])] + Texts(after)
  {
    hide Format, Display;
    var operands := Atoms(before) + [middle] + Atoms(after);
    var texts := Texts(before) + [Display(middle, Some(parent), before != [])] + Texts(after);
    forall k | 0 <= k < |operands|
      ensures Shaped(operands[k]) && Display(operands[k], Some(parent), k > 0) == texts[k]
    {
      if k < |before| {
        assert operands[k] == Atom(before[k]) && texts[k] == Format(before[k]);
        AtomText(before[k], Some(parent), k > 0);
      } else if k > |before| {
        var q := after[k - |before| - 1];
        assert operands[k] == Atom(q) && texts[k] == Format(q);
        AtomText(q, Some(parent), true);
      }
    }
  }

  lemma UnwrappedText(
    parent: Operator, before: seq<Rational>, child: Operator, inner: seq<Rational>, after: seq<Rational>)
    requires Fitting(parent, before, child, inner, after) && !NeedsParentheses(child, Some(parent), before != [])
    ensures Shaped(Nested(parent, before, child, inner, after))
    ensures Display(Nested(parent, before, child, inner, after), None, false) == BareLine(parent, before, child, inner, after)
  {
    NestedShaped(parent, before, child, inner, after);
    FlatText(child, inner);
    var middle := Branch(child, Atoms(inner));
    assert Display(middle, Some(parent), before != []) == Joined(child, Texts(inner)) by {
      hide Joined, DisplayOperands;
    }
    hide Format, Joined, Shaped, Display, DisplayOperands, Fitting, NeedsParentheses, Texts;
    AroundOne(before, middle, after, parent);
    DisplayIsJoined(parent, Atoms(before) + [middle] + Atoms(after), false);
    TopIsBare(Nested(parent, before, child, inner, after));
  }

  lemma UnwrappedKeeps(parent: Operator, n: nat, i: nat, child: Operator, m: nat)
    requires !NeedsParentheses(child, Some(parent), i > 0)
    ensures !Matters(parent, n, i, child, m)
  {
    hide NeedsParentheses, Calculate, Display, BareLine, Nested, Exact;
    forall before: seq<Rational>, inner: seq<Rational>, after: seq<Rational> |
      |before| == i && Fitting(parent, before, child, inner, after)
      ensures !Changes(parent, before, child, inner, after)
    {
      NestedShaped(parent, before, child, inner, after);
      UnwrappedText(parent, before, child, inner, after);
      DisplayPreservesValue(Nested(parent, before, child, inner, after));
    }
  }

  // ----- a product over a number -----

  lemma {:induction false} ApplySnoc(op: Operator, acc: Quantity, ts: seq<Tree>, t: Tree)
    requires Shaped(t) && forall i | 0 <= i < |ts| :: Shaped(ts[i])
    ensures ApplyAll(op, acc, ts + [t]) == Apply(op, ApplyAll(op, acc, ts), Exact(t))
    decreases |ts|
  {
    hide Exact, Apply;
    if ts == [] {
      assert [] + [t] == [t] && [t][1..] == [];
      assert ApplyAll(op, Apply(op, acc, Exact(t)), []) == Apply(op, acc, Exact(t));
    } else {
      assert (ts + [t])[1..] == ts[1..] + [t];
      ApplySnoc(op, Apply(op, acc, Exact(ts[0])), ts[1..], t);
    }
  }

  /** (x × y) / d == x × (y / d), and both are undefined when d is zero. */
  lemma ProductOver(x: Quantity, y: Quantity, d: Quantity)
    ensures Apply(Ratio, Apply(Multiply, x, y), d) == Apply(Multiply, x, Apply(Ratio, y, d))
  {
    if x.Some? && y.Some? && d.Some? && d.value != 0.0 {
      TimesQuotient(x.value, y.value, d.value);
    }
  }

  lemma ProductExact(front: seq<Tree>, last: Tree)
    requires Arity(Multiply, |front| + 1) && Shaped(last) && forall i | 0 <= i < |front| :: Shaped(front[i])
    ensures Shaped(Branch(Multiply, front + [last]))
    ensures Exact(Branch(Multiply, front + [last])) == Apply(Multiply, ApplyAll(Multiply, Some(1.0), front), Exact(last))
  {
    hide Apply, ApplyAll;
    ApplySnoc(Multiply, Some(1.0), front, last);
  }

  lemma Decompose(inner: seq<Rational>) returns (middle: seq<Rational>)
    requires |inner| >= 2
    ensures inner == [inner[0]] + middle + [inner[|inner| - 1]]
  {
    middle := inner[1..|inner| - 1];
  }

  lemma ProductNumeratorExact(first: Rational, middle: seq<Rational>, last: Rational, d: Rational)
    requires Arity(Multiply, |middle| + 2)
    ensures
      var t := TakenApart(Ratio, [], Multiply, first, middle, last, [d]);
      var u := Nested(Ratio, [], Multiply, [first] + middle + [last], [d]);
      Shaped(t) && Shaped(u) && Exact(t) == Exact(u)
  {
    hide Apply, ApplyAll;
    var front, x, over := Atoms([first] + middle), Atom(last), Branch(Ratio, [Atom(last), Atom(d)]);
    assert Atoms([first] + middle + [last]) == front + [x];
    assert Atoms([last] + [d]) == [Atom(last), Atom(d)];
    assert [Atom(first)] + Atoms(middle) + [over] == front + [over];
    ProductExact(front, x);
    ProductExact(front, over);
    var product := Branch(Multiply, front + [x]);
    assert Atoms([]) + [product] + Atoms([d]) == [product, Atom(d)];
    ProductOver(ApplyAll(Multiply, Some(1.0), front), Exact(x), Exact(Atom(d)));
  }

  /** Around a product that is a numerator they never matter. */
  lemma ProductNumerator(m: nat)
    ensures !Matters(Ratio, 2, 0, Multiply, m)
  {
    hide Calculate, Display, BareLine, Nested, Exact, Joined, TakenApart, Shaped;
    forall before: seq<Rational>, inner: seq<Rational>, after: seq<Rational> |
      before == [] && |after| == 1 && Fitting(Ratio, before, Multiply, inner, after)
      ensures !Changes(Ratio, before, Multiply, inner, after)
    {
      NestedShaped(Ratio, before, Multiply, inner, after);
      var middle := Decompose(inner);
      var first, last := inner[0], inner[|inner| - 1];
      TakenApartText(Ratio, [], Multiply, first, middle, last, after);
      DisplayPreservesValue(TakenApart(Ratio, [], Multiply, first, middle, last, after));
      ProductNumeratorExact(first, middle, last, after[0]);
      assert after == [after[0]];
    }
  }

  // ----- parentheses that matter -----

  function Neutral(op: Operator): Rational {
    if op.Add? || op.Subtract? then Whole(0) else Whole(1)
  }

  function Neutrals(op: Operator, k: nat): (numbers: seq<Rational>)
    ensures |numbers| == k && forall i | 0 <= i < k :: numbers[i] == Neutral(op)
  {
    seq(k, i => Neutral(op))
  }

  lemma {:induction false} NeutralsStay(op: Operator, acc: Quantity, k: nat)
    ensures ApplyAll(op, acc, Atoms(Neutrals(op, k))) == acc
    decreases k
  {
    var ts := Atoms(Neutrals(op, k));
    if k > 0 {
      assert ts[1..] == Atoms(Neutrals(op, k - 1));
      NeutralsStay(op, acc, k - 1);
      assert Exact(ts[0]) == Some(Neutral(op).Value());
      NeutralApplied(op, acc);
    }
  }

  lemma NeutralApplied(op: Operator, acc: Quantity)
    ensures Apply(op, acc, Some(Neutral(op).Value())) == acc
  {
    assert Neutral(op).Value() == if op.Add? || op.Subtract? then 0.0 else 1.0;
    if acc.Some? {
      assert Times(acc.value, 1.0) == acc.value;
    }
  }

  /** Among neutral numbers, the first operand and one other make up the whole. */
  lemma SpreadExact(op: Operator, left: Tree, j: nat, right: Tree, k: nat)
    requires Arity(op, j + k + 2) && Shaped(left) && Shaped(right)
    ensures Shaped(Branch(op, [left] + Atoms(Neutrals(op, j)) + [right] + Atoms(Neutrals(op, k))))
    ensures Exact(Branch(op, [left] + Atoms(Neutrals(op, j)) + [right] + Atoms(Neutrals(op, k))))
         == Apply(op, Exact(left), Exact(right))
  {
    var front, back := Atoms(Neutrals(op, j)) + [right], Atoms(Neutrals(op, k));
    var t := Branch(op, [left] + Atoms(Neutrals(op, j)) + [right] + back);
    ExactFromFirst(t);
    hide Exact, Apply, ApplyAll;
    assert t.operands[0] == left && t.operands[1..] == front + back;
    ApplyConcat(op, Exact(left), front, back);
    ApplySnoc(op, Exact(left), Atoms(Neutrals(op, j)), right);
    NeutralsStay(op, Exact(left), j);
    NeutralsStay(op, Apply(op, Exact(left), Exact(right)), k);
  }

  lemma {:induction false} ApplyConcat(op: Operator, acc: Quantity, a: seq<Tree>, b: seq<Tree>)
    requires forall t | t in a + b :: Shaped(t)
    ensures ApplyAll(op, acc, a + b) == ApplyAll(op, ApplyAll(op, acc, a), b)
    decreases |a|
  {
    hide Exact, Apply;
    if a == [] {
      assert a + b == b;
    } else {
      assert (a + b)[0] == a[0] && (a + b)[1..] == a[1..] + b;
      ApplyConcat(op, Apply(op, acc, Exact(a[0])), a[1..], b);
    }
  }

  /** One child value and one neighbour that tell the two readings apart. */
  function Inner(child: Operator, m: nat): (inner: seq<Rational>)
    requires m >= 2
    ensures |inner| == m
  {
    [Whole(1)] + Neutrals(child, m - 2) + [Whole(2)]
  }

  function Before(parent: Operator, i: nat): (before: seq<Rational>)
    ensures |before| == i
  {
    if i == 0 then [] else [Whole(2)] + Neutrals(parent, i - 1)
  }

  function After(parent: Operator, n: nat, i: nat): (after: seq<Rational>)
    requires i < n && n >= 2
    ensures |after| == n - 1 - i
  {
    if i == 0 then [Whole(2)] + Neutrals(parent, n - 2) else Neutrals(parent, n - 1 - i)
  }

  function Integral(k: int): Quantity { Some(k as real) }

  lemma InnerExact(child: Operator, m: nat)
    requires Arity(child, m)
    ensures Shaped(Branch(child, Atoms(Inner(child, m))))
    ensures Exact(Branch(child, Atoms(Inner(child, m)))) == Apply(child, Integral(1), Integral(2))
  {
    var one, two := Atom(Whole(1)), Atom(Whole(2));
    SpreadExact(child, one, m - 2, two, 0);
    assert Atoms(Inner(child, m)) == [one] + Atoms(Neutrals(child, m - 2)) + [two] + Atoms(Neutrals(child, 0));
  }

  lemma WholeExact(k: int)
    ensures Exact(Atom(Whole(k))) == Integral(k) && !PrintsAsRatio(Whole(k))
  {
    UnitDenominator(Whole(k));
    hide PrintsAsRatio;
  }

  lemma WitnessFits(parent: Operator, n: nat, i: nat, child: Operator, m: nat)
    requires Arity(parent, n) && Arity(child, m) && i < n
    ensures Fitting(parent, Before(parent, i), child, Inner(child, m), After(parent, n, i))
  {
    WholeExact(0);
    WholeExact(1);
    WholeExact(2);
    hide PrintsAsRatio;
  }

  lemma FirstNestedExact(parent: Operator, n: nat, x: Tree)
    requires Arity(parent, n) && Shaped(x)
    ensures var t := Branch(parent, Atoms(Before(parent, 0)) + [x] + Atoms(After(parent, n, 0)));
            Shaped(t) && Exact(t) == Apply(parent, Exact(x), Integral(2))
  {
    WholeExact(2);
    hide Exact, Apply, PrintsAsRatio;
    var two := Atom(Whole(2));
    SpreadExact(parent, x, 0, two, n - 2);
    assert Atoms(Before(parent, 0)) + [x] + Atoms(After(parent, n, 0))
        == [x] + Atoms(Neutrals(parent, 0)) + [two] + Atoms(Neutrals(parent, n - 2));
  }

  lemma LaterNestedExact(parent: Operator, n: nat, i: nat, x: Tree)
    requires Arity(parent, n) && Shaped(x) && 0 < i < n
    ensures var t := Branch(parent, Atoms(Before(parent, i)) + [x] + Atoms(After(parent, n, i)));
            Shaped(t) && Exact(t) == Apply(parent, Integral(2), Exact(x))
  {
    WholeExact(2);
    hide Exact, Apply, PrintsAsRatio;
    var two := Atom(Whole(2));
    SpreadExact(parent, two, i - 1, x, n - 1 - i);
    assert Atoms(Before(parent, i)) == [two] + Atoms(Neutrals(parent, i - 1));
  }

  lemma NestedExact(parent: Operator, n: nat, i: nat, child: Operator, m: nat)
    requires Arity(parent, n) && Arity(child, m) && i < n
    ensures Shaped(Nested(parent, Before(parent, i), child, Inner(child, m), After(parent, n, i)))
    ensures
      var x := Apply(child, Integral(1), Integral(2));
      Exact(Nested(parent, Before(parent, i), child, Inner(child, m), After(parent, n, i)))
      == if i == 0 then Apply(parent, x, Integral(2)) else Apply(parent, Integral(2), x)
  {
    InnerExact(child, m);
    hide Exact, Apply, Inner, Before, After, Atoms;
    var x := Branch(child, Atoms(Inner(child, m)));
    if i == 0 {
      FirstNestedExact(parent, n, x);
    } else {
      LaterNestedExact(parent, n, i, x);
    }
  }

  lemma LeftEndExact(parent: Operator, n: nat, i: nat)
    requires Arity(parent, n) && i < n
    ensures Shaped(LeftEnd(parent, Before(parent, i), Whole(1)))
    ensures Exact(LeftEnd(parent, Before(parent, i), Whole(1))) == if i == 0 then Integral(1) else Apply(parent, Integral(2), Integral(1))
  {
    WholeExact(1);
    WholeExact(2);
    hide Exact, Apply, PrintsAsRatio;
    if i > 0 {
      var one, two := Atom(Whole(1)), Atom(Whole(2));
      SpreadExact(parent, two, i - 1, one, 0);
      assert Atoms(Before(parent, i) + [Whole(1)])
          == [two] + Atoms(Neutrals(parent, i - 1)) + [one] + Atoms(Neutrals(parent, 0));
    }
  }

  lemma RightEndExact(parent: Operator, n: nat, i: nat)
    requires Arity(parent, n) && i < n
    ensures Shaped(RightEnd(parent, Whole(2), After(parent, n, i)))
    ensures Exact(RightEnd(parent, Whole(2), After(parent, n, i)))
         == if i == 0 then Apply(parent, Integral(2), Integral(2)) else Integral(2)
  {
    WholeExact(2);
    hide Exact, Apply, PrintsAsRatio;
    var two, after := Atom(Whole(2)), After(parent, n, i);
    if i == 0 {
      SpreadExact(parent, two, 0, two, n - 2);
      assert Atoms([Whole(2)] + after) == [two] + Atoms(Neutrals(parent, 0)) + [two] + Atoms(Neutrals(parent, n - 2));
    } else if after != [] {
      var neutral, k := Atom(Neutral(parent)), |after| - 1;
      SpreadExact(parent, two, 0, neutral, k);
      NeutralExact(parent, two);
      assert Atoms([Whole(2)] + after) == [two] + Atoms(Neutrals(parent, 0)) + [neutral] + Atoms(Neutrals(parent, k));
    }
  }

  lemma NeutralExact(op: Operator, t: Tree)
    requires Shaped(t)
    ensures Apply(op, Exact(t), Exact(Atom(Neutral(op)))) == Exact(t)
  {
    NeutralApplied(op, Exact(t));
  }

  lemma TakenApartExact(parent: Operator, n: nat, i: nat, child: Operator, m: nat)
    requires Arity(parent, n) && Arity(child, m) && i < n
    ensures
      var t := TakenApart(parent, Before(parent, i), child, Whole(1), Neutrals(child, m - 2), Whole(2), After(parent, n, i));
      var left := if i == 0 then Integral(1) else Apply(parent, Integral(2), Integral(1));
      var right := if i == 0 then Apply(parent, Integral(2), Integral(2)) else Integral(2);
      Shaped(t) && Exact(t) == Apply(child, left, right)
  {
    LeftEndExact(parent, n, i);
    RightEndExact(parent, n, i);
    AnyEndsExact(parent, Before(parent, i), child, m, After(parent, n, i));
  }

  lemma AnyEndsExact(parent: Operator, before: seq<Rational>, child: Operator, m: nat, after: seq<Rational>)
    requires Arity(child, m)
    requires Shaped(LeftEnd(parent, before, Whole(1))) && Shaped(RightEnd(parent, Whole(2), after))
    ensures
      var t := TakenApart(parent, before, child, Whole(1), Neutrals(child, m - 2), Whole(2), after);
      Shaped(t)
      && Exact(t) == Apply(child, Exact(LeftEnd(parent, before, Whole(1))), Exact(RightEnd(parent, Whole(2), after)))
  {
    hide Exact, Apply, LeftEnd, RightEnd;
    var left, right := LeftEnd(parent, before, Whole(1)), RightEnd(parent, Whole(2), after);
    SpreadExact(child, left, m - 2, right, 0);
    assert [left] + Atoms(Neutrals(child, m - 2)) + [right]
        == [left] + Atoms(Neutrals(child, m - 2)) + [right] + Atoms(Neutrals(child, 0));
  }

  /** Where the printer writes parentheses, the two readings differ, but for a
      product as a numerator. */
  lemma ReadingsDiffer(parent: Operator, isLeft: bool, child: Operator)
    requires NeedsParentheses(child, Some(parent), !isLeft) && !(parent.Ratio? && isLeft && child.Multiply?)
    ensures
      var x := Apply(child, Integral(1), Integral(2));
      var exact := if isLeft then Apply(parent, x, Integral(2)) else Apply(parent, Integral(2), x);
      var left := if isLeft then Integral(1) else Apply(parent, Integral(2), Integral(1));
      var right := if isLeft then Apply(parent, Integral(2), Integral(2)) else Integral(2);
      exact != Apply(child, left, right)
  {
  }

  lemma WrappedMatters(parent: Operator, n: nat, i: nat, child: Operator, m: nat)
    requires Arity(parent, n) && Arity(child, m) && i < n
    requires NeedsParentheses(child, Some(parent), i > 0) && !(parent.Ratio? && i == 0 && child.Multiply?)
    ensures Matters(parent, n, i, child, m)
  {
    var before, inner, after := Before(parent, i), Inner(child, m), After(parent, n, i);
    WitnessFits(parent, n, i, child, m);
    ReadingsDiffer(parent, i == 0, child);
    assert Precedence(parent) > Precedence(child) || (Precedence(parent) == Precedence(child) && after == []);
    hide *;
    NestedShaped(parent, before, child, inner, after);
    NestedExact(parent, n, i, child, m);
    TakenApartExact(parent, n, i, child, m);
    TakenApartText(parent, before, child, Whole(1), Neutrals(child, m - 2), Whole(2), after);
    DisplayPreservesValue(TakenApart(parent, before, child, Whole(1), Neutrals(child, m - 2), Whole(2), after));
    assert Changes(parent, before, child, inner, after);
  }

  // ----- the reader is an ordinary one -----

  /** The slash binds tighter than × and ÷, and these tighter than + and -. */
  predicate BindsTighter(q: Operator, p: Operator) {
    || (q.Ratio? && !p.Ratio?)
    || ((q.Multiply? || q.Divide?) && (p.Add? || p.Subtract?))
  }

  /** Two operations on numbers written without parentheses: the tighter one first,
      and otherwise from left to right. */
  lemma TwoOperationsRead(a: Rational, p: Operator, b: Rational, q: Operator, c: Rational)
    requires Plain([a, b, c])
    ensures
      var x, y, z := Some(a.Value()), Some(b.Value()), Some(c.Value());
      Calculate(Format(a) + (Separator(p) + (Format(b) + (Separator(q) + Format(c)))))
      == Some(if BindsTighter(q, p) then Apply(p, x, Apply(q, y, z)) else Apply(q, Apply(p, x, y), z))
  {
    assert [a, b, c][0] == a && [a, b, c][1] == b && [a, b, c][2] == c;
    if BindsTighter(q, p) {
      TighterSecond(a, p, b, q, c);
    } else {
      FirstComesFirst(a, p, b, q, c);
    }
  }

  lemma TighterSecond(a: Rational, p: Operator, b: Rational, q: Operator, c: Rational)
    requires !PrintsAsRatio(a) && !PrintsAsRatio(b) && !PrintsAsRatio(c) && BindsTighter(q, p)
    ensures Calculate(Format(a) + (Separator(p) + (Format(b) + (Separator(q) + Format(c)))))
         == Some(Apply(p, Some(a.Value()), Apply(q, Some(b.Value()), Some(c.Value()))))
  {
    hide PrintsAsRatio, Format, Separator, Calculate;
    var t := Nested(p, [a], q, [b, c], []);
    NestedShaped(p, [a], q, [b, c], []);
    UnwrappedText(p, [a], q, [b, c], []);
    DisplayPreservesValue(t);
    TwoTexts(q, Format(b), Format(c));
    assert Texts([b, c]) == [Format(b), Format(c)];
    TwoTexts(p, Format(a), Joined(q, Texts([b, c])));
    assert Texts([a]) + [Joined(q, Texts([b, c]))] + Texts([]) == [Format(a), Joined(q, Texts([b, c]))];
    PairExact(p, Atom(a), Branch(q, Atoms([b, c])));
    assert t.operands == [Atom(a), Branch(q, Atoms([b, c]))];
    PairExact(q, Atom(b), Atom(c));
    assert Atoms([b, c]) == [Atom(b), Atom(c)];
  }

  lemma FirstComesFirst(a: Rational, p: Operator, b: Rational, q: Operator, c: Rational)
    requires !PrintsAsRatio(a) && !PrintsAsRatio(b) && !PrintsAsRatio(c) && !BindsTighter(q, p)
    ensures Calculate(Format(a) + (Separator(p) + (Format(b) + (Separator(q) + Format(c)))))
         == Some(Apply(q, Apply(p, Some(a.Value()), Some(b.Value())), Some(c.Value())))
  {
    hide PrintsAsRatio, Format, Separator, Calculate;
    var t := Nested(q, [], p, [a, b], [c]);
    NestedShaped(q, [], p, [a, b], [c]);
    UnwrappedText(q, [], p, [a, b], [c]);
    DisplayPreservesValue(t);
    TwoTexts(p, Format(a), Format(b));
    assert Texts([a, b]) == [Format(a), Format(b)];
    TwoTexts(q, Joined(p, Texts([a, b])), Format(c));
    assert Texts([]) + [Joined(p, Texts([a, b]))] + Texts([c]) == [Joined(p, Texts([a, b])), Format(c)];
    assert (Format(a) + (Separator(p) + Format(b))) + (Separator(q) + Format(c))
        == Format(a) + (Separator(p) + (Format(b) + (Separator(q) + Format(c))));
    PairExact(q, Branch(p, Atoms([a, b])), Atom(c));
    assert t.operands == [Branch(p, Atoms([a, b])), Atom(c)];
    PairExact(p, Atom(a), Atom(b));
    assert Atoms([a, b]) == [Atom(a), Atom(b)];
  }

  lemma TwoTexts(op: Operator, a: string, b: string)
    ensures Joined(op, [a, b]) == a + (Separator(op) + b)
  {
    assert [a, b][1..] == [b];
  }

  lemma PairExact(op: Operator, a: Tree, b: Tree)
    requires Shaped(a) && Shaped(b)
    ensures Shaped(Branch(op, [a, b])) && Exact(Branch(op, [a, b])) == Apply(op, Exact(a), Exact(b))
  {
    SpreadExact(op, a, 0, b, 0);
    assert [a] + Atoms(Neutrals(op, 0)) + [b] + Atoms(Neutrals(op, 0)) == [a, b];
  }

  // ----- main results -----

  /** The printer wraps an operand exactly when some numbers make the line without
      the parentheses worth something else, or when it is a product as a numerator. */
  lemma WrappedIff(parent: Operator, n: nat, i: nat, child: Operator, m: nat)
    requires Arity(parent, n) && Arity(child, m) && i < n
    ensures NeedsParentheses(child, Some(parent), i > 0)
       <==> Matters(parent, n, i, child, m) || (parent.Ratio? && i == 0 && child.Multiply?)
  {
    hide Matters;
    if !NeedsParentheses(child, Some(parent), i > 0) {
      UnwrappedKeeps(parent, n, i, child, m);
    } else if !(parent.Ratio? && i == 0 && child.Multiply?) {
      WrappedMatters(parent, n, i, child, m);
    }
  }

  ghost function Parenthesised(t: Tree, i: nat): string
    requires Shaped(t) && t.Branch? && i < |t.operands|
  {
    var operand := t.operands[i];
    var text := Display(operand, None, false);
    if operand.Branch? && Matters(t.op, |t.operands|, i, operand.op, |operand.operands|) then "(" + (text + ")")
    else if operand.Branch? && t.op.Ratio? && i == 0 && operand.op.Multiply? then "(" + (text + ")")
    else text
  }

  /** The line of an operation joins its operands' own lines, with parentheses around
      those operations whose value would change without them for some numbers, and
      around a product as a numerator, where they never matter. */
  lemma OnlyNeededParentheses(t: Tree)
    requires Shaped(t) && t.Branch?
    ensures Display(t, None, false)
         == Joined(t.op, seq(|t.operands|, i requires 0 <= i < |t.operands| => Parenthesised(t, i)))
  {
    TopIsBare(t);
    DisplayIsJoined(t.op, t.operands, false);
    var texts := seq(|t.operands|, i requires 0 <= i < |t.operands| => Parenthesised(t, i));
    hide Joined, Matters;
    forall i | 0 <= i < |t.operands|
      ensures Shown(t.op, t.operands, false)[i] == texts[i]
    {
      OperandText(t, i);
    }
    assert Shown(t.op, t.operands, false) == texts;
  }

  lemma OperandText(t: Tree, i: nat)
    requires Shaped(t) && t.Branch? && i < |t.operands|
    ensures Display(t.operands[i], Some(t.op), i > 0) == Parenthesised(t, i)
  {
    hide Matters, NeedsParentheses;
    var operand := t.operands[i];
    if operand.Branch? {
      TopIsBare(operand);
      WrappedIff(t.op, |t.operands|, i, operand.op, |operand.operands|);
    }
  }
}
