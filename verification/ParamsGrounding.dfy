/** Whether every number and source-owned text of a parameter set occurs in the
    slide text. Numbers consume source occurrences one for one; texts bind to
    disjoint runs through the phrase solver; a declared total may vouch for a
    number the source does not show. */
module ParamsGrounding {
  import opened Collections
  import opened Outcomes
  import opened PhraseGrounding

  /** A token with its canonical key and, when it denotes a number, that number. */
  datatype Token = Token(text: string, key: Key, value: Option<real>)

  datatype TextValue = TextValue(text: string, keys: Phrase)

  datatype DerivedTotal = DerivedTotal(total: Token, components: seq<Token>, operation: string)

  type Occurrences = map<Key, seq<Span>>

  function KeysOf(tokens: seq<Token>): multiset<Key> {
    if tokens == [] then multiset{} else KeysOf(tokens[..|tokens| - 1]) + multiset{tokens[|tokens| - 1].key}
  }

  function SourceKeys(tokens: seq<SourceToken>): multiset<Key> {
    if tokens == [] then multiset{} else SourceKeys(tokens[..|tokens| - 1]) + multiset{tokens[|tokens| - 1].key}
  }

  /** Where a key stands among the tokens of a parameter set, or of the source. */
  function PlacesOf(tokens: seq<Token>, key: Key): set<int> {
    set i | 0 <= i < |tokens| && tokens[i].key == key
  }

  function SourcePlaces(tokens: seq<SourceToken>, key: Key): set<int> {
    set i | 0 <= i < |tokens| && tokens[i].key == key
  }

  lemma {:induction false} KeysOfCounts(tokens: seq<Token>, key: Key)
    ensures KeysOf(tokens)[key] == |PlacesOf(tokens, key)|
    decreases |tokens|
  {
    if tokens != [] {
      var front, n := tokens[..|tokens| - 1], |tokens| - 1;
      KeysOfCounts(front, key);
      assert PlacesOf(tokens, key) == PlacesOf(front, key) + if tokens[n].key == key then {n} else {};
    }
  }

  lemma {:induction false} SourceKeysCounts(tokens: seq<SourceToken>, key: Key)
    ensures SourceKeys(tokens)[key] == |SourcePlaces(tokens, key)|
    decreases |tokens|
  {
    if tokens != [] {
      var front, n := tokens[..|tokens| - 1], |tokens| - 1;
      SourceKeysCounts(front, key);
      assert SourcePlaces(tokens, key) == SourcePlaces(front, key) + if tokens[n].key == key then {n} else {};
    }
  }

  /** The occurrence lists hold exactly this many unused spans of each key. */
  ghost predicate Holds(occurrences: Occurrences, supply: multiset<Key>) {
    forall k :: supply[k] == if k in occurrences then |occurrences[k]| else 0
  }

  /** The spans of the tokens with this key, in source order. */
  function SpansOf(tokens: seq<SourceToken>, key: Key): seq<Span> {
    if tokens == [] then []
    else
      var last := tokens[|tokens| - 1];
      SpansOf(tokens[..|tokens| - 1], key) + (if last.key == key then [last.span] else [])
  }

  ghost predicate KeyPlaces(tokens: seq<SourceToken>, key: Key, at: seq<nat>) {
    Increasing(at) && forall i: nat :: i in at <==> i < |tokens| && tokens[i].key == key
  }

  ghost predicate SpansListed(tokens: seq<SourceToken>, at: seq<nat>, spans: seq<Span>) {
    |spans| == |at| && forall k :: 0 <= k < |at| ==> at[k] < |tokens| && spans[k] == tokens[at[k]].span
  }

  /** The spans listed for a key are those of its places in the source, left to right. */
  lemma {:induction false} SpansOfPicks(tokens: seq<SourceToken>, key: Key) returns (at: seq<nat>)
    ensures KeyPlaces(tokens, key, at) && SpansListed(tokens, at, SpansOf(tokens, key))
    decreases |tokens|
  {
    at := [];
    NoPlaces(key);
    hide KeyPlaces, SpansListed;
    if tokens != [] {
      var n := |tokens| - 1;
      var front, last := tokens[..n], tokens[n];
      at := SpansOfPicks(front, key);
      PlacesNext(front, last, key, at);
      SpansNext(front, last, at, SpansOf(front, key));
      assert tokens == front + [last];
      assert SpansOf(front, key) + [] == SpansOf(front, key);
      if last.key == key {
        at := at + [n];
      }
    }
  }

  lemma NoPlaces(key: Key)
    ensures KeyPlaces([], key, []) && SpansListed([], [], [])
  {
  }

  lemma PlacesNext(front: seq<SourceToken>, last: SourceToken, key: Key, at: seq<nat>)
    requires KeyPlaces(front, key, at)
    ensures KeyPlaces(front + [last], key, if last.key == key then at + [|front|] else at)
  {
    IncreasingSnoc(at, |front|);
    hide Increasing;
  }

  lemma SpansNext(front: seq<SourceToken>, last: SourceToken, at: seq<nat>, spans: seq<Span>)
    requires SpansListed(front, at, spans)
    ensures SpansListed(front + [last], at, spans)
    ensures SpansListed(front + [last], at + [|front|], spans + [last.span])
  {
  }

  /** Every key of the source with all its spans in order, and no other key. */
  ghost predicate Lists(occurrences: Occurrences, tokens: seq<SourceToken>) {
    forall k :: if k in occurrences then occurrences[k] == SpansOf(tokens, k) && occurrences[k] != [] else SpansOf(tokens, k) == []
  }

  lemma ListsOneMore(occurrences: Occurrences, tokens: seq<SourceToken>, i: nat)
    requires i < |tokens| && Lists(occurrences, tokens[..i])
    ensures
      var token := tokens[i];
      var earlier := if token.key in occurrences then occurrences[token.key] else [];
      Lists(occurrences[token.key := earlier + [token.span]], tokens[..i + 1])
  {
    assert tokens[..i + 1][..i] == tokens[..i];
  }

  lemma {:induction false} SpansOfCount(tokens: seq<SourceToken>, key: Key)
    ensures |SpansOf(tokens, key)| == SourceKeys(tokens)[key]
    decreases |tokens|
  {
    if tokens != [] {
      SpansOfCount(tokens[..|tokens| - 1], key);
    }
  }

  method BuildSourceOccurrences(tokens: seq<SourceToken>) returns (occurrences: Occurrences)
    ensures Lists(occurrences, tokens)
    ensures Holds(occurrences, SourceKeys(tokens))
  {
    occurrences := map[];
    var i := 0;
    while i < |tokens|
      invariant 0 <= i <= |tokens|
      invariant Lists(occurrences, tokens[..i])
    {
      hide Lists;
      var key := tokens[i].key;
      ListsOneMore(occurrences, tokens, i);
      var earlier := if key in occurrences then occurrences[key] else [];
      occurrences := occurrences[key := earlier + [tokens[i].span]];
      i := i + 1;
    }
    assert tokens[..i] == tokens;
    forall k
      ensures SourceKeys(tokens)[k] == if k in occurrences then |occurrences[k]| else 0
    {
      SpansOfCount(tokens, k);
    }
  }

  // ----- consuming occurrences -----

  /** A token is unmatched when its key's occurrences were used up before it. */
  function Unmatched(tokens: seq<Token>, supply: multiset<Key>): seq<Token> {
    if tokens == [] then []
    else
      var front, last := tokens[..|tokens| - 1], tokens[|tokens| - 1];
      Unmatched(front, supply) + (if KeysOf(front)[last.key] >= supply[last.key] then [last] else [])
  }

  lemma KeysOfSnoc(tokens: seq<Token>, last: Token)
    ensures KeysOf(tokens + [last]) == KeysOf(tokens) + multiset{last.key}
  {
    assert (tokens + [last])[..|tokens|] == tokens;
  }

  lemma UnmatchedSnoc(front: seq<Token>, last: Token, supply: multiset<Key>, key: Key)
    ensures KeysOf(front + [last])[key] == KeysOf(front)[key] + (if last.key == key then 1 else 0)
    ensures KeysOf(Unmatched(front + [last], supply))[key]
         == KeysOf(Unmatched(front, supply))[key]
            + (if last.key == key && KeysOf(front)[key] >= supply[key] then 1 else 0)
  {
    var tokens, kept := front + [last], Unmatched(front, supply);
    assert tokens[..|tokens| - 1] == front;
    KeysOfSnoc(front, last);
    if KeysOf(front)[last.key] >= supply[last.key] {
      assert Unmatched(tokens, supply) == kept + [last];
      KeysOfSnoc(kept, last);
    } else {
      assert Unmatched(tokens, supply) == kept;
    }
  }

  lemma {:induction false} UnmatchedCount(tokens: seq<Token>, supply: multiset<Key>, key: Key)
    ensures KeysOf(Unmatched(tokens, supply))[key]
         == if KeysOf(tokens)[key] > supply[key] then KeysOf(tokens)[key] - supply[key] else 0
    decreases |tokens|
  {
    if tokens != [] {
      var front, last := tokens[..|tokens| - 1], tokens[|tokens| - 1];
      assert front + [last] == tokens;
      hide KeysOf, Unmatched;
      UnmatchedCount(front, supply, key);
      UnmatchedSnoc(front, last, supply, key);
    }
  }

  lemma {:induction false} KeysOfMembership(tokens: seq<Token>, key: Key)
    ensures KeysOf(tokens)[key] > 0 <==> exists i :: 0 <= i < |tokens| && tokens[i].key == key
    decreases |tokens|
  {
    if tokens != [] {
      var front := tokens[..|tokens| - 1];
      KeysOfMembership(front, key);
      if i :| 0 <= i < |tokens| && tokens[i].key == key {
        if i < |front| {
          assert front[i].key == key;
        }
      }
      if j :| 0 <= j < |front| && front[j].key == key {
        assert tokens[j].key == key;
      }
    }
  }

  lemma TakeOne(occurrences: Occurrences, supply: multiset<Key>, key: Key)
    requires Holds(occurrences, supply)
    ensures (key in occurrences && occurrences[key] != []) <==> supply[key] > 0
    ensures supply[key] > 0 ==> Holds(occurrences[key := occurrences[key][1..]], supply - multiset{key})
    ensures supply[key] == 0 ==> supply - multiset{key} == supply
  {
  }

  lemma TakenInTurn(tokens: seq<Token>, i: nat, supply: multiset<Key>)
    requires i < |tokens|
    ensures KeysOf(tokens[..i + 1]) == KeysOf(tokens[..i]) + multiset{tokens[i].key}
    ensures supply - KeysOf(tokens[..i + 1]) == (supply - KeysOf(tokens[..i])) - multiset{tokens[i].key}
    ensures Unmatched(tokens[..i + 1], supply)
         == Unmatched(tokens[..i], supply)
            + (if KeysOf(tokens[..i])[tokens[i].key] >= supply[tokens[i].key] then [tokens[i]] else [])
  {
    assert tokens[..i + 1][..i] == tokens[..i];
  }

  method Consume(tokens: seq<Token>, occurrences: Occurrences, ghost supply: multiset<Key>) returns (pending: seq<Token>)
    requires Holds(occurrences, supply)
    ensures pending == Unmatched(tokens, supply)
  {
    var consuming := occurrences;
    pending := [];
    var i := 0;
    while i < |tokens|
      invariant 0 <= i <= |tokens|
      invariant pending == Unmatched(tokens[..i], supply)
      invariant Holds(consuming, supply - KeysOf(tokens[..i]))
    {
      hide Holds, Unmatched, KeysOf;
      var token := tokens[i];
      TakenInTurn(tokens, i, supply);
      TakeOne(consuming, supply - KeysOf(tokens[..i]), token.key);
      if token.key in consuming && consuming[token.key] != [] {
        consuming := consuming[token.key := consuming[token.key][1..]];
      } else {
        pending := pending + [token];
      }
      i := i + 1;
    }
    assert tokens[..i] == tokens;
  }

  /** Succeeds exactly when the components' keys all fit in the supply at once. */
  method ConsumeAll(components: seq<Token>, occurrences: Occurrences, ghost supply: multiset<Key>) returns (ok: bool)
    requires Holds(occurrences, supply)
    ensures ok <==> KeysOf(components) <= supply
  {
    var copied := occurrences;
    var i := 0;
    while i < |components|
      invariant 0 <= i <= |components|
      invariant KeysOf(components[..i]) <= supply
      invariant Holds(copied, supply - KeysOf(components[..i]))
    {
      hide Holds, KeysOf;
      var key := components[i].key;
      TakenInTurn(components, i, supply);
      TakeOne(copied, supply - KeysOf(components[..i]), key);
      if key !in copied || copied[key] == [] {
        Shortfall(components, i, supply);
        return false;
      }
      StillFits(components, i, supply);
      copied := copied[key := copied[key][1..]];
      i := i + 1;
    }
    assert components[..i] == components;
    return true;
  }

  lemma StillFits(components: seq<Token>, i: nat, supply: multiset<Key>)
    requires i < |components| && KeysOf(components[..i]) <= supply
    requires (supply - KeysOf(components[..i]))[components[i].key] > 0
    ensures KeysOf(components[..i + 1]) <= supply
  {
    TakenInTurn(components, i, supply);
    hide KeysOf, Unmatched;
    var taken, more := KeysOf(components[..i]), KeysOf(components[..i + 1]);
    forall k
      ensures more[k] <= supply[k]
    {
    }
  }

  lemma Shortfall(components: seq<Token>, i: nat, supply: multiset<Key>)
    requires i < |components| && (supply - KeysOf(components[..i]))[components[i].key] == 0
    ensures !(KeysOf(components) <= supply)
  {
    var key := components[i].key;
    TakenInTurn(components, i, supply);
    KeysOfPrefix(components, i + 1);
    assert KeysOf(components[..i])[key] >= supply[key];
    assert KeysOf(components)[key] > supply[key];
  }

  lemma {:induction false} KeysOfPrefix(tokens: seq<Token>, n: nat)
    requires n <= |tokens|
    ensures KeysOf(tokens[..n]) <= KeysOf(tokens)
    decreases |tokens|
  {
    if n == |tokens| {
      assert tokens[..n] == tokens;
    } else {
      var front := tokens[..|tokens| - 1];
      KeysOfPrefix(front, n);
      assert front[..n] == tokens[..n];
    }
  }

  // ----- derived totals -----

  const REL_TOL := 0.000000001
  const ABS_TOL := 0.000000000001

  function Magnitude(x: real): real { if x < 0.0 then -x else x }

  predicate IsClose(a: real, b: real) {
    var larger := if Magnitude(a) > Magnitude(b) then Magnitude(a) else Magnitude(b);
    Magnitude(a - b) <= (if REL_TOL * larger > ABS_TOL then REL_TOL * larger else ABS_TOL)
  }

  /** Within the relative tolerance of either value, or within the absolute one. */
  lemma CloseIff(a: real, b: real)
    ensures IsClose(a, b) <==>
            || -REL_TOL * Magnitude(a) <= a - b <= REL_TOL * Magnitude(a)
            || -REL_TOL * Magnitude(b) <= a - b <= REL_TOL * Magnitude(b)
            || -ABS_TOL <= a - b <= ABS_TOL
  {
  }

  predicate AllValued(tokens: seq<Token>) {
    forall i | 0 <= i < |tokens| :: tokens[i].value.Some?
  }

  function Sum(tokens: seq<Token>): real
    requires AllValued(tokens)
  {
    if tokens == [] then 0.0 else Sum(tokens[..|tokens| - 1]) + tokens[|tokens| - 1].value.value
  }

  function Product(tokens: seq<Token>): real
    requires AllValued(tokens)
  {
    if tokens == [] then 1.0 else Product(tokens[..|tokens| - 1]) * tokens[|tokens| - 1].value.value
  }

  /** Sum and product are those of the values, in whatever way the list is cut. */
  lemma TotalsConcat(a: seq<Token>, b: seq<Token>)
    requires AllValued(a) && AllValued(b)
    ensures AllValued(a + b)
    ensures Sum(a + b) == Sum(a) + Sum(b) && Product(a + b) == Product(a) * Product(b)
    ensures |a| == 1 ==> Sum(a) == Product(a) == a[0].value.value
    ensures a == [] ==> Sum(a) == 0.0 && Product(a) == 1.0
  {
    ValuedConcat(a, b);
    SumConcat(a, b);
    ProductConcat(a, b);
    if |a| == 1 {
      assert a[..0] == [];
    }
    hide Sum, Product, AllValued;
  }

  lemma ValuedConcat(a: seq<Token>, b: seq<Token>)
    ensures AllValued(a + b) <==> AllValued(a) && AllValued(b)
  {
    assert forall i :: 0 <= i < |a| ==> (a + b)[i] == a[i];
    assert forall i :: 0 <= i < |b| ==> (a + b)[|a| + i] == b[i];
  }

  lemma LastTotals(tokens: seq<Token>, last: Token)
    requires AllValued(tokens) && last.value.Some?
    ensures AllValued(tokens + [last])
    ensures Sum(tokens + [last]) == Sum(tokens) + last.value.value
    ensures Product(tokens + [last]) == Product(tokens) * last.value.value
  {
    assert (tokens + [last])[..|tokens|] == tokens;
  }

  lemma {:induction false} SumConcat(a: seq<Token>, b: seq<Token>)
    requires AllValued(a) && AllValued(b) && AllValued(a + b)
    ensures Sum(a + b) == Sum(a) + Sum(b)
    decreases |b|
  {
    if b == [] {
      assert a + b == a;
    } else {
      var front, last := b[..|b| - 1], b[|b| - 1];
      ValuedConcat(a, front);
      SumConcat(a, front);
      LastTotals(a + front, last);
      LastTotals(front, last);
      hide Sum, Product;
      assert a + b == (a + front) + [last] && b == front + [last];
    }
  }

  lemma {:induction false} ProductConcat(a: seq<Token>, b: seq<Token>)
    requires AllValued(a) && AllValued(b) && AllValued(a + b)
    ensures Product(a + b) == Product(a) * Product(b)
    decreases |b|
  {
    if b == [] {
      assert a + b == a;
      assert Product([]) == 1.0;
    } else {
      var front, last := b[..|b| - 1], b[|b| - 1];
      ValuedConcat(a, front);
      ProductConcat(a, front);
      LastTotals(a + front, last);
      LastTotals(front, last);
      TimesAssociates(Product(a), Product(front), last.value.value, Product(b));
    }
    hide Product, AllValued;
    if b != [] {
      var front, last := b[..|b| - 1], b[|b| - 1];
      assert a + b == (a + front) + [last] && b == front + [last];
    }
  }

  lemma TimesAssociates(x: real, y: real, z: real, yz: real)
    requires yz == y * z
    ensures (x * y) * z == x * yz
  {
  }

  /** The declared total is the sum or product of components the source can
      supply all at once. */
  predicate Vouches(d: DerivedTotal, supply: multiset<Key>) {
    && d.components != []
    && KeysOf(d.components) <= supply
    && d.total.value.Some? && AllValued(d.components)
    && ((d.operation == "sum" && IsClose(Sum(d.components), d.total.value.value))
        || (d.operation == "product" && IsClose(Product(d.components), d.total.value.value)))
  }

  ghost predicate VouchedBelow(key: Key, totals: seq<DerivedTotal>, n: nat, supply: multiset<Key>)
    requires n <= |totals|
  {
    exists i :: 0 <= i < n && Vouches(totals[i], supply) && totals[i].total.key == key
  }

  ghost predicate Vouched(key: Key, totals: seq<DerivedTotal>, supply: multiset<Key>) {
    VouchedBelow(key, totals, |totals|, supply)
  }

  method AllowedTotals(totals: seq<DerivedTotal>, occurrences: Occurrences, ghost supply: multiset<Key>)
    returns (allowed: set<Key>)
    requires Holds(occurrences, supply)
    ensures forall key :: key in allowed <==> Vouched(key, totals, supply)
  {
    allowed := {};
    var i := 0;
    while i < |totals|
      invariant 0 <= i <= |totals|
      invariant forall key :: key in allowed <==> VouchedBelow(key, totals, i, supply)
    {
      hide Holds, Vouches;
      var d := totals[i];
      var ok := DerivedHolds(d, occurrences, supply);
      if ok {
        allowed := allowed + {d.total.key};
      }
      i := i + 1;
    }
  }

  method DerivedHolds(d: DerivedTotal, occurrences: Occurrences, ghost supply: multiset<Key>) returns (ok: bool)
    requires Holds(occurrences, supply)
    ensures ok <==> Vouches(d, supply)
  {
    if d.components == [] {
      return false;
    }
    var supplied := ConsumeAll(d.components, occurrences, supply);
    if !supplied || d.total.value.None? || !AllValued(d.components) {
      return false;
    }
    if d.operation == "sum" {
      return IsClose(Sum(d.components), d.total.value.value);
    } else if d.operation == "product" {
      return IsClose(Product(d.components), d.total.value.value);
    }
    return false;
  }

  // ----- the whole check -----

  function TextsOf(tokens: seq<Token>, allowed: set<Key>): seq<string> {
    if tokens == [] then []
    else (if tokens[0].key in allowed then [] else [tokens[0].text]) + TextsOf(tokens[1..], allowed)
  }

  /** The texts of the tokens no declaration vouches for. */
  ghost function UnvouchedTexts(tokens: seq<Token>, totals: seq<DerivedTotal>, supply: multiset<Key>): seq<string> {
    if tokens == [] then []
    else
      (if Vouched(tokens[0].key, totals, supply) then [] else [tokens[0].text]) + UnvouchedTexts(tokens[1..], totals, supply)
  }

  lemma {:induction false} AllowedIsVouched(tokens: seq<Token>, totals: seq<DerivedTotal>, supply: multiset<Key>, allowed: set<Key>)
    requires forall key :: key in allowed <==> Vouched(key, totals, supply)
    ensures TextsOf(tokens, allowed) == UnvouchedTexts(tokens, totals, supply)
    decreases |tokens|
  {
    if tokens != [] {
      AllowedIsVouched(tokens[1..], totals, supply, allowed);
    }
  }

  lemma {:induction false} NothingLeft(tokens: seq<Token>, allowed: set<Key>)
    ensures TextsOf(tokens, allowed) == [] <==> forall i | 0 <= i < |tokens| :: tokens[i].key in allowed
    decreases |tokens|
  {
    if tokens != [] {
      NothingLeft(tokens[1..], allowed);
      if forall i | 0 <= i < |tokens[1..]| :: tokens[1..][i].key in allowed {
        assert forall i | 1 <= i < |tokens| :: tokens[i] == tokens[1..][i - 1];
      }
    }
  }

  function Phrases(texts: seq<TextValue>): (r: seq<Phrase>)
    ensures |r| == |texts| && forall i | 0 <= i < |r| :: r[i] == texts[i].keys
  {
    seq(|texts|, i requires 0 <= i < |texts| => texts[i].keys)
  }

  // ----- which numbers and texts are listed -----

  /** A number is used up when the source has no more of its key than stand before it. */
  ghost predicate UsedUp(numbers: seq<Token>, source: seq<SourceToken>, i: nat)
    requires i < |numbers|
  {
    |PlacesOf(numbers[..i], numbers[i].key)| >= |SourcePlaces(source, numbers[i].key)|
  }

  ghost predicate UsedUpPlaces(numbers: seq<Token>, source: seq<SourceToken>, at: seq<nat>) {
    forall i: nat :: i in at <==> i < |numbers| && UsedUp(numbers, source, i)
  }

  lemma {:induction false} UnmatchedPicks(numbers: seq<Token>, source: seq<SourceToken>) returns (at: seq<nat>)
    ensures Picked(numbers, at, Unmatched(numbers, SourceKeys(source))) && UsedUpPlaces(numbers, source, at)
    decreases |numbers|
  {
    at := [];
    NoneUsedUp(source);
    hide Picked, UsedUpPlaces, KeysOf, SourceKeys;
    if numbers != [] {
      var n := |numbers| - 1;
      var front, last := numbers[..n], numbers[n];
      at := UnmatchedPicks(front, source);
      var unmatched := Unmatched(front, SourceKeys(source));
      assert numbers == front + [last];
      PickedSnoc(front, at, unmatched, last);
      UsedUpNext(front, last, source, at);
      assert unmatched + [] == unmatched;
      if KeysOf(front)[last.key] >= SourceKeys(source)[last.key] {
        at := at + [n];
      }
    }
  }

  lemma NoneUsedUp(source: seq<SourceToken>)
    ensures Picked<Token>([], [], []) && UsedUpPlaces([], source, [])
  {
  }

  lemma UsedUpNext(front: seq<Token>, last: Token, source: seq<SourceToken>, at: seq<nat>)
    requires UsedUpPlaces(front, source, at)
    ensures
      var to := if KeysOf(front)[last.key] >= SourceKeys(source)[last.key] then at + [|front|] else at;
      UsedUpPlaces(front + [last], source, to)
  {
    KeysOfCounts(front, last.key);
    SourceKeysCounts(source, last.key);
    var numbers := front + [last];
    assert numbers[..|front|] == front;
    hide KeysOf, SourceKeys, PlacesOf, SourcePlaces;
    forall i | 0 <= i < |front|
      ensures UsedUp(front, source, i) <==> UsedUp(numbers, source, i)
    {
      assert front[..i] == numbers[..i] && front[i] == numbers[i];
    }
    assert forall i: nat :: i in at + [|front|] <==> i in at || i == |front|;
  }

  ghost predicate UnvouchedPlaces(tokens: seq<Token>, totals: seq<DerivedTotal>, supply: multiset<Key>, at: seq<nat>) {
    forall i: nat :: i in at <==> i < |tokens| && !Vouched(tokens[i].key, totals, supply)
  }

  ghost predicate AreTexts(kept: seq<Token>, listed: seq<string>) {
    |listed| == |kept| && forall k :: 0 <= k < |kept| ==> listed[k] == kept[k].text
  }

  lemma {:induction false} UnvouchedPicks(tokens: seq<Token>, totals: seq<DerivedTotal>, supply: multiset<Key>)
    returns (at: seq<nat>, kept: seq<Token>)
    ensures Picked(tokens, at, kept) && UnvouchedPlaces(tokens, totals, supply, at)
    ensures AreTexts(kept, UnvouchedTexts(tokens, totals, supply))
    decreases |tokens|
  {
    at, kept := [], [];
    NoneUnvouched(totals, supply);
    hide Vouched, Picked, UnvouchedPlaces, AreTexts, Shifted;
    if tokens != [] {
      var first, rest := tokens[0], tokens[1..];
      var after, others := UnvouchedPicks(rest, totals, supply);
      var listed := UnvouchedTexts(rest, totals, supply);
      assert tokens == [first] + rest && [] + listed == listed;
      PickedCons(first, rest, after, others);
      UnvouchedFirst(first, rest, totals, supply, after);
      TextFirst(first, others, listed);
      if Vouched(first.key, totals, supply) {
        at, kept := Shifted(after), others;
      } else {
        at, kept := [0] + Shifted(after), [first] + others;
      }
    }
  }

  lemma NoneUnvouched(totals: seq<DerivedTotal>, supply: multiset<Key>)
    ensures Picked<Token>([], [], []) && UnvouchedPlaces([], totals, supply, []) && AreTexts([], [])
  {
  }

  lemma TextFirst(first: Token, kept: seq<Token>, listed: seq<string>)
    requires AreTexts(kept, listed)
    ensures AreTexts([first] + kept, [first.text] + listed)
  {
  }

  lemma UnvouchedFirst(first: Token, rest: seq<Token>, totals: seq<DerivedTotal>, supply: multiset<Key>, after: seq<nat>)
    requires UnvouchedPlaces(rest, totals, supply, after)
    ensures
      var to := if Vouched(first.key, totals, supply) then Shifted(after) else [0] + Shifted(after);
      UnvouchedPlaces([first] + rest, totals, supply, to)
  {
    hide Vouched;
    var all := [first] + rest;
    var to := if Vouched(first.key, totals, supply) then Shifted(after) else [0] + Shifted(after);
    forall i: nat
      ensures i in to <==> i < |all| && !Vouched(all[i].key, totals, supply)
    {
      ShiftedMember(after, i);
      hide Shifted;
      if i > 0 {
        assert i in to <==> i in Shifted(after);
        assert i < |all| ==> all[i] == rest[i - 1];
      } else {
        assert i in to <==> !Vouched(first.key, totals, supply);
      }
    }
  }

  /** The texts with at least one token, by position: empty ones have nothing to bind. */
  function ActiveTexts(texts: seq<TextValue>): (at: seq<nat>)
    ensures Increasing(at) && InRange(at, |texts|)
    ensures forall i: nat :: i in at <==> i < |texts| && texts[i].keys != []
  {
    ActiveIndices(Phrases(texts))
  }

  function PhrasesAt(texts: seq<TextValue>, at: seq<nat>): (r: seq<Phrase>)
    requires InRange(at, |texts|)
    ensures |r| == |at| && forall k :: 0 <= k < |at| ==> r[k] == texts[at[k]].keys
  {
    seq(|at|, k requires 0 <= k < |at| => texts[at[k]].keys)
  }

  /** The texts of the active ones left without a span. */
  function UnboundTexts(texts: seq<TextValue>, at: seq<nat>, a: Assignment): seq<string>
    requires |at| == |a| && InRange(at, |texts|)
  {
    if at == [] then []
    else
      var n := |at| - 1;
      UnboundTexts(texts, at[..n], a[..n]) + (if a[n] == None then [texts[at[n]].text] else [])
  }

  lemma {:induction false} UnboundAmong(texts: seq<TextValue>, at: seq<nat>, a: Assignment) returns (from: seq<nat>)
    requires |at| == |a| && InRange(at, |texts|)
    ensures Increasing(from) && LeftOut(a, from) && TextsListed(texts, at, from, UnboundTexts(texts, at, a))
    decreases |at|
  {
    from := [];
    NoneLeftOut(texts);
    hide Increasing, LeftOut, TextsListed;
    if at != [] {
      var n := |at| - 1;
      from := UnboundAmong(texts, at[..n], a[..n]);
      var before := UnboundTexts(texts, at[..n], a[..n]);
      LeftOutNext(a[..n], a[n], from);
      ListedNext(texts, at, from, before);
      assert a == a[..n] + [a[n]] && before + [] == before;
      if a[n] == None {
        from := from + [n];
      }
    }
  }

  lemma NoneLeftOut(texts: seq<TextValue>)
    ensures Increasing([]) && LeftOut([], []) && TextsListed(texts, [], [], [])
  {
  }

  ghost predicate LeftOut(a: Assignment, from: seq<nat>) {
    forall k: nat :: k in from <==> k < |a| && a[k] == None
  }

  ghost predicate TextsListed(texts: seq<TextValue>, at: seq<nat>, from: seq<nat>, listed: seq<string>)
    requires InRange(at, |texts|)
  {
    && |from| == |listed|
    && forall j :: 0 <= j < |from| ==> from[j] < |at| && listed[j] == texts[at[from[j]]].text
  }

  lemma LeftOutNext(a: Assignment, last: Option<Span>, from: seq<nat>)
    requires Increasing(from) && LeftOut(a, from)
    ensures
      var to := if last == None then from + [|a|] else from;
      Increasing(to) && LeftOut(a + [last], to)
  {
    IncreasingSnoc(from, |a|);
    hide Increasing;
  }

  lemma ListedNext(texts: seq<TextValue>, at: seq<nat>, from: seq<nat>, listed: seq<string>)
    requires at != [] && InRange(at, |texts|) && TextsListed(texts, at[..|at| - 1], from, listed)
    ensures TextsListed(texts, at, from, listed)
    ensures TextsListed(texts, at, from + [|at| - 1], listed + [texts[at[|at| - 1]].text])
  {
  }

  lemma UnboundPicks(texts: seq<TextValue>, at: seq<nat>, a: Assignment) returns (left: seq<nat>)
    requires |at| == |a| && Increasing(at) && InRange(at, |texts|)
    ensures Increasing(left) && |left| == |UnboundTexts(texts, at, a)|
    ensures forall k :: 0 <= k < |left| ==> left[k] < |texts| && UnboundTexts(texts, at, a)[k] == texts[left[k]].text
    ensures forall i: nat :: i in left <==> exists k :: 0 <= k < |at| && at[k] == i && a[k] == None
  {
    var from := UnboundAmong(texts, at, a);
    hide UnboundTexts;
    left := seq(|from|, j requires 0 <= j < |from| => at[from[j]]);
    forall i: nat
      ensures i in left <==> exists k :: 0 <= k < |at| && at[k] == i && a[k] == None
    {
      if i in left {
        var j :| 0 <= j < |left| && left[j] == i;
        assert from[j] in from;
      }
      if k :| 0 <= k < |at| && at[k] == i && a[k] == None {
        assert k in from;
        var j :| 0 <= j < |from| && from[j] == k;
        assert left[j] == i;
      }
    }
  }

  // ----- from the active texts to all of them -----

  /** The assignment over all n texts that binds the active ones like this. */
  ghost function Spread(n: nat, at: seq<nat>, a: Assignment): (r: Assignment)
    requires |at| == |a| && Increasing(at)
    ensures |r| == n
    ensures forall k :: 0 <= k < |at| && at[k] < n ==> r[at[k]] == a[k]
    ensures forall i :: 0 <= i < n && i !in at ==> r[i] == None
  {
    seq(n, i requires 0 <= i < n => if k :| 0 <= k < |at| && at[k] == i then a[k] else None)
  }

  function Narrowed(at: seq<nat>, b: Assignment): (r: Assignment)
    requires InRange(at, |b|)
    ensures |r| == |at| && forall k :: 0 <= k < |at| ==> r[k] == b[at[k]]
  {
    seq(|at|, k requires 0 <= k < |at| => b[at[k]])
  }

  lemma SpreadIsAssignment(texts: seq<TextValue>, source: seq<SourceToken>, a: Assignment)
    requires IsAssignment(AllCandidates(PhrasesAt(texts, ActiveTexts(texts)), source), a)
    ensures IsAssignment(AllCandidates(Phrases(texts), source), Spread(|texts|, ActiveTexts(texts), a))
  {
    var at := ActiveTexts(texts);
    var b := Spread(|texts|, at, a);
    forall i | 0 <= i < |b| && b[i].Some?
      ensures exists k :: 0 <= k < |at| && at[k] == i && a[k] == b[i]
    {
      assert i in at;
      var k :| 0 <= k < |at| && at[k] == i;
    }
    hide CandidateSpans, Spread, ActiveTexts;
  }

  lemma NarrowedIsAssignment(texts: seq<TextValue>, source: seq<SourceToken>, b: Assignment)
    requires IsAssignment(AllCandidates(Phrases(texts), source), b)
    ensures IsAssignment(AllCandidates(PhrasesAt(texts, ActiveTexts(texts)), source), Narrowed(ActiveTexts(texts), b))
  {
    hide CandidateSpans, ActiveTexts;
    var at := ActiveTexts(texts);
    assert forall k :: 0 <= k < |at| ==> at[k] in at;
  }

  /** Only active texts are ever bound. */
  lemma BoundAreActive(texts: seq<TextValue>, source: seq<SourceToken>, b: Assignment, i: nat)
    requires IsAssignment(AllCandidates(Phrases(texts), source), b) && i < |texts| && b[i].Some?
    ensures i in ActiveTexts(texts)
  {
  }

  /** As many phrases are bound as active texts. */
  lemma {:induction false} AsMany(at: seq<nat>, a: Assignment, b: Assignment)
    requires Increasing(at) && |a| == |at| && InRange(at, |b|)
    requires forall k :: 0 <= k < |at| ==> a[k] == b[at[k]]
    requires forall i: nat :: i < |b| && b[i].Some? ==> i in at
    ensures Grounded(a) == Grounded(b)
    decreases |at|
  {
    if at == [] {
      assert Bound(b) == {};
    } else {
      var n := |at| - 1;
      var others := b[at[n] := None];
      WithoutLast(at, b);
      hide Increasing, Grounded;
      AsMany(at[..n], a[..n], others);
      OneMoreBound(a, n);
      OneMoreBound(b, at[n]);
      SameBound(a[n := None], a[..n]);
    }
  }

  lemma WithoutLast(at: seq<nat>, b: Assignment)
    requires Increasing(at) && at != [] && InRange(at, |b|)
    requires forall i: nat :: i < |b| && b[i].Some? ==> i in at
    ensures
      var n := |at| - 1;
      var others := b[at[n] := None];
      && Increasing(at[..n]) && InRange(at[..n], |others|)
      && (forall k :: 0 <= k < n ==> others[at[..n][k]] == b[at[k]])
      && forall i: nat :: i < |others| && others[i].Some? ==> i in at[..n]
  {
    assert at == at[..|at| - 1] + [at[|at| - 1]];
  }

  lemma OneMoreBound(a: Assignment, i: nat)
    requires i < |a|
    ensures Grounded(a) == Grounded(a[i := None]) + if a[i].Some? then 1 else 0
  {
    assert Bound(a) == Bound(a[i := None]) + if a[i].Some? then {i as int} else {};
  }

  lemma SameBound(a: Assignment, b: Assignment)
    requires |b| <= |a| && a[..|b|] == b && forall i :: |b| <= i < |a| ==> a[i] == None
    ensures Grounded(a) == Grounded(b)
  {
    forall i | 0 <= i < |b|
      ensures a[i] == b[i]
    {
      assert a[..|b|][i] == a[i];
    }
    assert Bound(a) == Bound(b);
  }

  /** Every number occurs often enough in the source or is vouched for. */
  ghost predicate NumbersGrounded(numbers: seq<Token>, totals: seq<DerivedTotal>, supply: multiset<Key>) {
    forall key :: KeysOf(numbers)[key] <= supply[key] || Vouched(key, totals, supply)
  }

  ghost predicate BindsAll(texts: seq<TextValue>, a: Assignment) {
    |a| == |texts| && forall i :: 0 <= i < |texts| && texts[i].keys != [] ==> a[i].Some?
  }

  /** The texts with tokens bind to pairwise disjoint exact runs, all at once. */
  ghost predicate TextsGroundable(texts: seq<TextValue>, source: seq<SourceToken>) {
    exists a: Assignment :: IsAssignment(AllCandidates(Phrases(texts), source), a) && BindsAll(texts, a)
  }

  lemma FullIsMaximal(candidates: seq<seq<Span>>, a: Assignment, best: Assignment)
    requires IsAssignment(candidates, a) && IsAssignment(candidates, best)
    requires forall i | 0 <= i < |best| :: best[i].Some? ==> a[i].Some?
    requires Grounded(a) <= Grounded(best)
    ensures forall i | 0 <= i < |best| :: a[i].Some? ==> best[i].Some?
  {
    if i :| 0 <= i < |best| && a[i].Some? && best[i] == None {
      assert Bound(best) + {i} <= Bound(a);
      SubsetCardinality(Bound(best) + {i}, Bound(a));
    }
  }

  /** The positions of the report: first numbers, then texts, each in order. */
  ghost predicate Reports(numbers: seq<Token>, texts: seq<TextValue>, ungrounded: seq<string>, listed: seq<nat>, left: seq<nat>) {
    && Increasing(listed) && Increasing(left) && |ungrounded| == |listed| + |left|
    && (forall k :: 0 <= k < |listed| ==> listed[k] < |numbers| && ungrounded[k] == numbers[listed[k]].text)
    && forall k :: 0 <= k < |left| ==> left[k] < |texts| && ungrounded[|listed| + k] == texts[left[k]].text
  }

  /** Binding the texts with the solver: what is left out of a disjoint binding
      over all the texts, one as large as any unless the step cap fired. */
  method BindTexts(texts: seq<TextValue>, source: seq<SourceToken>)
    returns (ungrounded: seq<string>, ghost bound: Assignment, ghost left: seq<nat>, ghost capped: bool)
    ensures IsAssignment(AllCandidates(Phrases(texts), source), bound)
    ensures !capped ==> forall a | IsAssignment(AllCandidates(Phrases(texts), source), a) :: Grounded(a) <= Grounded(bound)
    ensures Reports([], texts, ungrounded, [], left)
    ensures forall i: nat :: i in left <==> i < |texts| && texts[i].keys != [] && bound[i] == None
    ensures SearchSpace(PhrasesAt(texts, ActiveTexts(texts)), source) <= PHRASE_SOLVER_MAX_STEPS ==> !capped
  {
    hide IsAssignment, SearchSpace, Grounded, ActiveTexts, Spread;
    var active := ActiveTexts(texts);
    var assignments;
    assignments, capped := ResolvePhraseAssignments(PhrasesAt(texts, active), source, PHRASE_SOLVER_MAX_STEPS);
    AssignmentLength(PhrasesAt(texts, active), source, assignments);
    bound := Spread(|texts|, active, assignments);
    SpreadIsAssignment(texts, source, assignments);
    SpreadIsLargest(texts, source, assignments, capped);
    ungrounded := UnboundTexts(texts, active, assignments);
    left := UnboundPicks(texts, active, assignments);
    forall i: nat
      ensures i in left <==> i < |texts| && texts[i].keys != [] && bound[i] == None
    {
      if i in active {
        var k :| 0 <= k < |active| && active[k] == i;
      }
    }
  }

  lemma AssignmentLength(phrases: seq<Phrase>, source: seq<SourceToken>, a: Assignment)
    requires IsAssignment(AllCandidates(phrases, source), a)
    ensures |a| == |phrases|
  {
  }

  lemma SpreadIsLargest(texts: seq<TextValue>, source: seq<SourceToken>, a: Assignment, capped: bool)
    requires IsAssignment(AllCandidates(PhrasesAt(texts, ActiveTexts(texts)), source), a)
    requires !capped ==>
               forall c | IsAssignment(AllCandidates(PhrasesAt(texts, ActiveTexts(texts)), source), c) :: Grounded(c) <= Grounded(a)
    ensures
      var bound := Spread(|texts|, ActiveTexts(texts), a);
      !capped ==> forall b | IsAssignment(AllCandidates(Phrases(texts), source), b) :: Grounded(b) <= Grounded(bound)
  {
    hide Grounded, ActiveTexts, Spread, IsAssignment;
    var at := ActiveTexts(texts);
    AssignmentLength(PhrasesAt(texts, at), source, a);
    var bound := Spread(|texts|, at, a);
    assert forall k :: 0 <= k < |at| ==> at[k] in at;
    AsMany(at, a, bound);
    forall b: Assignment | !capped && IsAssignment(AllCandidates(Phrases(texts), source), b)
      ensures Grounded(b) <= Grounded(bound)
    {
      AssignmentLength(Phrases(texts), source, b);
      NarrowedIsAssignment(texts, source, b);
      forall i | 0 <= i < |b| && b[i].Some?
        ensures i in at
      {
        BoundAreActive(texts, source, b, i);
      }
      AsMany(at, Narrowed(at, b), b);
    }
  }

  /** Lists, in order, exactly the numbers whose occurrences in the source are used
      up by the same number before them and that nothing vouches for, then exactly
      the texts with tokens that a disjoint binding of all the texts leaves out, one
      as large as any unless the step cap fired. The list is empty only if
      everything is grounded; and without the cap it is empty exactly then. */
  method CheckParamsGrounded(
    numbers: seq<Token>, texts: seq<TextValue>, totals: seq<DerivedTotal>, source: seq<SourceToken>)
    returns (ungrounded: seq<string>, ghost listed: seq<nat>, ghost left: seq<nat>, ghost bound: Assignment, ghost capped: bool)
    ensures IsAssignment(AllCandidates(Phrases(texts), source), bound)
    ensures !capped ==> forall a | IsAssignment(AllCandidates(Phrases(texts), source), a) :: Grounded(a) <= Grounded(bound)
    ensures Reports(numbers, texts, ungrounded, listed, left)
    ensures forall i: nat :: i in listed <==>
                             && i < |numbers| && UsedUp(numbers, source, i)
                             && !Vouched(numbers[i].key, totals, SourceKeys(source))
    ensures forall i: nat :: i in left <==> i < |texts| && texts[i].keys != [] && bound[i] == None
    ensures ungrounded == [] ==>
              NumbersGrounded(numbers, totals, SourceKeys(source)) && TextsGroundable(texts, source)
    ensures !capped && NumbersGrounded(numbers, totals, SourceKeys(source)) && TextsGroundable(texts, source) ==>
              ungrounded == []
    ensures SearchSpace(PhrasesAt(texts, ActiveTexts(texts)), source) <= PHRASE_SOLVER_MAX_STEPS ==> !capped
  {
    ghost var supply := SourceKeys(source);
    var occurrences := BuildSourceOccurrences(source);
    hide *;
    var ungroundedNumbers := Consume(numbers, occurrences, supply);
    var unbound;
    unbound, bound, left, capped := BindTexts(texts, source);
    var allowed := AllowedTotals(totals, occurrences, supply);
    var unvouched := TextsOf(ungroundedNumbers, allowed);
    ungrounded := unvouched + unbound;
    AllowedIsVouched(ungroundedNumbers, totals, supply, allowed);
    NothingLeft(ungroundedNumbers, allowed);
    UnmatchedAllowed(numbers, totals, supply, allowed);
    listed := ListedNumbers(numbers, totals, source);
    AssignmentLength(Phrases(texts), source, bound);
    PhrasesLength(texts);
    TextsAreBound(texts, source, bound, left, capped);
    ReportsBoth(numbers, texts, unvouched, listed, unbound, left);
  }

  lemma PhrasesLength(texts: seq<TextValue>)
    ensures |Phrases(texts)| == |texts|
  {
  }

  lemma ReportsBoth(
    numbers: seq<Token>, texts: seq<TextValue>, unvouched: seq<string>, listed: seq<nat>, unbound: seq<string>, left: seq<nat>)
    requires Increasing(listed) && |listed| == |unvouched|
    requires forall k :: 0 <= k < |listed| ==> listed[k] < |numbers| && unvouched[k] == numbers[listed[k]].text
    requires Reports([], texts, unbound, [], left)
    ensures Reports(numbers, texts, unvouched + unbound, listed, left)
    ensures unvouched + unbound == [] <==> unvouched == [] && left == []
  {
  }

  lemma ListedNumbers(numbers: seq<Token>, totals: seq<DerivedTotal>, source: seq<SourceToken>) returns (listed: seq<nat>)
    ensures
      var texts := UnvouchedTexts(Unmatched(numbers, SourceKeys(source)), totals, SourceKeys(source));
      Increasing(listed) && |listed| == |texts|
      && forall k :: 0 <= k < |listed| ==> listed[k] < |numbers| && texts[k] == numbers[listed[k]].text
    ensures forall i: nat :: i in listed <==>
                             && i < |numbers| && UsedUp(numbers, source, i)
                             && !Vouched(numbers[i].key, totals, SourceKeys(source))
  {
    hide UsedUp, Vouched, Unmatched, SourceKeys, UnvouchedTexts;
    var supply := SourceKeys(source);
    var pending := Unmatched(numbers, supply);
    var at := UnmatchedPicks(numbers, source);
    var from, kept := UnvouchedPicks(pending, totals, supply);
    listed := PickedTwice(numbers, at, pending, from, kept);
    forall i: nat
      ensures i in listed <==> i < |numbers| && UsedUp(numbers, source, i) && !Vouched(numbers[i].key, totals, supply)
    {
      if i in at {
        var k :| 0 <= k < |at| && at[k] == i;
      }
    }
  }

  lemma TextsAreBound(texts: seq<TextValue>, source: seq<SourceToken>, bound: Assignment, left: seq<nat>, capped: bool)
    requires IsAssignment(AllCandidates(Phrases(texts), source), bound) && |bound| == |texts|
    requires !capped ==> forall a | IsAssignment(AllCandidates(Phrases(texts), source), a) :: Grounded(a) <= Grounded(bound)
    requires forall i: nat :: i in left <==> i < |texts| && texts[i].keys != [] && bound[i] == None
    ensures left == [] ==> TextsGroundable(texts, source)
    ensures !capped && TextsGroundable(texts, source) ==> left == []
  {
    hide IsAssignment, Grounded;
    assert left == [] || left[0] in left;
    if left == [] {
      assert BindsAll(texts, bound);
    }
    if !capped && TextsGroundable(texts, source) {
      var a: Assignment :| IsAssignment(AllCandidates(Phrases(texts), source), a) && BindsAll(texts, a);
      AssignmentLength(Phrases(texts), source, a);
      forall i | 0 <= i < |bound| && bound[i].Some?
        ensures a[i].Some?
      {
        BoundAreActive(texts, source, bound, i);
      }
      FullIsMaximal(AllCandidates(Phrases(texts), source), a, bound);
    }
  }

  lemma UnmatchedAllowed(numbers: seq<Token>, totals: seq<DerivedTotal>, supply: multiset<Key>, allowed: set<Key>)
    requires forall key :: key in allowed <==> Vouched(key, totals, supply)
    ensures var pending := Unmatched(numbers, supply);
            (forall i | 0 <= i < |pending| :: pending[i].key in allowed) <==> NumbersGrounded(numbers, totals, supply)
  {
    hide KeysOf, Unmatched, Vouched;
    var pending := Unmatched(numbers, supply);
    forall key ensures KeysOf(numbers)[key] <= supply[key] <==> !exists i :: 0 <= i < |pending| && pending[i].key == key {
      UnmatchedCount(numbers, supply, key);
      KeysOfMembership(pending, key);
    }
  }
}
