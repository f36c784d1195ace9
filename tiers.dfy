/** Credit tiers of the vending machine and the rules that relate an amount of
    credit, a tier and an inserted denomination.  Everything here is pure. */
module Tiers {

  datatype Option<T> = None | Some(value: T)

  /** The six credit levels; S50 stands for 50 or more and is the accepting tier. */
  datatype State = S0 | S10 | S20 | S30 | S40 | S50 {
    /** The shilling amount the tier is named after. */
    function Value(): int {
      match this
      case S0 => 0
      case S10 => 10
      case S20 => 20
      case S30 => 30
      case S40 => 40
      case S50 => 50
    }
  }

  /** The tiers in declaration order, the order in which the enumeration is iterated. */
  const AllStates: seq<State> := [S0, S10, S20, S30, S40, S50]

  /** The accepted denominations, in the order the machine lists them. */
  const Denominations: seq<int> := [10, 20, 40, 50, 100, 200, 500, 1000]

  /** The credit needed for one drink, and the value of the accepting tier. */
  const Price: int := 50

  /** Every accepted denomination is a positive multiple of 10. */
  lemma DenominationIsTens(d: int)
    requires d in Denominations
    ensures d > 0 && d % 10 == 0
  {
  }

  /** Adding two multiples of 10 gives a multiple of 10. */
  lemma SumOfTens(a: int, b: int)
    requires a % 10 == 0 && b % 10 == 0
    ensures (a + b) % 10 == 0
  {
    var k := a / 10 + b / 10;
    assert a + b == 10 * k;
  }

  function Min(a: int, b: int): int {
    if a <= b then a else b
  }

  /** Every tier occurs in AllStates, at the position given by its value. */
  lemma AllStatesListed(s: State)
    ensures s.Value() % 10 == 0 && 0 <= s.Value() / 10 < |AllStates|
    ensures AllStates[s.Value() / 10] == s
  {
  }

  /** The values for which looking up a tier by value succeeds. */
  predicate IsTierValue(v: int) {
    0 <= v <= Price && v % 10 == 0
  }

  /** Looking a tier up by its value; only defined for the six tier values. */
  function StateOf(v: int): (s: State)
    requires IsTierValue(v)
    ensures s.Value() == v
  {
    if v == 0 then S0
    else if v == 10 then S10
    else if v == 20 then S20
    else if v == 30 then S30
    else if v == 40 then S40
    else S50
  }

  /** Looking a tier up by value succeeds exactly on the values of the tiers. */
  lemma IsTierValueExactly(v: int)
    ensures IsTierValue(v) <==> exists s: State :: s.Value() == v
  {
    if IsTierValue(v) {
      assert StateOf(v).Value() == v;
    }
  }

  /** The tier of an amount of credit: the amount capped at 50, looked up by value.
      The lookup is well defined because the credit is a non-negative multiple of 10. */
  function TierOf(amount: int): (s: State)
    requires amount >= 0 && amount % 10 == 0
    ensures s == S50 <==> amount >= Price
    ensures amount < Price ==> s.Value() == amount
  {
    StateOf(Min(Price, amount))
  }

  /** `r` is the tier of greatest value among those whose value does not exceed `n`. */
  ghost predicate IsGreatestAtMost(r: State, n: int) {
    r.Value() <= n && forall t: State :: t.Value() <= n ==> t.Value() <= r.Value()
  }

  /** The maximum by value of the tiers of `ss` whose value does not exceed `n`,
      scanning left to right and replacing the candidate only by a strictly
      greater one; None when no tier qualifies (where the maximum of an empty
      collection would fail). */
  function MaxAtMost(ss: seq<State>, n: int): (r: Option<State>)
    ensures r.None? <==> forall i :: 0 <= i < |ss| ==> ss[i].Value() > n
    ensures r.Some? ==> r.value in ss && r.value.Value() <= n
    ensures r.Some? ==> forall i :: 0 <= i < |ss| && ss[i].Value() <= n ==> ss[i].Value() <= r.value.Value()
  {
    if |ss| == 0 then None
    else
      var best := MaxAtMost(ss[..|ss| - 1], n);
      var last := ss[|ss| - 1];
      if last.Value() <= n && (best.None? || last.Value() > best.value.Value()) then Some(last)
      else best
  }

  /** Over the whole enumeration, the maximum exists for every non-negative
      amount and is the greatest tier not exceeding it. */
  lemma MaxAtMostAllStates(n: int)
    requires n >= 0
    ensures MaxAtMost(AllStates, n).Some?
    ensures IsGreatestAtMost(MaxAtMost(AllStates, n).value, n)
  {
    var r := MaxAtMost(AllStates, n);
    assert AllStates[0].Value() <= n;
    forall t: State | t.Value() <= n
      ensures t.Value() <= r.value.Value()
    {
      AllStatesListed(t);
    }
  }

  /** What the transition table must hold for tier `s` and denomination `d`:
      the accepting tier once the sum reaches 50, otherwise the greatest tier
      whose value does not exceed the sum. */
  ghost predicate IsTransition(s: State, d: int, r: State) {
    if s.Value() + d >= Price then r == S50 else IsGreatestAtMost(r, s.Value() + d)
  }

  /** The entry for tier `s` and denomination `d`: the accepting tier once the
      sum reaches 50, otherwise the maximum by value of the tiers not exceeding
      the sum, which exists because the sum is not negative. */
  function Transition(s: State, d: int): (r: State)
    requires s.Value() + d >= 0
    ensures IsTransition(s, d, r)
  {
    var newAmount := s.Value() + d;
    if newAmount >= Price then S50
    else
      MaxAtMostAllStates(newAmount);
      MaxAtMost(AllStates, newAmount).value
  }

  /** A correct row of the table for tier `s`: one entry per denomination. */
  ghost predicate RowCorrect(s: State, row: map<int, State>) {
    && (forall d {:trigger d in row} :: d in row <==> d in Denominations)
    && (forall d {:trigger row[d]} :: d in row ==> IsTransition(s, d, row[d]))
  }

  /** A complete transition table: one correct row per tier. */
  ghost predicate TableCorrect(t: map<State, map<int, State>>) {
    && (forall s: State :: s in t)
    && (forall s: State {:trigger t[s]} :: s in t && RowCorrect(s, t[s]))
  }

  /** Since every tier value and every denomination is a multiple of 10, the
      greatest tier below 50 not exceeding the sum is the tier equal to it. */
  lemma TransitionIsExactTier(s: State, d: int, r: State)
    requires d in Denominations
    requires IsTransition(s, d, r)
    ensures r == S50 <==> s.Value() + d >= Price
    ensures s.Value() + d < Price ==> r.Value() == s.Value() + d
  {
    var n := s.Value() + d;
    if n < Price {
      assert StateOf(n).Value() == n;
    }
  }

  /** The entry for the tier of the credit and an accepted denomination is
      exactly the tier recomputed from the credit after insertion: the table
      lookup and the direct recomputation agree, and the entry is unique. */
  lemma TableLookupAgrees(amount: int, d: int, r: State)
    requires amount >= 0 && amount % 10 == 0
    requires d in Denominations
    ensures IsTransition(TierOf(amount), d, r) <==> r == TierOf(amount + d)
  {
    var s := TierOf(amount);
    var n := s.Value() + d;
    if amount + d >= Price {
      assert n >= Price;
    } else {
      assert n == amount + d && IsTierValue(n);
      if IsTransition(s, d, r) {
        TransitionIsExactTier(s, d, r);
      }
      var t := TierOf(amount + d);
      forall u: State | u.Value() <= n
        ensures u.Value() <= t.Value()
      {
      }
    }
  }

  /** One insertion step through a correct table: the lookup is defined, it
      yields the tier of the new credit, and the new credit is again a
      multiple of 10. */
  lemma TableStep(t: map<State, map<int, State>>, amount: int, d: int)
    requires TableCorrect(t)
    requires amount >= 0 && amount % 10 == 0
    requires d in Denominations
    ensures TierOf(amount) in t && d in t[TierOf(amount)]
    ensures amount + d >= 0 && (amount + d) % 10 == 0
    ensures t[TierOf(amount)][d] == TierOf(amount + d)
    ensures IsTransition(TierOf(amount), d, TierOf(amount + d))
  {
    var s := TierOf(amount);
    assert RowCorrect(s, t[s]);
    DenominationIsTens(d);
    SumOfTens(amount, d);
    TableLookupAgrees(amount, d, t[s][d]);
  }
}
