/** The vending machine's credit state machine: exact credit, its tier, the
    per-drink counters and the transition table, all updated in place. */
module Vending {
  import opened Tiers
  import Decimal

  /** The drink catalog, keyed by the icons the machine counts. */
  const Soda: string := "\U{1F964}"
  const JuiceBox: string := "\U{1F9C3}"
  const Beer: string := "\U{1F37A}"
  const CannedDrink: string := "\U{1F96B}"
  const Catalog: set<string> := {Soda, JuiceBox, Beer, CannedDrink}

  const ReadyLabel: string := "READY_TO_DISPENSE"
  const WaitingPrefix: string := "WAITING_"

  /** The inner loop of the table construction: the row of `state`, with one
      entry per accepted denomination. */
  method InitializeRow(state: State) returns (row: map<int, State>)
    ensures RowCorrect(state, row)
  {
    row := map[];
    var k := 0;
    while k < |Denominations|
      invariant 0 <= k <= |Denominations|
      invariant forall d :: d in row <==> d in Denominations[..k]
      invariant forall d :: d in row ==> IsTransition(state, d, row[d])
    {
      var denomination := Denominations[k];
      row := row[denomination := Transition(state, denomination)];
      assert Denominations[..k + 1] == Denominations[..k] + [denomination];
      k := k + 1;
    }
    assert Denominations[..k] == Denominations;
  }

  class VendingMachine {
    const acceptableDenominations: seq<int> := Denominations
    var currentAmount: int
    var currentState: State
    var drinksDispensed: map<string, nat>
    var transitions: map<State, map<int, State>>

    /** The class invariant: the credit is a non-negative multiple of 10, the
        tier is always recomputable from it, there is one counter per catalog
        drink, and the transition table is complete and correct. */
    ghost predicate Valid()
      reads this
    {
      && currentAmount >= 0
      && currentAmount % 10 == 0
      && currentState == TierOf(currentAmount)
      && drinksDispensed.Keys == Catalog
      && TableCorrect(transitions)
    }

    /** A new machine holds no credit, is in the lowest tier, has dispensed
        nothing and carries a complete transition table. */
    constructor ()
      ensures Valid()
      ensures currentAmount == 0 && currentState == S0
      ensures forall icon :: icon in drinksDispensed ==> drinksDispensed[icon] == 0
    {
      currentAmount := 0;
      currentState := S0;
      drinksDispensed := map[Soda := 0, JuiceBox := 0, Beer := 0, CannedDrink := 0];
      transitions := map[];
      new;
      InitializeTransitions();
    }

    /** Builds the transition table row by row, one row per tier in
        declaration order. */
    method InitializeTransitions()
      modifies this`transitions
      ensures TableCorrect(transitions)
    {
      transitions := map s | s in AllStates :: map[];
      forall s: State
        ensures s in transitions
      {
        AllStatesListed(s);
      }
      var i := 0;
      while i < |AllStates|
        invariant 0 <= i <= |AllStates|
        invariant forall s: State :: s in transitions
        invariant forall j :: 0 <= j < i ==> RowCorrect(AllStates[j], transitions[AllStates[j]])
      {
        var state := AllStates[i];
        var row := InitializeRow(state);
        transitions := transitions[state := row];
        i := i + 1;
      }
      forall s: State
        ensures s in transitions && RowCorrect(s, transitions[s])
      {
        AllStatesListed(s);
      }
    }

    /** Inserting a coin or note: an unknown denomination is refused and
        nothing changes; an accepted one adds its value to the credit and moves
        to the tier the table gives for the current tier and the denomination. */
    method InsertMoney(denomination: int) returns (accepted: bool)
      requires Valid()
      modifies this`currentAmount, this`currentState
      ensures Valid()
      ensures accepted <==> denomination in acceptableDenominations
      ensures !accepted ==> currentAmount == old(currentAmount) && currentState == old(currentState)
      ensures accepted ==> currentAmount == old(currentAmount) + denomination
      ensures accepted ==> IsTransition(TierOf(old(currentAmount)), denomination, currentState)
      ensures accepted ==> TierOf(old(currentAmount)) in transitions && denomination in transitions[TierOf(old(currentAmount))]
      ensures accepted ==> currentState == transitions[TierOf(old(currentAmount))][denomination]
    {
      if denomination !in acceptableDenominations {
        return false;
      }
      TableStep(transitions, currentAmount, denomination);
      var state := TierOf(currentAmount);
      var nextState := transitions[state][denomination];
      currentAmount := currentAmount + denomination;
      currentState := nextState;
      assert currentState == TierOf(currentAmount);
      return true;
    }

    /** A drink can be dispensed exactly when the credit is at least 50. */
    function CanDispenseDrink(): (r: bool)
      reads this
      requires Valid()
      ensures r <==> currentAmount >= Price
    {
      currentState == S50 || currentAmount >= Price
    }

    /** Dispensing a drink from the catalog: refused, with nothing changed, below
        50; otherwise the price is deducted, that drink's counter goes up by one
        and the tier is recomputed from the remaining credit. Below 50 any icon is
        refused before the counters are consulted. With 50 or more, an icon outside
        the catalog is excluded here: it would fail after the 50 was already
        deducted, with no drink counted and the tier left at S50, which no longer
        matches the credit when the old credit was below 100. */
    method DispenseDrink(drinkIcon: string) returns (dispensed: bool)
      requires Valid()
      requires drinkIcon in Catalog || currentAmount < Price
      modifies this`currentAmount, this`currentState, this`drinksDispensed
      ensures Valid()
      ensures dispensed <==> old(currentAmount) >= Price
      ensures !dispensed ==> currentAmount == old(currentAmount) && currentState == old(currentState)
      ensures !dispensed ==> drinksDispensed == old(drinksDispensed)
      ensures dispensed ==> currentAmount == old(currentAmount) - Price
      ensures dispensed ==> drinksDispensed[drinkIcon] == old(drinksDispensed[drinkIcon]) + 1
      ensures forall icon :: icon in Catalog && icon != drinkIcon ==> drinksDispensed[icon] == old(drinksDispensed[icon])
    {
      if !CanDispenseDrink() {
        return false;
      }
      currentAmount := currentAmount - Price;
      drinksDispensed := drinksDispensed[drinkIcon := drinksDispensed[drinkIcon] + 1];
      currentState := TierOf(currentAmount);
      return true;
    }

    /** Hands back the whole credit and returns the machine to the initial tier. */
    method ReturnChange() returns (change: int)
      requires Valid()
      modifies this`currentAmount, this`currentState
      ensures Valid()
      ensures change == old(currentAmount) && change >= 0
      ensures currentAmount == 0 && currentState == S0
    {
      change := currentAmount;
      currentAmount := 0;
      currentState := S0;
    }

    /** The status label: ready exactly when a drink can be dispensed, otherwise
        "WAITING_" followed by the decimal credit, which is then below 50. */
    function GetCurrentState(): (status: string)
      reads this
      requires Valid()
      ensures status == ReadyLabel <==> currentAmount >= Price
      ensures currentAmount < Price ==>
        && |status| > |WaitingPrefix|
        && status[..|WaitingPrefix|] == WaitingPrefix
        && Decimal.IsDigits(status[|WaitingPrefix|..])
        && Decimal.ParseDecimal(status[|WaitingPrefix|..]) == currentAmount
      ensures currentAmount < Price ==> status == WaitingPrefix + Decimal.Decimal(currentAmount)
    {
      if currentState == S50 then ReadyLabel
      else
        var digits := Decimal.Decimal(currentState.Value());
        Decimal.DecimalRoundTrip(currentState.Value());
        var text := WaitingPrefix + digits;
        assert text[0] != ReadyLabel[0];
        assert text[|WaitingPrefix|..] == digits;
        text
    }
  }

  /** Three insertions of 20 reach the accepting tier with a credit of 60. */
  method ScenarioInsertions()
  {
    var m := new VendingMachine();
    var ok := m.InsertMoney(20);
    assert m.currentAmount == 20;
    ok := m.InsertMoney(20);
    assert m.currentAmount == 40;
    ok := m.InsertMoney(20);
    assert m.currentAmount == 60 && m.currentState == S50 && m.CanDispenseDrink();
  }

  /** From a credit of 60, dispensing a soda leaves 10 and one soda counted. */
  method ScenarioDispense(m: VendingMachine)
    requires m.Valid() && m.currentAmount == 60 && m.drinksDispensed[Soda] == 0
    modifies m
  {
    var ok := m.DispenseDrink(Soda);
    assert ok && m.currentAmount == 10 && m.currentState == S10 && m.drinksDispensed[Soda] == 1;
  }

  /** A fresh machine refuses to dispense, even an unknown icon, and refuses an
      unknown denomination. */
  method ScenarioRefusals()
  {
    var m := new VendingMachine();
    var ok := m.DispenseDrink(JuiceBox);
    assert !ok && m.currentAmount == 0 && m.drinksDispensed[JuiceBox] == 0;
    ok := m.InsertMoney(7);
    assert !ok && m.currentAmount == 0;
    ok := m.DispenseDrink("x");
    assert !ok && m.currentAmount == 0 && m.drinksDispensed[JuiceBox] == 0;
  }

  /** A 1000 note reaches the accepting tier; the change is returned once. */
  method ScenarioReturnChange()
  {
    var m := new VendingMachine();
    var ok := m.InsertMoney(1000);
    assert ok && m.currentAmount == 1000 && m.currentState == S50;
    var change := m.ReturnChange();
    assert change == 1000;
    change := m.ReturnChange();
    assert change == 0;
  }
}
