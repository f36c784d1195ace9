# Soft-drink vending machine: credit state machine in Dafny

This project models the credit logic of a drink-vending kiosk (`vending_machine.py`).
The machine accepts a fixed set of denominations (10, 20, 40, 50, 100, 200, 500 and
1000 shillings). It tracks the exact credit inserted and a credit tier. There are six
tiers: 0, 10, 20, 30, 40, and S50, which means "50 or more" and is the accepting tier.
Each drink costs 50. The machine counts the drinks dispensed per catalog icon and
returns the whole credit on request.

The model has three modules:

- `Tiers` (`tiers.dfy`), pure. It holds the tier datatype `State` with its `Value()`,
  lookup of a tier by value (`StateOf`, which models Python's `State(v)`), and the
  tier of a credit amount (`TierOf`, which models `State(min(50, amount))`). It also
  holds the "greatest tier not exceeding an amount" scan (`MaxAtMost`), the
  transition rule (`IsTransition`, `Transition`), what a correct table is
  (`RowCorrect`, `TableCorrect`) and the lemmas that relate table lookup to
  recomputing the tier from the credit.
- `Decimal` (`decimal.dfy`), pure. It renders the decimal text used in the status
  label and parses it back.
- `Vending` (`vending_machine.dfy`), imperative. It has the class `VendingMachine`,
  whose fields are updated in place: `currentAmount`, `currentState`,
  `drinksDispensed` (a map over the four catalog icons) and `transitions` (a map from
  tier to a map from denomination to tier). The table is built by two nested loops:
  `InitializeTransitions` runs over the tiers and `InitializeRow` over the
  denominations.

The class invariant `Valid()` requires:

- the credit is non-negative and a multiple of 10;
- the tier equals `TierOf(currentAmount)`;
- there is exactly one counter per catalog icon;
- the transition table is complete and correct.

`InsertMoney`, `DispenseDrink` and `ReturnChange` require and re-establish
`Valid()`, and the constructor establishes it. `InitializeTransitions` is called only
from the constructor; it changes only `transitions` and ensures `TableCorrect`. The invariant is
what makes the `State(min(50, ...))` conversions well defined: `TierOf` can only be
called on a non-negative multiple of 10.

The four `Scenario…` methods are usage scenarios. They are proved from the method
contracts alone.

## Model

| member | source | states |
|---|---|---|
| Tiers.StateOf | vending_machine.py:4-11 | Looking a tier up by value is defined on the six tier values and returns the tier with exactly that value |
| Tiers.IsTierValueExactly | vending_machine.py:4-11 | The lookup by value is defined exactly on the values some tier carries (both directions) |
| Tiers.TierOf | vending_machine.py:63 | For a non-negative multiple of 10, `State(min(50, amount))` is S50 iff the amount is at least 50, and otherwise the tier whose value equals the amount |
| Tiers.MaxAtMost | vending_machine.py:51-54 | The maximum-by-value scan yields nothing iff no tier is at most the amount; otherwise it yields a member that does not exceed the amount and is at least every qualifying member |
| Tiers.MaxAtMostAllStates | vending_machine.py:51-54 | Over the whole enumeration and any non-negative amount, the maximum exists and is the greatest tier not exceeding the amount |
| Tiers.Transition | vending_machine.py:45-55 | The computed table entry is S50 when the tier value plus the denomination reaches 50, and otherwise the greatest tier not exceeding the sum |
| Tiers.TransitionIsExactTier | vending_machine.py:45-55 | For an accepted denomination, an entry satisfying the rule is S50 iff the sum is at least 50, and otherwise its value equals the sum exactly |
| Tiers.TableLookupAgrees | vending_machine.py:62-68 | Applying the table rule to the tier of the credit and an accepted denomination gives exactly the tier recomputed from credit plus denomination, and nothing else |
| Tiers.TableStep | vending_machine.py:62-68 | In a correct table, the lookup for the tier of the credit and an accepted denomination is defined and equals the tier of the new credit; the new credit is again a non-negative multiple of 10 |
| Tiers.DenominationIsTens | vending_machine.py:16 | Every accepted denomination is a positive multiple of 10 |
| Vending.InitializeRow | vending_machine.py:44-55 | The row built for a tier has exactly the accepted denominations as keys, and each entry follows the transition rule |
| Vending.VendingMachine.InitializeTransitions | vending_machine.py:31-55 | After the nested loops, the table has an entry for every tier and every accepted denomination, each following the transition rule |
| Vending.VendingMachine.constructor | vending_machine.py:14-29 | A new machine satisfies the invariant, with credit 0, tier S0, every drink counter 0 and a complete table |
| Vending.VendingMachine.InsertMoney | vending_machine.py:57-69 | Returns true iff the denomination is accepted. A refused one changes nothing. An accepted one adds exactly its value to the credit and sets the tier to the table entry for the old tier, which follows the transition rule. The invariant is preserved, so the new tier is also the one recomputed from the new credit |
| Vending.VendingMachine.CanDispenseDrink | vending_machine.py:71-73 | Under the invariant, true iff the credit is at least 50, so the tier test is redundant; being a function, it changes nothing |
| Vending.VendingMachine.DispenseDrink | vending_machine.py:75-85 | Succeeds iff the credit is at least 50. On refusal nothing changes. On success the credit drops by exactly 50 and the chosen drink's counter rises by exactly 1. Every other counter is unchanged, and the tier is recomputed from the remaining credit |
| Vending.VendingMachine.ReturnChange | vending_machine.py:87-92 | Returns the credit held before the call, and leaves credit 0 and tier S0, so an immediate second call returns 0 |
| Vending.VendingMachine.GetCurrentState | vending_machine.py:94-98 | The label is "READY_TO_DISPENSE" iff the credit is at least 50; otherwise it is exactly "WAITING_" followed by the canonical decimal rendering of the credit (digits, no leading zero) and those digits read back as the credit |
| Decimal.Decimal | vending_machine.py:98 | The decimal rendering of a number is non-empty, all digits and has no leading zero |
| Decimal.DecimalRoundTrip | vending_machine.py:98 | Parsing the decimal rendering of a number gives the number back |

## Left out

- `vending_machine_gui.py` is not part of this model. It is the tkinter presentation
  layer (layout, coin and drink animations on timer callbacks, message boxes and label
  updates). It only calls the public methods and reads `current_amount`,
  `drinks_dispensed` and `acceptable_denominations` (the last one to build its
  denomination buttons; the model exposes it as `acceptableDenominations`).
- Vending.VendingMachine.DispenseDrink: requires the icon to be one of the four
  catalog keys whenever the credit is at least 50, because only catalog icons are ever
  passed to it. Below 50 any icon is accepted and, as in the source, refused at
  vending_machine.py:77-78 before the counters are touched. When the credit is at
  least 50, an icon outside the catalog raises `KeyError` at vending_machine.py:81
  after 50 was deducted at vending_machine.py:80, so the 50 is lost and no drink is
  counted. The tier is
  not recomputed and stays S50. That is still correct when the old credit was 100 or
  more. It breaks the invariant only when the old credit was 50 to 90, for example
  50 drops to 0 while the tier stays S50. Python exceptions are not modelled.
- Vending.VendingMachine.InitializeTransitions: each row is filled in a local map by
  `InitializeRow` and then stored. The source writes every entry straight into the
  nested dictionary. The resulting table is the same. The six empty rows are created
  by a map comprehension over the tiers instead of a dictionary literal.
- Tiers.MaxAtMost: where Python's `max` would raise on an empty selection, the model
  returns `None`. That case never arises, since every sum is at least 10.
- Python's `Enum` and `typing` machinery are not modelled. `State` is a datatype with
  a `Value()` function.
- `acceptable_denominations` is an instance attribute that is never changed. Here it
  is a class constant equal to the module constant `Denominations`.
- Integers: Python integers are unbounded, and so are Dafny's, so there is no
  overflow to model.
- On insertion, the new tier comes from the table lookup keyed by the tier of the
  old credit, as in the source; `TableLookupAgrees` proves it equals the tier
  recomputed from the new credit. Icons outside the catalog are excluded from
  dispensing by a `requires` (see above).
