# Match-for-gender coupon condition, modelled in Dafny

The Thelia module `ConditionMatchForGender` contributes one coupon condition,
`MatchForGender`. An administrator configures it in the back office. They pick the
equality operator `==` and one of the values `man` or `woman`. When a customer checks
out, the condition derives a gender from the customer's title id. Title 1 (Mr) gives
`man`; every other id gives `woman`. The customer meets the condition when that gender
equals the configured value.

The model has three modules:

- `Condition` (`condition.dfy`) holds the vocabulary the condition borrows from the
  platform's `ConditionAbstract` base class and its `Operators` constants. It defines
  null-able values (`Option`), the two validation exceptions, `EQUAL` (`"=="`) and
  `isOperatorLegit` as list membership.
- `MatchForGenderCondition` (`match_for_gender.dfy`) has two layers:
  - the pure specification: `Validate` gives the checks of `setValidators` in the
    source's order, `Apply` gives the stored maps after one call, and `TitleToGender`
    gives the title mapping;
  - the `MatchForGender` class, whose `operators` and `values` maps are updated in
    place by `SetValidators` and `SetValidatorsFromForm`, and which is read by
    `IsMatching` and by the back-office radio choice `CheckedRadio`.
- `Lifecycle` (`lifecycle.dfy`) treats a sequence of form submissions. It proves that
  the stored state is always that of the last accepted submission.

The state machine has two states. In `Unconfigured` both maps are empty. In
`Configured` both maps hold exactly the key `gender`: the operator `==` and the value
`man` or `woman`. `WellFormed` says a state is one of these two, and every operation
preserves it. `IsMatching` requires the `Configured` state. A null argument, written
`None`, is what `setValidatorsFromForm` passes on when the form lacks the `gender`
entry. A null operator fails the operator check, and a null value fails the value
check.

`CheckedRadio` reproduces the source as written. The source decides which radio button
to check by comparing the stored *operator* with `woman`. The only operator that can be
stored is `==`, so in every reachable configured state the `man` radio is checked,
whatever value is stored. The model keeps this behaviour and states it in the contract.

## Model

| member | source | states |
|---|---|---|
| `MatchForGenderCondition.Validate` | Condition/Implementation/MatchForGender.php:86-110 | accepts exactly operator `==` with value `man` or `woman`, and the accepted rule is those inputs; any other operator gives InvalidConditionOperator whatever the value, so the operator is checked first; with `==`, any other value (null included) gives InvalidConditionValue |
| `MatchForGenderCondition.Apply` | Condition/Implementation/MatchForGender.php:96-119 | on valid inputs the new state is `gender => ==` and `gender => value`, whatever was stored before; on invalid inputs the state is unchanged; reachable states stay reachable |
| `MatchForGenderCondition.ApplyIdempotent` | Condition/Implementation/MatchForGender.php:112-119 | calling `setValidators` twice with the same arguments leaves the same state as calling it once |
| `MatchForGenderCondition.TitleToGender` | Condition/Implementation/MatchForGender.php:129-141 | the mapping is total, yields only `man` or `woman`, and yields `man` exactly for title id 1 |
| `MatchForGenderCondition.MatchForGender.constructor` | Condition/Implementation/MatchForGender.php:39-55 | a new condition stores nothing (Unconfigured) |
| `MatchForGenderCondition.MatchForGender.SetValidators` | Condition/Implementation/MatchForGender.php:86-120 | returns the outcome of `Validate`; the new maps are `Apply` of the old ones, so nothing is assigned unless both checks pass; keeps the object well formed |
| `MatchForGenderCondition.MatchForGender.SetValidatorsFromForm` | Condition/Implementation/MatchForGender.php:66-74 | behaves exactly as `SetValidators` on the forms' `gender` entries, a missing entry being null |
| `MatchForGenderCondition.MatchForGender.IsMatching` | Condition/Implementation/MatchForGender.php:127-156 | for a configured object, true iff the stored value is `man` and the title is 1, or the stored value is `woman` and the title is anything but 1 |
| `MatchForGenderCondition.MatchForGender.CheckedRadio` | Condition/Implementation/MatchForGender.php:243-250 | no radio is checked iff no operator is stored; in a well-formed state the `woman` radio is never checked, and once configured the `man` radio is |
| `Lifecycle.ReplayKeepsLastAccepted` | Condition/Implementation/MatchForGender.php:96-117 | after any sequence of submissions the state is that of the last accepted one, or the initial state when none was accepted |
| `Lifecycle.ReplayPreservesWellFormed` | Condition/Implementation/MatchForGender.php:86-120 | no sequence of submissions leads out of the Unconfigured/Configured states |
| `Lifecycle.ReplayTwiceIsOnce` | Condition/Implementation/MatchForGender.php:112-119 | submitting the same sequence of forms twice leaves the state one round leaves |
| `Lifecycle.ConfiguredStaysConfigured` | Condition/Implementation/MatchForGender.php:112-117 | once a submission has been accepted the condition is configured, so it can be evaluated, and it holds the last accepted value |
| `Lifecycle.LastAcceptedIsValid` | Condition/Implementation/MatchForGender.php:90-109 | every accepted rule is `==` with `man` or `woman` |

## Left out

- `ConditionMatchForGender.php` is an empty module class that only registers the module with the platform. It has no behaviour.
- `getName`, `getToolTip` and `getSummary` only call the platform's translator, which is not part of this model.
- `drawBackOfficeInputs` builds its HTML by string concatenation with translated labels. Only the choice of the checked radio is modelled (`CheckedRadio`).
- `generateInputs` returns a constant descriptor and has no logic.
- The customer lookup `facade->getCustomer()->getTitleId()` becomes the `int` argument of `IsMatching`.
- `isOperatorLegit` and `variableOpComparison` belong to `ConditionAbstract`, which is not part of this model. The first is modelled as membership in the list of allowed operators. The second is modelled only for `==`, as equality. No other operator can be stored.
- `ConditionAbstract`'s initial values of `operators` and `values` are not part of this model. They are taken to be empty maps.
- The exceptions carry only the input name `gender`. The class name the source also passes is not modelled.
- PHP loose comparison is not modelled: `in_array` at line 105 and `==` at line 139. Values are strings, title ids are integers, and both are compared strictly. A non-string form value such as `true` or `0` is therefore out of scope.
- Evaluating an unconfigured condition is excluded by the precondition of `IsMatching`. PHP would read missing array keys there.
- The condition also appears in a second form that compares the raw numeric title id. That form is not in this repository's source and is not modelled.
