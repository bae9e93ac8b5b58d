/** The "match for gender" coupon condition: an administrator picks `man` or `woman`
    with the equality operator, and a customer meets the condition when the gender
    derived from their title equals that choice. */
module MatchForGenderCondition {
  import opened Condition

  /** The name of the condition's single input. */
  const INPUT1: string := "gender"

  const GENDER_MAN: string := "man"
  const GENDER_WOMAN: string := "woman"

  /** The operators each input accepts: equality only. */
  const AVAILABLE_OPERATORS: map<string, seq<string>> := map[INPUT1 := [EQUAL]]

  /** An operator and a value that passed validation. */
  datatype Rule = Rule(op: string, value: string)

  datatype Validated = Accepted(rule: Rule) | Rejected(error: ConditionError)

  /** The two maps the condition object stores, keyed by input name. */
  datatype Stored = Stored(operators: map<string, string>, values: map<string, string>)

  /** The state of a freshly built condition: nothing stored. */
  const UNCONFIGURED: Stored := Stored(map[], map[])

  /** The stored maps after a rule has been accepted. */
  function Store(rule: Rule): Stored
  {
    Stored(map[INPUT1 := rule.op], map[INPUT1 := rule.value])
  }

  /** The only states the condition can reach: nothing stored, or equality with
      one of the two genders stored under the input name. */
  ghost predicate WellFormed(s: Stored)
  {
    s == UNCONFIGURED ||
    s == Store(Rule(EQUAL, GENDER_MAN)) ||
    s == Store(Rule(EQUAL, GENDER_WOMAN))
  }

  /** Both maps hold the input and the stored operator is the one evaluation supports. */
  predicate Configured(s: Stored)
  {
    INPUT1 in s.operators && INPUT1 in s.values && s.operators[INPUT1] == EQUAL
  }

  /** The checks of `setValidators`, in their order: the operator first, then the value. */
  function Validate(op: Option<string>, value: Option<string>): (r: Validated)
    ensures r.Accepted? <==>
              op == Some(EQUAL) && (value == Some(GENDER_MAN) || value == Some(GENDER_WOMAN))
    ensures r.Accepted? ==> r.rule.op == EQUAL && Some(r.rule.value) == value
    ensures op != Some(EQUAL) ==> r == Rejected(InvalidConditionOperator(INPUT1))
    ensures op == Some(EQUAL) && r.Rejected? ==> r == Rejected(InvalidConditionValue(INPUT1))
  {
    if !IsOperatorLegit(op, AVAILABLE_OPERATORS[INPUT1]) then
      Rejected(InvalidConditionOperator(INPUT1))
    else if !(value.Some? && value.value in [GENDER_MAN, GENDER_WOMAN]) then
      Rejected(InvalidConditionValue(INPUT1))
    else
      Accepted(Rule(op.value, value.value))
  }

  /** What `setValidators` reports to its caller. */
  function OutcomeOf(v: Validated): Outcome
  {
    match v
    case Accepted(_) => Pass
    case Rejected(e) => Fail(e)
  }

  /** The stored maps after one call of `setValidators`. */
  function Apply(s: Stored, op: Option<string>, value: Option<string>): (t: Stored)
    ensures op == Some(EQUAL) && (value == Some(GENDER_MAN) || value == Some(GENDER_WOMAN)) ==>
              t == Stored(map[INPUT1 := EQUAL], map[INPUT1 := value.value])
    ensures !(op == Some(EQUAL) && (value == Some(GENDER_MAN) || value == Some(GENDER_WOMAN))) ==>
              t == s
    ensures WellFormed(s) ==> WellFormed(t)
  {
    match Validate(op, value)
    case Accepted(rule) => Store(rule)
    case Rejected(_) => s
  }

  /** Calling `setValidators` twice with the same arguments leaves the state of one call. */
  lemma ApplyIdempotent(s: Stored, op: Option<string>, value: Option<string>)
    ensures Apply(Apply(s, op, value), op, value) == Apply(s, op, value)
  {
  }

  /** The customer's title id as a gender: title 1 (Mr) is a man, every other id,
      known (2 Mrs, 3 Miss) or not, is a woman. */
  function TitleToGender(titleId: int): (gender: string)
    ensures gender == GENDER_MAN || gender == GENDER_WOMAN
    ensures gender == GENDER_MAN <==> titleId == 1
  {
    if titleId == 1 then GENDER_MAN else GENDER_WOMAN
  }

  /** Which radio button of the back-office form starts out checked. */
  datatype CheckedRadio = NoRadio | WomanRadio | ManRadio

  /** The condition object: the two maps are its only state. */
  class MatchForGender {
    var operators: map<string, string>
    var values: map<string, string>

    function State(): Stored
      reads this
    {
      Stored(operators, values)
    }

    ghost predicate Valid()
      reads this
    {
      WellFormed(State())
    }

    constructor ()
      ensures State() == UNCONFIGURED && Valid()
    {
      operators := map[];
      values := map[];
    }

    /** Checks the operator, then the value, and only when both pass replaces the
        stored maps; a failed check raises and leaves them as they were. */
    method SetValidators(genderOperator: Option<string>, genderValue: Option<string>)
      returns (outcome: Outcome)
      modifies this
      ensures outcome == OutcomeOf(Validate(genderOperator, genderValue))
      ensures State() == Apply(old(State()), genderOperator, genderValue)
      ensures old(Valid()) ==> Valid()
    {
      if !IsOperatorLegit(genderOperator, AVAILABLE_OPERATORS[INPUT1]) {
        return Fail(InvalidConditionOperator(INPUT1));
      }
      if !(genderValue.Some? && genderValue.value in [GENDER_MAN, GENDER_WOMAN]) {
        return Fail(InvalidConditionValue(INPUT1));
      }
      operators := map[INPUT1 := genderOperator.value];
      values := map[INPUT1 := genderValue.value];
      outcome := Pass;
    }

    /** Hands the form's `gender` entries to `SetValidators`; a missing entry is null. */
    method SetValidatorsFromForm(formOperators: map<string, string>, formValues: map<string, string>)
      returns (outcome: Outcome)
      modifies this
      ensures var op := if INPUT1 in formOperators then Some(formOperators[INPUT1]) else None;
              var value := if INPUT1 in formValues then Some(formValues[INPUT1]) else None;
              outcome == OutcomeOf(Validate(op, value)) &&
              State() == Apply(old(State()), op, value)
      ensures old(Valid()) ==> Valid()
    {
      var op := if INPUT1 in formOperators then Some(formOperators[INPUT1]) else None;
      var value := if INPUT1 in formValues then Some(formValues[INPUT1]) else None;
      outcome := SetValidators(op, value);
    }

    /** Whether a customer with the given title meets the condition: a stored `man`
        matches title 1 only, a stored `woman` every other title, anything else none. */
    function IsMatching(titleId: int): (matching: bool)
      reads this
      requires Configured(State())
      ensures matching <==>
                (values[INPUT1] == GENDER_MAN && titleId == 1) ||
                (values[INPUT1] == GENDER_WOMAN && titleId != 1)
    {
      // variableOpComparison with the equality operator
      TitleToGender(titleId) == values[INPUT1]
    }

    /** The radio button the back-office form marks as checked. The choice looks at the
        stored operator, not the stored value, so in every reachable state it is the
        `man` radio once something is stored. */
    function CheckedRadio(): (radio: CheckedRadio)
      reads this
      ensures radio == NoRadio <==> INPUT1 !in operators
      ensures Valid() ==> radio != WomanRadio
      ensures Valid() && Configured(State()) ==> radio == ManRadio
    {
      if INPUT1 in operators then
        if operators[INPUT1] == GENDER_WOMAN then WomanRadio else ManRadio
      else
        NoRadio
    }
  }

  /** The configurations of the condition and the customers they admit. */
  method ConfigurationScenarios()
  {
    var c := new MatchForGender();
    var outcome := c.SetValidators(Some(EQUAL), Some(GENDER_MAN));
    assert outcome == Pass;
    assert c.IsMatching(1) && !c.IsMatching(2) && !c.IsMatching(3);

    outcome := c.SetValidators(Some("<"), Some("other"));
    assert outcome == Fail(InvalidConditionOperator(INPUT1));
    outcome := c.SetValidators(Some(EQUAL), Some("other"));
    assert outcome == Fail(InvalidConditionValue(INPUT1));
    assert c.IsMatching(1);

    outcome := c.SetValidatorsFromForm(map[INPUT1 := EQUAL], map[INPUT1 := GENDER_WOMAN]);
    assert outcome == Pass;
    assert !c.IsMatching(1) && c.IsMatching(2) && c.IsMatching(3) && c.IsMatching(0);
    assert c.CheckedRadio() == ManRadio;
  }
}
