/** The form controller returned by the `useForm` hook: it tracks field
    values and errors, registers fields as they subscribe, and runs the
    schema-validation engine on blur, on change of a field that already has
    errors, and on submit.

    The engine is a parameter of every operation that validates: a total
    function from a schema and a value object to an `Outcome`. Each
    asynchronous validation runs to completion before the next operation.
 */
module FormController {
  import opened JsObject
  import opened ValidationReport

  /** A field's validation rule, opaque to the controller. `Undefined` is
      JavaScript's `undefined`: no rule was given, or the name never subscribed. */
  datatype Validation = Undefined | Rule(descriptor: string)

  /** The schema-validation engine: `yup.object().shape(schema).validate(values)`. */
  type Engine = (Entries<Validation>, Entries<string>) -> Outcome

  /** What a field passes to `subscribe`. */
  datatype Field = Field(name: string, initialValue: Option<string>, validation: Validation)

  /** What `subscribe` hands back for the field to bind to. */
  datatype Binding = Binding(name: string, value: string, errors: Option<seq<string>>)

  /** JavaScript truthiness of a possibly undefined string. */
  predicate Truthy(v: Option<string>)
  {
    v.Some? && v.value != ""
  }

  /** `field.initialValue || ""` */
  function InitialOrEmpty(v: Option<string>): string
  {
    if Truthy(v) then v.value else ""
  }

  /** `schema[name]` */
  function RuleOf(schema: Entries<Validation>, name: string): Validation
  {
    match Get(schema, name)
    case Some(rule) => rule
    case None => Undefined
  }

  /** `{ [name]: schema[name] }`: the one-field schema a field validation uses. */
  function FieldSchema(schema: Entries<Validation>, name: string): Entries<Validation>
  {
    [(name, RuleOf(schema, name))]
  }

  /** The verdict on `{ ...a, ...b }` is true exactly when the engine passed
      and at least one of the two objects has a key. */
  lemma VerdictOfSpread(outcome: Outcome, a: Entries<string>, b: Entries<string>)
    requires UniqueKeys(b)
    ensures FormIsValid(BuildReport(outcome, Spread(a, b))) <==> outcome.Passed? && (a != [] || b != [])
  {
    VerdictOfOutcome(outcome, Spread(a, b));
  }

  class Controller {
    /** Hook state: persists across renders. */
    var values: Entries<string>
    var errors: Report
    /** Render-pass state: rebuilt as fields subscribe. */
    var initialValues: Entries<string>
    var schema: Entries<Validation>

    /** Every object is well formed, and no field holds an empty error list. */
    ghost predicate Valid()
      reads this
    {
      && UniqueKeys(values)
      && UniqueKeys(errors)
      && Sanitized(errors)
      && UniqueKeys(initialValues)
      && UniqueKeys(schema)
    }

    /** The values checked on submit: `{ ...initialValues, ...values }`. */
    function CurrentValues(): (current: Entries<string>)
      reads this`values, this`initialValues
      requires UniqueKeys(values) && UniqueKeys(initialValues)
      ensures UniqueKeys(current)
      ensures forall k :: Get(current, k) == if k in Keys(values) then Get(values, k) else Get(initialValues, k)
    {
      Spread(initialValues, values)
    }

    constructor ()
      ensures Valid()
      ensures values == [] && errors == [] && initialValues == [] && schema == []
    {
      values := [];
      errors := [];
      initialValues := [];
      schema := [];
    }

    /** A new render pass declares `schema` and `initialValues` afresh. */
    method BeginRender()
      requires Valid()
      modifies this`initialValues, this`schema
      ensures Valid()
      ensures initialValues == [] && schema == []
      ensures values == old(values) && errors == old(errors)
    {
      initialValues := [];
      schema := [];
    }

    /** `subscribe`: registers the field's initial value and rule under its
        name, overwriting an earlier registration, and returns its binding. */
    method Subscribe(field: Field) returns (b: Binding)
      requires Valid()
      modifies this`initialValues, this`schema
      ensures Valid()
      ensures initialValues == Put(old(initialValues), field.name, InitialOrEmpty(field.initialValue))
      ensures schema == Put(old(schema), field.name, field.validation)
      ensures values == old(values) && errors == old(errors)
      ensures b.name == field.name
      ensures Truthy(Get(values, field.name)) ==> b.value == Get(values, field.name).value
      ensures !Truthy(Get(values, field.name)) ==> b.value == InitialOrEmpty(field.initialValue)
      ensures b.errors == Get(errors, field.name)
    {
      initialValues := Put(initialValues, field.name, InitialOrEmpty(field.initialValue));
      schema := Put(schema, field.name, field.validation);
      var current := Get(values, field.name);
      var value := if Truthy(current) then current.value else Get(initialValues, field.name).value;
      b := Binding(field.name, value, Get(errors, field.name));
    }

    /** `_validateField`: validates a one-field slice and merges the result
        into the errors. When the engine reports on that field only, every
        other field's entry is unchanged and the field holds exactly its new
        messages, or nothing when there are none. */
    method ValidateField(name: string, value: string, engine: Engine)
      requires Valid()
      modifies this`errors
      ensures Valid()
      ensures values == old(values) && initialValues == old(initialValues) && schema == old(schema)
      ensures errors == MergeReport(old(errors), BuildReport(engine(FieldSchema(schema, name), [(name, value)]), [(name, value)]))
      ensures var outcome := engine(FieldSchema(schema, name), [(name, value)]);
        ReportsOnly(outcome, name) ==>
          && (forall k :: k != name ==> Get(errors, k) == Get(old(errors), k))
          && Get(errors, name) == if |FieldMessages(outcome, name)| > 0 then Some(FieldMessages(outcome, name)) else None
    {
      var slice := [(name, value)];
      var outcome := engine(FieldSchema(schema, name), slice);
      if ReportsOnly(outcome, name) {
        FieldValidationSpec(errors, name, value, outcome);
      }
      errors := MergeReport(errors, BuildReport(outcome, slice));
    }

    /** `_handleInputBlur`: always validates the field. */
    method HandleInputBlur(name: string, value: string, engine: Engine)
      requires Valid()
      modifies this`errors
      ensures Valid()
      ensures values == old(values) && initialValues == old(initialValues) && schema == old(schema)
      ensures errors == MergeReport(old(errors), BuildReport(engine(FieldSchema(schema, name), [(name, value)]), [(name, value)]))
    {
      ValidateField(name, value, engine);
    }

    /** `_handleInputChange`: revalidates the field exactly when it already
        has errors, then records the new value under its name alone. */
    method HandleInputChange(name: string, value: string, engine: Engine) returns (revalidated: bool)
      requires Valid()
      modifies this`values, this`errors
      ensures Valid()
      ensures revalidated == HasErrors(old(errors), name)
      ensures revalidated ==>
        errors == MergeReport(old(errors), BuildReport(engine(FieldSchema(schema, name), [(name, value)]), [(name, value)]))
      ensures !revalidated ==> errors == old(errors)
      ensures values == Put(old(values), name, value)
      ensures Get(values, name) == Some(value)
      ensures forall k :: k != name ==> Get(values, k) == Get(old(values), k)
      ensures initialValues == old(initialValues) && schema == old(schema)
    {
      revalidated := HasErrors(errors, name);
      if revalidated {
        ValidateField(name, value, engine);
      }
      values := Put(values, name, value);
    }

    /** `_validateForm`: validates the current values against the whole
        schema and merges the report into the errors (fields the report does
        not name keep their errors). The verdict is true exactly when the
        engine passed on a non-empty set of values. */
    method ValidateForm(engine: Engine) returns (formIsValid: bool)
      requires Valid()
      modifies this`errors
      ensures Valid()
      ensures values == old(values) && initialValues == old(initialValues) && schema == old(schema)
      ensures errors == MergeReport(old(errors), BuildReport(engine(schema, CurrentValues()), CurrentValues()))
      ensures formIsValid == FormIsValid(BuildReport(engine(schema, CurrentValues()), CurrentValues()))
      ensures formIsValid <==> engine(schema, CurrentValues()).Passed? && (values != [] || initialValues != [])
    {
      var current := CurrentValues();
      var outcome := engine(schema, current);
      var report := BuildReport(outcome, current);
      var merged := MergeReport(errors, report);
      assert Sanitized(merged) && UniqueKeys(merged);
      errors := merged;
      formIsValid := FormIsValid(report);
      VerdictOfSpread(outcome, initialValues, values);
    }

    /** The handler `onSubmit(handleSubmit)` binds: the callback runs exactly
        when form validation returns true. */
    method Submit(engine: Engine) returns (callbackRuns: bool)
      requires Valid()
      modifies this`errors
      ensures Valid()
      ensures values == old(values) && initialValues == old(initialValues) && schema == old(schema)
      ensures errors == MergeReport(old(errors), BuildReport(engine(schema, CurrentValues()), CurrentValues()))
      ensures callbackRuns == FormIsValid(BuildReport(engine(schema, CurrentValues()), CurrentValues()))
      ensures callbackRuns <==> engine(schema, CurrentValues()).Passed? && (values != [] || initialValues != [])
    {
      callbackRuns := ValidateForm(engine);
    }
  }

  /** Subscribing the same field twice in a render yields the same binding
      both times and the registry of a single subscription. */
  method SubscribeTwice(c: Controller, field: Field) returns (first: Binding, second: Binding)
    requires c.Valid()
    modifies c`initialValues, c`schema
    ensures c.Valid()
    ensures first == second
    ensures c.initialValues == Put(old(c.initialValues), field.name, InitialOrEmpty(field.initialValue))
    ensures c.schema == Put(old(c.schema), field.name, field.validation)
  {
    first := c.Subscribe(field);
    second := c.Subscribe(field);
    PutTwice(old(c.initialValues), field.name, InitialOrEmpty(field.initialValue), InitialOrEmpty(field.initialValue));
    PutTwice(old(c.schema), field.name, field.validation, field.validation);
  }

  /** An e-mail field that starts empty: blurring it with a bad address
      records the engine's message; correcting it revalidates, because the
      field has errors, and the passing result prunes the entry. */
  method EmailScenario() returns (afterBlur: Report, afterChange: Report)
    ensures Keys(afterBlur) == {"email"}
    ensures Get(afterBlur, "email") == Some(["must be a valid email"])
    ensures afterChange == []
  {
    var c := new Controller();
    var binding := c.Subscribe(Field("email", Some(""), Rule("required email")));
    assert binding.value == "";
    var issue := Issue("email", "must be a valid email");
    var rejects: Engine := (s, v) => Failed([issue]);
    c.HandleInputBlur("email", "bad", rejects);
    FieldValidationSpec([], "email", "bad", Failed([issue]));
    assert MessagesFor([issue], "email") == [issue.message];
    afterBlur := c.errors;
    assert forall k :: k in Keys(afterBlur) <==> k == "email";
    var accepts: Engine := (s, v) => Passed;
    var revalidated := c.HandleInputChange("email", "a@b.com", accepts);
    FieldValidationSpec(afterBlur, "email", "a@b.com", Passed);
    afterChange := c.errors;
    assert forall k :: Get(afterChange, k) == None;
  }

  /** Two subscribed fields: a submit on which both fail does not run the
      callback and leaves both fields' messages; a later submit on which
      both pass runs it and clears every error. */
  method SubmitScenario() returns (firstRuns: bool, afterFailure: Report, secondRuns: bool, afterPass: Report)
    ensures !firstRuns && secondRuns
    ensures Get(afterFailure, "name") == Some(["required"])
    ensures Get(afterFailure, "email") == Some(["required", "must be a valid email"])
    ensures afterPass == []
  {
    var c := new Controller();
    var nameBinding := c.Subscribe(Field("name", None, Rule("required")));
    var emailBinding := c.Subscribe(Field("email", None, Rule("required email")));
    var current := c.CurrentValues();
    assert Keys(current) == {"name", "email"};
    var issues := [Issue("email", "required"), Issue("name", "required"), Issue("email", "must be a valid email")];
    var rejects: Engine := (s, v) => Failed(issues);
    firstRuns := c.Submit(rejects);
    afterFailure := c.errors;
    ScenarioFailureReport(issues, afterFailure);
    var accepts: Engine := (s, v) => Passed;
    secondRuns := c.Submit(accepts);
    PassClearsSubmitted(afterFailure, current);
    afterPass := c.errors;
  }

  lemma ScenarioFailureReport(issues: seq<Issue>, errors: Report)
    requires issues == [Issue("email", "required"), Issue("name", "required"), Issue("email", "must be a valid email")]
    requires errors == MergeReport([], FailureReport(issues))
    ensures Get(errors, "name") == Some(["required"])
    ensures Get(errors, "email") == Some(["required", "must be a valid email"])
    ensures Keys(errors) <= {"name", "email"}
  {
    ScenarioMessages(issues);
    FailureReportMessages(issues, "name");
    FailureReportMessages(issues, "email");
  }

  lemma ScenarioMessages(issues: seq<Issue>)
    requires issues == [Issue("email", "required"), Issue("name", "required"), Issue("email", "must be a valid email")]
    ensures Paths(issues) == {"name", "email"}
    ensures MessagesFor(issues, "name") == ["required"]
    ensures MessagesFor(issues, "email") == ["required", "must be a valid email"]
  {
    var rest := [Issue("name", "required"), Issue("email", "must be a valid email")];
    assert issues[1..] == rest && rest[1..] == [rest[1]];
  }
}
