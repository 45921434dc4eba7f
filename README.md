# useForm: a verified model of a small form controller

`useForm` is a React hook that controls a form. It keeps the current field
values and the current validation errors. Fields register themselves with
`subscribe`, which records each field's initial value and validation rule
and hands back a binding. A blur validates one field. A change validates a
field only when it already has errors. A submit validates the whole form
and runs the caller's callback only when the form is judged valid.
Validation is delegated to the yup schema engine.

This project models that controller in Dafny in three modules:

- `JsObject` (`js_object.dfy`) models plain JavaScript objects as ordered
  association lists with distinct keys. `Put` is `{ ...m, [k]: v }` and
  `Spread` is `{ ...a, ...b }`. Key order is kept because the validity
  verdict depends on which key is enumerated last.
- `ValidationReport` (`validation_report.dfy`) holds the pure reductions:
  - building the error report from an engine outcome (`SuccessReport`,
    `FailureReport`, `BuildReport`);
  - dropping empty entries (`Sanitize`);
  - merging a report into the previous errors (`MergeReport`);
  - the validity reduce (`FormIsValid`).
  Lemmas about these functions carry the properties.
- `FormController` (`form_controller.dfy`) holds the class `Controller`.
  Its four fields are `values`, `errors`, `initialValues` and `schema`.
  Its methods are the handlers, and each states the new state. The
  invariant `Valid()` says every object has distinct keys and no field
  ever holds an empty error list.

The engine is not reimplemented. It is a parameter of type `Engine`, a
total function from a schema object and a value object to an `Outcome`:
`Passed`, or `Failed` with the ordered list of `{path, message}` issues.
Each method's contract says exactly which schema slice and which value
slice the engine is called with.

Points where the code's behaviour is worth knowing:

- Form validation merges, it does not replace (useForm.js:75). After a
  failed submit, a field that now passes but had errors keeps those stale
  errors (`StaleErrorsSurviveFailure`).
- The verdict reduce keeps only the last key's emptiness (useForm.js:77-80).
  A failure report never holds an empty list, and a success report holds
  only empty lists. On the reports the controller actually builds, the
  verdict is therefore true exactly when the engine passed and at least one
  value was submitted (`VerdictOfOutcome`). It agrees with a conjunction over
  all fields, except that a form with no fields is never valid
  (`VerdictIsAllClear`). The last-key quirk only shows on reports of other
  shapes (`LastKeyWins`).
- `||` treats `""` as absent. A subscribed field whose value is the empty
  string shows its initial value again (useForm.js:103). An empty or missing
  initial value is stored as `""` (useForm.js:96).

## Model

| member | source | states |
|---|---|---|
| `JsObject.Put` | useForm.js:55 | a computed-key spread sets that key and leaves every other key's value alone; an existing key keeps its position and a new key goes last; keys stay distinct |
| `JsObject.Spread` | useForm.js:68 | in `{ ...a, ...b }` every key of `b` reads as in `b` and every other key as in `a`; the keys are the union; `a`'s keys keep their order |
| `ValidationReport.SuccessReport` | useForm.js:18-21 | on success every submitted field, in key order, maps to the empty list, and no other key appears |
| `ValidationReport.FoldIssues` | useForm.js:23-29 | the failure reduce adds exactly the reported paths to the accumulator's keys and keeps keys distinct |
| `ValidationReport.FailureReport` | useForm.js:23-29 | the failure report's keys are exactly the paths that occur, each once |
| `ValidationReport.BuildReport` | useForm.js:14-32 | either report built from an object with distinct keys has distinct keys |
| `ValidationReport.FoldIssuesSanitized` | useForm.js:23-29 | folding issues into an accumulator without empty lists never creates an empty list |
| `ValidationReport.FoldIssuesMessages` | useForm.js:24-27 | folding appends each path's messages, in encounter order, after those already accumulated |
| `ValidationReport.FoldIssuesTotal` | useForm.js:23-29 | each issue adds exactly one message to the fold |
| `ValidationReport.FailureReportSpec` | useForm.js:23-29 | the failure report has no empty list, and its message count equals the number of issues |
| `ValidationReport.FailureReportMessages` | useForm.js:23-29 | every reported path maps to its messages in encounter order |
| `ValidationReport.Sanitize` | useForm.js:34-42 | no entry is empty; every non-empty entry is kept unchanged; every empty or missing one is absent; no key is added; keys stay distinct |
| `ValidationReport.SanitizeIdempotent` | useForm.js:34-42 | an object without empty lists is left as is, so sanitizing twice equals sanitizing once |
| `ValidationReport.MergeReport` | useForm.js:64 | after `sanitize({ ...prev, ...report })`, a reported field holds the report's messages or is absent if they are empty; every other field keeps its non-empty previous entry |
| `ValidationReport.MergeKeepsUnreported` | useForm.js:75 | when the previous errors are sanitized, a field the report does not name is unchanged |
| `ValidationReport.FieldValidationSpec` | useForm.js:58-65 | for an engine that on failure names at least one issue and only the validated field (`ReportsOnly`), validating one field leaves every other field's errors unchanged; the field maps to its new messages, or is absent when there are none |
| `ValidationReport.StaleErrorsSurviveFailure` | useForm.js:70-75 | after a failed form validation, a field with old errors that the failure does not name keeps them |
| `ValidationReport.PassClearsSubmitted` | useForm.js:70-75 | after a passed form validation, every submitted field has no errors and the rest are unchanged; when every erroneous field was submitted, the errors become empty |
| `ValidationReport.VerdictIsLastKey` | useForm.js:77-80 | the reduce's result is the last key's emptiness, or its seed `false` for an empty report |
| `ValidationReport.VerdictOfOutcome` | useForm.js:77-80 | on an engine-built report the verdict is true iff the engine passed and the values are non-empty |
| `ValidationReport.VerdictIsAllClear` | useForm.js:77-80 | on an engine-built report the verdict is true iff the report is non-empty and every list is empty |
| `ValidationReport.LastKeyWins` | useForm.js:77-80 | on every report where some field before the last has errors and the last field is clear, the verdict is true |
| `FormController.VerdictOfSpread` | useForm.js:68-80 | the verdict on `{ ...initialValues, ...values }` is true iff the engine passed and one of the two objects has a key |
| `JsObject.PutTwice` | useForm.js:96-97 | registering a name twice gives the registration the later call makes, as if made once |
| `FormController.Controller.CurrentValues` | useForm.js:68 | the values checked on submit read as `values` where a key is set there, else as `initialValues` |
| `FormController.Controller.constructor` | useForm.js:9-12 | the controller starts with empty values, errors, initial values and schema |
| `FormController.Controller.BeginRender` | useForm.js:11-12 | a render pass starts with empty initial values and schema; values and errors persist |
| `FormController.Controller.Subscribe` | useForm.js:94-108 | sets `initialValues[name]` to the initial value, or `""` when that is missing or empty, and `schema[name]` to the rule, nothing else; the binding value is `values[name]` when non-empty, else the initial value; the binding errors are `errors[name]` |
| `FormController.Controller.ValidateField` | useForm.js:58-65 | calls the engine on the one-field schema and value slice and merges the sanitized report; with an engine that reports only on that field, other entries are unchanged and the field holds exactly its new messages |
| `FormController.Controller.HandleInputBlur` | useForm.js:44-46 | a blur always validates the field with the value it carries |
| `FormController.Controller.HandleInputChange` | useForm.js:48-56 | revalidates iff the field has a non-empty error list; `values` changes only at the field's name |
| `FormController.Controller.ValidateForm` | useForm.js:67-83 | validates `{ ...initialValues, ...values }` against the whole schema and merges the report; the verdict is the last-key reduce, true iff the engine passed on a non-empty form |
| `FormController.Controller.Submit` | useForm.js:85-92 | the submit callback runs iff form validation returns true |
| `FormController.SubscribeTwice` | useForm.js:94-108 | subscribing the same field twice yields equal bindings and the registry of one subscription |
| `FormController.EmailScenario` | useForm.js:44-65 | blurring an e-mail field with a bad address records the engine's message; a correcting change revalidates and prunes the entry |
| `FormController.SubmitScenario` | useForm.js:67-92 | a submit on which two fields fail does not run the callback and keeps both fields' messages in order; a passing submit runs it and clears all errors |

## Left out

- React `useState`, re-rendering, the handler wiring and the hook's returned
  `values`/`errors` (useForm.js:1, 9-10, 104, 106, 110-115): the state is the
  class's fields, and a render pass is `BeginRender` followed by `Subscribe` calls.
- The yup engine (useForm.js:17): it is the `Engine` parameter, and its rule
  semantics are not modelled. A rule descriptor is an opaque string.
- Asynchrony (useForm.js:53, 58-65, 88): every validation completes before
  the next operation. Interleavings of in-flight validations and the
  resulting lost updates are not modelled.
- DOM event objects, `preventDefault` and the `label`/`type` passthrough
  (useForm.js:87, 100-102). A handler takes the field name and value, and
  `Submit` returns whether the callback runs instead of calling it.
- An engine exception without an `inner` list (useForm.js:23): the source's
  behaviour there is undefined.
- JavaScript enumerates integer-like keys ("0", "1", ...) first, in ascending
  order, before other keys. The model uses insertion order for every key.
- Values and initial values are strings. The `||` truthiness of other
  JavaScript values (`0`, `null`, objects) is not modelled.
- FormController.Controller.ValidateField: the per-field guarantee holds only
  for an engine that, on failure, names at least one issue and only the
  validated field (`ReportsOnly`). Without that, the method states only the
  general merge.
- JsObject.Get: reads only an object's own keys. In JavaScript a field name
  that is an `Object.prototype` member (`constructor`, `toString`,
  `__proto__`, ...) reads an inherited value on a plain object even when no
  entry exists. The source then revalidates a clean field on change
  (useForm.js:52), throws while folding a failure on that path
  (useForm.js:26), and binds the inherited value (useForm.js:103). The model
  treats such names like any other key.
