/** Error reports: how the form controller turns a schema-validation outcome
    into a map from field name to messages, how it reconciles such a report
    with the errors it already holds, and how it reads a validity verdict off it.
 */
module ValidationReport {
  import opened JsObject

  /** One entry of a failure's `inner` list. */
  datatype Issue = Issue(path: string, message: string)

  /** What the schema-validation engine reports: success, or the list of
      failed checks in the order it found them. */
  datatype Outcome = Passed | Failed(inner: seq<Issue>)

  /** Field name to ordered error messages. */
  type Report = Entries<seq<string>>

  /** `prev[path] || []`: an array, even an empty one, is truthy, so only a
      missing key falls back to the empty list. */
  function MessagesOf(m: Report, k: string): seq<string>
  {
    match Get(m, k)
    case Some(l) => l
    case None => []
  }

  /** `errors[k] && errors[k].length > 0` */
  predicate HasErrors(m: Report, k: string)
  {
    Get(m, k).Some? && |Get(m, k).value| > 0
  }

  /** No entry holds an empty list. */
  predicate Sanitized(m: Report)
  {
    forall i :: 0 <= i < |m| ==> |m[i].1| > 0
  }

  // ---------------------------------------------------------------------------
  // Building a report

  /** Success: every submitted field maps to the empty list, in key order. */
  function SuccessReport<V>(values: Entries<V>): (r: Report)
    ensures |r| == |values|
    ensures forall i :: 0 <= i < |r| ==> r[i].0 == values[i].0 && r[i].1 == []
    ensures Keys(r) == Keys(values)
    ensures forall k :: Get(r, k) == if k in Keys(values) then Some([]) else None
    ensures UniqueKeys(values) ==> UniqueKeys(r)
  {
    if values == [] then [] else [(values[0].0, [])] + SuccessReport(values[1..])
  }

  /** The failure reduce: each issue appends its message to its path's list. */
  function FoldIssues(acc: Report, issues: seq<Issue>): (r: Report)
    ensures Keys(r) == Keys(acc) + Paths(issues)
    ensures UniqueKeys(acc) ==> UniqueKeys(r)
    decreases |issues|
  {
    if issues == [] then acc
    else
      var p := issues[0].path;
      FoldIssues(Put(acc, p, MessagesOf(acc, p) + [issues[0].message]), issues[1..])
  }

  function FailureReport(issues: seq<Issue>): (r: Report)
    ensures Keys(r) == Paths(issues)
    ensures UniqueKeys(r)
  {
    FoldIssues([], issues)
  }

  /** `_getValidationErrors` for a given engine outcome and submitted values. */
  function BuildReport(outcome: Outcome, values: Entries<string>): (r: Report)
    ensures UniqueKeys(values) ==> UniqueKeys(r)
  {
    match outcome
    case Passed => SuccessReport(values)
    case Failed(inner) => FailureReport(inner)
  }

  // Reference definitions the failure fold is measured against.

  /** The messages reported for path `p`, in encounter order. */
  function MessagesFor(issues: seq<Issue>, p: string): seq<string>
  {
    if issues == [] then []
    else (if issues[0].path == p then [issues[0].message] else []) + MessagesFor(issues[1..], p)
  }

  function Paths(issues: seq<Issue>): set<string>
  {
    if issues == [] then {} else {issues[0].path} + Paths(issues[1..])
  }

  function TotalMessages(m: Report): nat
  {
    if m == [] then 0 else |m[0].1| + TotalMessages(m[1..])
  }

  lemma {:induction false} PathsHaveMessages(issues: seq<Issue>, p: string)
    ensures p in Paths(issues) <==> |MessagesFor(issues, p)| > 0
  {
    if issues != [] {
      PathsHaveMessages(issues[1..], p);
    }
  }

  /** Overwriting one key changes the message count by the difference of the two lists. */
  lemma {:induction false} TotalMessagesPut(m: Report, k: string, v: seq<string>)
    requires UniqueKeys(m)
    ensures TotalMessages(Put(m, k, v)) + |MessagesOf(m, k)| == TotalMessages(m) + |v|
  {
    if m != [] && m[0].0 != k {
      TotalMessagesPut(m[1..], k, v);
      assert Put(m, k, v) == [m[0]] + Put(m[1..], k, v);
      assert Put(m, k, v)[1..] == Put(m[1..], k, v);
    } else if m != [] {
      assert m[0].0 !in Keys(m[1..]);
      assert Put(m, k, v)[1..] == m[1..];
    }
  }

  lemma {:induction false} PutKeepsSanitized(m: Report, k: string, v: seq<string>)
    requires Sanitized(m) && |v| > 0
    ensures Sanitized(Put(m, k, v))
  {
    if m != [] && m[0].0 != k {
      PutKeepsSanitized(m[1..], k, v);
      assert Put(m, k, v) == [m[0]] + Put(m[1..], k, v);
    }
  }

  lemma {:induction false} FoldIssuesSanitized(acc: Report, issues: seq<Issue>)
    requires Sanitized(acc)
    ensures Sanitized(FoldIssues(acc, issues))
    decreases |issues|
  {
    if issues != [] {
      var p := issues[0].path;
      PutKeepsSanitized(acc, p, MessagesOf(acc, p) + [issues[0].message]);
      FoldIssuesSanitized(Put(acc, p, MessagesOf(acc, p) + [issues[0].message]), issues[1..]);
    }
  }

  lemma MessagesOfPut(m: Report, k: string, v: seq<string>, q: string)
    ensures MessagesOf(Put(m, k, v), q) == if q == k then v else MessagesOf(m, q)
  {
  }

  lemma {:induction false} FoldIssuesMessages(acc: Report, issues: seq<Issue>, q: string)
    ensures MessagesOf(FoldIssues(acc, issues), q) == MessagesOf(acc, q) + MessagesFor(issues, q)
    decreases |issues|
  {
    if issues != [] {
      var p := issues[0].path;
      var next := Put(acc, p, MessagesOf(acc, p) + [issues[0].message]);
      assert FoldIssues(acc, issues) == FoldIssues(next, issues[1..]);
      FoldIssuesMessages(next, issues[1..], q);
      MessagesOfPut(acc, p, MessagesOf(acc, p) + [issues[0].message], q);
      var here := if p == q then [issues[0].message] else [];
      assert MessagesFor(issues, q) == here + MessagesFor(issues[1..], q);
      assert MessagesOf(next, q) == MessagesOf(acc, q) + here;
    }
  }

  lemma {:induction false} FoldIssuesTotal(acc: Report, issues: seq<Issue>)
    requires UniqueKeys(acc)
    ensures TotalMessages(FoldIssues(acc, issues)) == TotalMessages(acc) + |issues|
    decreases |issues|
  {
    if issues != [] {
      var p := issues[0].path;
      TotalMessagesPut(acc, p, MessagesOf(acc, p) + [issues[0].message]);
      FoldIssuesTotal(Put(acc, p, MessagesOf(acc, p) + [issues[0].message]), issues[1..]);
    }
  }

  /** The failure report holds exactly the reported paths, each with its
      messages in encounter order (hence never an empty list), and as many
      messages in all as there were failed checks. */
  lemma FailureReportSpec(issues: seq<Issue>)
    ensures Sanitized(FailureReport(issues))
    ensures TotalMessages(FailureReport(issues)) == |issues|
  {
    FoldIssuesSanitized([], issues);
    FoldIssuesTotal([], issues);
  }

  lemma FailureReportMessages(issues: seq<Issue>, p: string)
    requires p in Paths(issues)
    ensures Get(FailureReport(issues), p) == Some(MessagesFor(issues, p))
  {
    var r := FailureReport(issues);
    FoldIssuesMessages([], issues, p);
    assert MessagesOf(r, p) == MessagesFor(issues, p);
    assert p in Keys(r);
    assert Get(r, p).Some?;
  }

  // ---------------------------------------------------------------------------
  // Reconciling a report with the errors already held

  /** `_sanitizeFormErrors`: the reduce into a fresh object adds each
      non-empty entry as a new key at the end, so it keeps exactly the
      non-empty entries, in their order. */
  function Sanitize(m: Report): (r: Report)
    requires UniqueKeys(m)
    ensures Sanitized(r)
    ensures UniqueKeys(r)
    ensures Keys(r) <= Keys(m)
    ensures forall k :: Get(r, k) == if HasErrors(m, k) then Get(m, k) else None
  {
    if m == [] then []
    else if |m[0].1| > 0 then [m[0]] + Sanitize(m[1..])
    else Sanitize(m[1..])
  }

  /** A sanitized object is left as it is, so sanitizing twice is sanitizing once. */
  lemma {:induction false} SanitizeIdempotent(m: Report)
    requires UniqueKeys(m)
    ensures Sanitized(m) ==> Sanitize(m) == m
    ensures Sanitize(Sanitize(m)) == Sanitize(m)
  {
    if m != [] {
      SanitizeIdempotent(m[1..]);
      if Sanitized(m) {
        assert Sanitized(m[1..]) by {
          forall i | 0 <= i < |m[1..]| ensures |m[1..][i].1| > 0 {
            assert m[1..][i] == m[i + 1];
          }
        }
      }
    }
    SanitizeFixes(Sanitize(m));
  }

  lemma {:induction false} SanitizeFixes(m: Report)
    requires UniqueKeys(m) && Sanitized(m)
    ensures Sanitize(m) == m
  {
    if m != [] {
      assert |m[0].1| > 0;
      assert Sanitized(m[1..]) by {
        forall i | 0 <= i < |m[1..]| ensures |m[1..][i].1| > 0 {
          assert m[1..][i] == m[i + 1];
        }
      }
      SanitizeFixes(m[1..]);
    }
  }

  /** `_sanitizeFormErrors({ ...prev, ...report })`: reported fields take the
      report's messages, or disappear when the report's list is empty; every
      other field keeps its previous non-empty entry. */
  function MergeReport(prev: Report, report: Report): (r: Report)
    requires UniqueKeys(prev) && UniqueKeys(report)
    ensures Sanitized(r) && UniqueKeys(r)
    ensures forall k :: k in Keys(report) ==>
      Get(r, k) == if HasErrors(report, k) then Get(report, k) else None
    ensures forall k :: k !in Keys(report) ==>
      Get(r, k) == if HasErrors(prev, k) then Get(prev, k) else None
  {
    Sanitize(Spread(prev, report))
  }

  lemma {:induction false} SanitizedGet(m: Report, k: string)
    requires Sanitized(m)
    ensures Get(m, k).Some? ==> |Get(m, k).value| > 0
  {
    if m != [] && m[0].0 != k {
      assert Sanitized(m[1..]) by {
        forall i | 0 <= i < |m[1..]| ensures |m[1..][i].1| > 0 {
          assert m[1..][i] == m[i + 1];
        }
      }
      SanitizedGet(m[1..], k);
    }
  }

  /** With a sanitized previous map, fields the report leaves out are untouched. */
  lemma MergeKeepsUnreported(prev: Report, report: Report, k: string)
    requires UniqueKeys(prev) && UniqueKeys(report) && Sanitized(prev)
    requires k !in Keys(report)
    ensures Get(MergeReport(prev, report), k) == Get(prev, k)
  {
    SanitizedGet(prev, k);
  }

  // ---------------------------------------------------------------------------
  // Field-level and form-level reconciliation

  /** The messages an outcome carries for one field. */
  function FieldMessages(outcome: Outcome, name: string): seq<string>
  {
    match outcome
    case Passed => []
    case Failed(inner) => MessagesFor(inner, name)
  }

  /** A failure on a one-field schema names at least one failed check, and
      every failed check is on that field. */
  predicate ReportsOnly(outcome: Outcome, name: string)
  {
    outcome.Failed? ==>
      |outcome.inner| > 0 && forall i :: 0 <= i < |outcome.inner| ==> outcome.inner[i].path == name
  }

  lemma {:induction false} PathsOfOneField(issues: seq<Issue>, name: string)
    requires forall i :: 0 <= i < |issues| ==> issues[i].path == name
    ensures Paths(issues) <= {name}
  {
    if issues != [] {
      PathsOfOneField(issues[1..], name);
    }
  }

  /** Validating one field: every other field keeps its entry, and the field
      maps to its new messages, or is absent when there are none. */
  lemma FieldValidationSpec(prev: Report, name: string, value: string, outcome: Outcome)
    requires UniqueKeys(prev) && Sanitized(prev) && ReportsOnly(outcome, name)
    ensures forall k :: k != name ==>
      Get(MergeReport(prev, BuildReport(outcome, [(name, value)])), k) == Get(prev, k)
    ensures Get(MergeReport(prev, BuildReport(outcome, [(name, value)])), name) ==
      if |FieldMessages(outcome, name)| > 0 then Some(FieldMessages(outcome, name)) else None
  {
    var report := BuildReport(outcome, [(name, value)]);
    if outcome.Failed? {
      FailureReportSpec(outcome.inner);
      PathsOfOneField(outcome.inner, name);
      PathsHaveMessages(outcome.inner, name);
      assert name in Paths(outcome.inner) by {
        assert outcome.inner[0].path == name;
      }
      FailureReportMessages(outcome.inner, name);
    }
    forall k | k != name
      ensures Get(MergeReport(prev, report), k) == Get(prev, k)
    {
      MergeKeepsUnreported(prev, report, k);
    }
  }

  /** A failed form validation only reports failing fields, so a field that
      now passes but had errors before keeps its stale errors. */
  lemma StaleErrorsSurviveFailure(prev: Report, issues: seq<Issue>, values: Entries<string>, k: string)
    requires UniqueKeys(prev) && Sanitized(prev) && UniqueKeys(values)
    requires k !in Paths(issues) && HasErrors(prev, k)
    ensures HasErrors(MergeReport(prev, BuildReport(Failed(issues), values)), k)
    ensures Get(MergeReport(prev, BuildReport(Failed(issues), values)), k) == Get(prev, k)
  {
    FailureReportSpec(issues);
    MergeKeepsUnreported(prev, BuildReport(Failed(issues), values), k);
  }

  /** A passed form validation clears every submitted field and keeps the
      rest; when every field with errors was submitted, no errors remain. */
  lemma PassClearsSubmitted(prev: Report, values: Entries<string>)
    requires UniqueKeys(prev) && Sanitized(prev) && UniqueKeys(values)
    ensures forall k :: k in Keys(values) ==> Get(MergeReport(prev, BuildReport(Passed, values)), k) == None
    ensures forall k :: k !in Keys(values) ==> Get(MergeReport(prev, BuildReport(Passed, values)), k) == Get(prev, k)
    ensures Keys(prev) <= Keys(values) ==> MergeReport(prev, BuildReport(Passed, values)) == []
  {
    var report := BuildReport(Passed, values);
    var r := MergeReport(prev, report);
    forall k | k !in Keys(values)
      ensures Get(r, k) == Get(prev, k)
    {
      MergeKeepsUnreported(prev, report, k);
    }
    if Keys(prev) <= Keys(values) {
      forall k ensures Get(r, k) == None {
        if k !in Keys(values) {
          assert Get(prev, k) == None;
        }
      }
      assert Keys(r) == {};
    }
  }

  // ---------------------------------------------------------------------------
  // The validity verdict

  /** The reduce over the report's keys, seeded with `false`: each step
      discards the accumulator and keeps only the current key's emptiness. */
  function VerdictFold(report: Report, acc: bool): bool
    decreases |report|
  {
    if report == [] then acc else VerdictFold(report[1..], |report[0].1| == 0)
  }

  function FormIsValid(report: Report): bool
  {
    VerdictFold(report, false)
  }

  /** The verdict is the last key's emptiness; an empty report is invalid. */
  lemma {:induction false} VerdictIsLastKey(report: Report, acc: bool)
    ensures VerdictFold(report, acc) == if report == [] then acc else |report[|report| - 1].1| == 0
    decreases |report|
  {
    if report != [] {
      VerdictIsLastKey(report[1..], |report[0].1| == 0);
      if |report| > 1 {
        assert report[1..][|report[1..]| - 1] == report[|report| - 1];
      }
    }
  }

  /** On the two report shapes the engine can produce, the verdict is true
      exactly when the engine passed and at least one value was submitted. */
  lemma VerdictOfOutcome(outcome: Outcome, values: Entries<string>)
    ensures FormIsValid(BuildReport(outcome, values)) <==> outcome.Passed? && values != []
  {
    var report := BuildReport(outcome, values);
    VerdictIsLastKey(report, false);
    if outcome.Failed? {
      FailureReportSpec(outcome.inner);
    }
  }

  /** On those shapes the last-key reduce agrees with a conjunction over all
      fields, except that an empty report is judged invalid. */
  lemma VerdictIsAllClear(outcome: Outcome, values: Entries<string>)
    ensures FormIsValid(BuildReport(outcome, values)) <==>
      BuildReport(outcome, values) != [] &&
      forall i :: 0 <= i < |BuildReport(outcome, values)| ==> BuildReport(outcome, values)[i].1 == []
  {
    var report := BuildReport(outcome, values);
    VerdictOfOutcome(outcome, values);
    if outcome.Failed? {
      FailureReportSpec(outcome.inner);
      if report != [] {
        assert |report[0].1| > 0;
      }
    }
  }

  /** On an arbitrary report the reduce is not a conjunction: a failing
      field `i` before the last one is ignored when the last one is clear. */
  lemma LastKeyWins(report: Report, i: nat)
    requires i < |report| - 1 && |report[i].1| > 0
    requires report[|report| - 1].1 == []
    ensures FormIsValid(report)
  {
    VerdictIsLastKey(report, false);
  }
}
