/** The branch-protection verifier: whether the protection of a repository's
    default branch meets the organisation's standard, which status checks the
    standard requires, and whether the verifier creates, updates or leaves
    the protection alone. */
module BranchProtection {
  import opened Wrappers
  import opened ProblemHandlers
  import WorkflowParser

  /** `RequiredStatusChecks`: whether branches must be up to date before
      merging, and the names of the checks that must pass. A nil `Contexts`
      slice behaves exactly like an empty one and is not told apart. */
  datatype StatusChecks = StatusChecks(strict: bool, contexts: seq<string>)

  /** The review rules, as the existing protection reports them
      (`PullRequestReviewsEnforcement`) and as a request states them
      (`PullRequestReviewsEnforcementRequest`). */
  datatype Reviews = Reviews(dismissStale: bool, codeOwners: bool, approvingCount: int)

  /** The protection GitHub reports for a branch. */
  datatype Protection = Protection(
    allowForcePushes: bool,
    reviews: Option<Reviews>,
    statusChecks: Option<StatusChecks>)

  /** The protection the verifier asks GitHub to set; restrictions are always
      nil and are not represented. */
  datatype ProtectionRequest = ProtectionRequest(
    statusChecks: Option<StatusChecks>,
    reviews: Option<Reviews>,
    enforceAdmins: bool,
    allowForcePushes: bool)

  // ---------------------------------------------------------------------------
  // Predicates

  /** `containsValue`: a linear search for an exact match. */
  function ContainsValue(value: string, values: seq<string>): (r: bool)
    ensures r <==> value in values
  {
    if |values| == 0 then false
    else if values[0] == value then true
    else ContainsValue(value, values[1..])
  }

  /** The loop of `checkStatusCheckCompliance`: every requested check occurs
      among the existing ones. */
  function AllContained(requested: seq<string>, existing: seq<string>): (r: bool)
    ensures r <==> forall i :: 0 <= i < |requested| ==> requested[i] in existing
  {
    if |requested| == 0 then true
    else if !ContainsValue(requested[0], existing) then false
    else
      assert forall i :: 1 <= i < |requested| ==> requested[i] == requested[1..][i - 1];
      AllContained(requested[1..], existing)
  }

  /** `checkStatusCheckCompliance`: false when either side is nil; otherwise
      every requested check must already be required (more existing checks
      are fine) and the strict flags must agree. */
  function CheckStatusCheckCompliance(existing: Option<StatusChecks>, request: Option<StatusChecks>): (r: bool)
    ensures r <==> existing.Some? && request.Some? &&
                   (forall c :: c in request.value.contexts ==> c in existing.value.contexts) &&
                   existing.value.strict == request.value.strict
  {
    if existing.None? || request.None? then false
    else if !AllContained(request.value.contexts, existing.value.contexts) then false
    else existing.value.strict == request.value.strict
  }

  /** `checkReviewCompliance`: false when either side is nil; otherwise at
      least as many approvals as requested and identical dismiss-stale and
      code-owner flags. */
  function CheckReviewCompliance(existing: Option<Reviews>, request: Option<Reviews>): (r: bool)
    ensures r ==> existing.Some? && request.Some?
    ensures existing.Some? && request.Some? ==>
              (r <==> existing.value.approvingCount >= request.value.approvingCount &&
                      existing.value.dismissStale == request.value.dismissStale &&
                      existing.value.codeOwners == request.value.codeOwners)
  {
    existing.Some? && request.Some? &&
    existing.value.approvingCount >= request.value.approvingCount &&
    existing.value.dismissStale == request.value.dismissStale &&
    existing.value.codeOwners == request.value.codeOwners
  }

  /** The condition of `verifyBranchProtection` under which an existing
      protection is left alone. */
  predicate Compliant(existing: Protection, request: ProtectionRequest) {
    existing.allowForcePushes == request.allowForcePushes &&
    CheckReviewCompliance(existing.reviews, request.reviews) &&
    CheckStatusCheckCompliance(existing.statusChecks, request.statusChecks)
  }

  // ---------------------------------------------------------------------------
  // Keeping the checks a protection already requires

  predicate NoDuplicates(s: seq<string>) {
    forall i, j :: 0 <= i < j < |s| ==> s[i] != s[j]
  }

  /** The loop of `addExistingChecksToRequest`: each existing check not yet in
      the (growing) request list is appended to it. */
  function MergeChecks(request: seq<string>, existing: seq<string>): (r: seq<string>)
    ensures |request| <= |r| && r[..|request|] == request
    ensures forall c :: c in existing ==> c in r
    ensures forall c :: c in r <==> c in request || c in existing
    ensures forall k :: |request| <= k < |r| ==> r[k] in existing && r[k] !in request
    ensures NoDuplicates(r[|request|..])
    decreases |existing|
  {
    if |existing| == 0 then request
    else if ContainsValue(existing[0], request) then MergeChecks(request, existing[1..])
    else
      var grown := request + [existing[0]];
      var r := MergeChecks(grown, existing[1..]);
      assert r[..|request|] == r[..|grown|][..|request|];
      assert forall k :: |grown| <= k < |r| ==> r[k] != existing[0] by {
        forall k | |grown| <= k < |r| ensures r[k] != existing[0] {
          assert grown[|request|] == existing[0];
        }
      }
      assert r[|request|..] == [existing[0]] + r[|grown|..];
      r
  }

  /** Merging keeps the request free of duplicates. */
  lemma {:induction false} MergeKeepsDistinct(request: seq<string>, existing: seq<string>)
    requires NoDuplicates(request)
    ensures NoDuplicates(MergeChecks(request, existing))
  {
    var r := MergeChecks(request, existing);
    forall i, j | 0 <= i < j < |r| ensures r[i] != r[j] {
      if j < |request| {
        assert r[i] == request[i] && r[j] == request[j];
      } else if i < |request| {
        assert r[i] == request[i];
        assert r[j] !in request;
      } else {
        assert r[i] == r[|request|..][i - |request|];
        assert r[j] == r[|request|..][j - |request|];
      }
    }
  }

  /** Merging checks that are all present already changes nothing, so a
      second merge of the same existing checks is a no-op. */
  lemma {:induction false} MergeAbsorbed(request: seq<string>, existing: seq<string>)
    requires forall c :: c in existing ==> c in request
    ensures MergeChecks(request, existing) == request
    decreases |existing|
  {
    if |existing| > 0 {
      MergeAbsorbed(request, existing[1..]);
    }
  }

  lemma MergeIdempotent(request: seq<string>, existing: seq<string>)
    ensures MergeChecks(MergeChecks(request, existing), existing) == MergeChecks(request, existing)
  {
    MergeAbsorbed(MergeChecks(request, existing), existing);
  }

  /** `addExistingChecksToRequest`. Under its nil guard (no protection, no
      status checks) the request is returned as it is; otherwise the request's
      contexts grow by the existing checks it lacks. The request always
      carries status checks (it comes from `CreateProtectionRequest`). */
  function AddExistingChecksToRequest(existing: Option<Protection>, request: ProtectionRequest): (r: ProtectionRequest)
    requires request.statusChecks.Some?
    ensures existing.None? || existing.value.statusChecks.None? ==> r == request
    ensures r.reviews == request.reviews && r.enforceAdmins == request.enforceAdmins &&
            r.allowForcePushes == request.allowForcePushes
    ensures r.statusChecks.Some? && r.statusChecks.value.strict == request.statusChecks.value.strict
    ensures existing.Some? && existing.value.statusChecks.Some? ==>
              r.statusChecks.value.contexts ==
              MergeChecks(request.statusChecks.value.contexts, existing.value.statusChecks.value.contexts)
  {
    if existing.None? || existing.value.statusChecks.None? then request
    else
      var checks := request.statusChecks.value;
      var merged := MergeChecks(checks.contexts, existing.value.statusChecks.value.contexts);
      request.(statusChecks := Some(checks.(contexts := merged)))
  }

  // ---------------------------------------------------------------------------
  // The required checks of one workflow

  /** `hasWorkflowPushOrPrTrigger`: exact, case-sensitive comparison. */
  function HasPushOrPrTrigger(triggers: seq<string>): (r: bool)
    ensures r <==> "push" in triggers || "pull_request" in triggers
  {
    if |triggers| == 0 then false
    else if triggers[0] == "push" || triggers[0] == "pull_request" then true
    else HasPushOrPrTrigger(triggers[1..])
  }

  /** `getChecksForWorkflowContent`, given the outcome of parsing the
      workflow file: a parse error is passed on; a workflow run on push or
      pull request requires all its jobs, any other workflow none. */
  function GetChecksForWorkflowContent(parsed: Result<WorkflowParser.Workflow, WorkflowParser.ParseError>)
    : (r: Result<seq<string>, WorkflowParser.ParseError>)
    ensures parsed.Err? <==> r.Err?
    ensures parsed.Err? ==> r.error == parsed.error
    ensures r.Ok? && |r.value| > 0 ==> HasPushOrPrTrigger(parsed.value.triggers)
    ensures parsed.Ok? && HasPushOrPrTrigger(parsed.value.triggers) ==> r.value == parsed.value.jobNames
    ensures parsed.Ok? && !("push" in parsed.value.triggers || "pull_request" in parsed.value.triggers) ==>
              r.value == []
  {
    match parsed
    case Err(e) => Err(e)
    case Ok(workflow) =>
      if HasPushOrPrTrigger(workflow.triggers) then Ok(workflow.jobNames) else Ok([])
  }

  /** A workflow triggered on pushes or pull requests requires exactly the
      job names the parser derives for its jobs; when a job cannot be
      expanded, the first such job's error is passed on. */
  lemma PushWorkflowRequiresItsJobs(doc: WorkflowParser.Document)
    requires doc.Decoded? && !doc.raw.on.TriggerOther?
    requires HasPushOrPrTrigger(WorkflowParser.Triggers(doc.raw).value)
    ensures var r := GetChecksForWorkflowContent(WorkflowParser.ParseWorkflowDefinition(doc));
      var jobs := doc.raw.jobs;
      (r.Ok? <==> forall i :: 0 <= i < |jobs| ==> WorkflowParser.JobNames(jobs[i]).Ok?) &&
      (r.Ok? ==> |r.value| == WorkflowParser.TotalCount(jobs) &&
                 forall n :: n in r.value <==>
                   exists i :: 0 <= i < |jobs| && WorkflowParser.JobNames(jobs[i]).Ok? &&
                               n in WorkflowParser.JobNames(jobs[i]).value) &&
      (r.Err? ==> exists i :: 0 <= i < |jobs| && WorkflowParser.JobNames(jobs[i]) == Err(r.error))
  {
  }

  // ---------------------------------------------------------------------------
  // The standard and the decision

  /** `createProtectionRequest`, given the checks the workflows require. */
  function CreateProtectionRequest(requiredChecks: seq<string>): (r: ProtectionRequest)
    ensures r.statusChecks == Some(StatusChecks(true, requiredChecks))
    ensures r.reviews == Some(Reviews(true, true, 1))
    ensures !r.enforceAdmins && !r.allowForcePushes
  {
    ProtectionRequest(
      statusChecks := Some(StatusChecks(strict := true, contexts := requiredChecks)),
      reviews := Some(Reviews(dismissStale := true, codeOwners := true, approvingCount := 1)),
      enforceAdmins := false,
      allowForcePushes := false)
  }

  /** The protection GitHub holds once a request has been applied. */
  function Applied(request: ProtectionRequest): (p: Protection)
    ensures p.allowForcePushes == request.allowForcePushes
    ensures p.reviews == request.reviews && p.statusChecks == request.statusChecks
  {
    Protection(request.allowForcePushes, request.reviews, request.statusChecks)
  }

  /** What `GetBranchProtection` answered: an HTTP status code and, unless
      GitHub sent none, the protection. */
  datatype Lookup = Lookup(statusCode: int, protection: Option<Protection>)

  datatype Action =
    | Create(request: ProtectionRequest)
    | Update(request: ProtectionRequest)
    | NoAction
      /** A status other than 404 without a protection body: the source
          dereferences the nil protection and panics. */
    | Crash

  /** The decision of `verifyBranchProtection`. */
  function Decide(lookup: Lookup, requiredChecks: seq<string>): (a: Action)
    ensures lookup.statusCode == 404 <==> a.Create?
    ensures a.Create? ==> a.request == CreateProtectionRequest(requiredChecks)
    ensures a.Crash? <==> lookup.statusCode != 404 && lookup.protection.None?
    ensures a.Update? <==> lookup.statusCode != 404 && lookup.protection.Some? &&
                           !Compliant(lookup.protection.value, CreateProtectionRequest(requiredChecks))
    ensures a.Update? ==>
              a.request == AddExistingChecksToRequest(lookup.protection, CreateProtectionRequest(requiredChecks))
  {
    var request := CreateProtectionRequest(requiredChecks);
    if lookup.statusCode == 404 then Create(request)
    else if lookup.protection.None? then Crash
    else if !Compliant(lookup.protection.value, request) then
      Update(AddExistingChecksToRequest(lookup.protection, request))
    else NoAction
  }

  /** The protection after the handler has dealt with an action: the fixing
      handler writes the request, the logging handler only reports. */
  function Handle(handler: Handler, action: Action, current: Option<Protection>): (next: Option<Protection>)
    ensures handler.LogHandler? || action.NoAction? || action.Crash? ==> next == current
    ensures handler.FixHandler? && (action.Create? || action.Update?) ==> next == Some(Applied(action.request))
  {
    match action
    case Create(request) => if handler.FixHandler? then Some(Applied(request)) else current
    case Update(request) => if handler.FixHandler? then Some(Applied(request)) else current
    case NoAction => current
    case Crash => current
  }

  // ---------------------------------------------------------------------------
  // Properties of the standard

  /** A protection set exactly as the standard asks passes all three checks. */
  lemma TemplateIsCompliant(requiredChecks: seq<string>)
    ensures Compliant(Applied(CreateProtectionRequest(requiredChecks)), CreateProtectionRequest(requiredChecks))
  {
  }

  /** Extra required checks on top of the standard ones do not make a
      protection non-compliant. */
  lemma {:induction false} ExtraChecksStayCompliant(requiredChecks: seq<string>, existing: seq<string>)
    ensures var request := CreateProtectionRequest(requiredChecks);
      Compliant(Applied(AddExistingChecksToRequest(Some(Protection(false, None, Some(StatusChecks(true, existing)))), request)),
                request)
  {
    var request := CreateProtectionRequest(requiredChecks);
    var merged := MergeChecks(requiredChecks, existing);
    assert forall c :: c in requiredChecks ==> c in merged;
  }

  /** Running the verifier with `--fix` repairs the protection: a second run,
      with the same required checks, takes no action. */
  lemma {:induction false} FixThenRerunIsQuiet(lookup: Lookup, requiredChecks: seq<string>)
    requires !Decide(lookup, requiredChecks).Crash?
    ensures var next := Handle(FixHandler, Decide(lookup, requiredChecks), lookup.protection);
      next.Some? && Decide(Lookup(200, next), requiredChecks) == NoAction
  {
    var request := CreateProtectionRequest(requiredChecks);
    var action := Decide(lookup, requiredChecks);
    var next := Handle(FixHandler, action, lookup.protection);
    match action
    case Create(_) =>
      TemplateIsCompliant(requiredChecks);
    case Update(applied) =>
      var merged := applied.statusChecks.value.contexts;
      assert forall c :: c in requiredChecks ==> c in merged by {
        if lookup.protection.value.statusChecks.Some? {
          var m := MergeChecks(requiredChecks, lookup.protection.value.statusChecks.value.contexts);
          assert merged == m;
        }
      }
      assert Compliant(next.value, request);
    case NoAction =>
    case Crash =>
  }

  /** Without `--fix` nothing changes, so the verifier keeps reporting the
      same problem. */
  lemma LogOnlyKeepsReporting(lookup: Lookup, requiredChecks: seq<string>)
    requires Decide(lookup, requiredChecks).Update?
    ensures var next := Handle(LogHandler, Decide(lookup, requiredChecks), lookup.protection);
      Decide(Lookup(lookup.statusCode, next), requiredChecks).Update?
  {
  }
}
