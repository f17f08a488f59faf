/**
 * `GitLabClient_v3.expand_merge_request_data`: the fixed-order pipeline that resolves the
 * target and source projects of a merge request and then attaches its notes, diff,
 * approvers and commits. Every library call is an input outcome; the result records the
 * enriched merge request or the exception that escapes, the calls made in order, and the
 * failures that were logged as warnings and degraded to a default.
 */
module Enrichment {
  import opened Wrappers
  import opened GitLab
  import DiffText

  /** The library calls of the pipeline, in the order the pipeline makes them. */
  datatype ApiCall =
    | LookupTargetProject
    | LookupSourceProject
    | ListNotes
    | GetChanges
    | GetApprovals
    | ListCommits

  /** A caught failure: logged as a warning naming the action, then replaced by a default. */
  datatype Warning = Warning(call: ApiCall, error: Raised)

  /** What escapes the pipeline: `MissingSourceProjectException` or a re-raised error. */
  datatype EnrichError = MissingSourceProject | Propagated(raised: Raised)

  /** What each library call returns or raises for one merge request. */
  datatype Fetches = Fetches(
    targetProject: Outcome<Project>,
    sourceProject: Outcome<Project>,
    notes: Outcome<seq<Note>>,
    changes: Outcome<seq<Change>>,
    approvals: Outcome<Approvals>,
    commits: Outcome<seq<Commit>>)

  /** The merge request with every attribute the pipeline attaches. */
  datatype Enriched = Enriched(
    mergeRequest: MergeRequest,
    targetProject: Project,
    sourceProject: Project,
    noteList: seq<Note>,
    diff: string,
    approvedBy: seq<User>,
    commitList: seq<Commit>)

  datatype Run = Run(result: Result<Enriched, EnrichError>, calls: seq<ApiCall>, warnings: seq<Warning>)

  /** The catch list of the notes and changes steps: `RetryError` and `GitLabException`. */
  predicate RequestError(e: Raised) {
    e.RetryError? || e.GitLabError?
  }

  /** The catch list of the approvals step, which also absorbs `AttributeError`. */
  predicate ApprovalsError(e: Raised) {
    RequestError(e) || e.AttributeError?
  }

  /** A step survives when its call returns or raises something its catch list covers. */
  predicate Survives<T>(o: Outcome<T>, caught: Raised -> bool) {
    o.Success? || caught(o.error)
  }

  /** The `diff` text of every change, in order. */
  function Diffs(changes: seq<Change>): (r: seq<string>)
    ensures |r| == |changes|
    ensures forall i :: 0 <= i < |changes| ==> r[i] == changes[i].diff
  {
    seq(|changes|, i requires 0 <= i < |changes| => changes[i].diff)
  }

  /** `_get_diff_string`: the change diffs joined by newlines. */
  function DiffString(changes: seq<Change>): (r: string)
    ensures |changes| == 0 ==> r == ""
    ensures |changes| == 1 ==> r == changes[0].diff
    ensures |changes| > 0 ==> |r| == DiffText.TotalLength(Diffs(changes)) + |changes| - 1
  {
    DiffText.JoinLines(Diffs(changes))
  }

  /** Each change's diff sits in the diff string at its offset, followed by a newline unless last. */
  lemma DiffStringLayout(changes: seq<Change>, i: nat)
    requires i < |changes|
    ensures var o := DiffText.Offset(Diffs(changes), i);
      && o + |changes[i].diff| <= |DiffString(changes)|
      && DiffString(changes)[o..o + |changes[i].diff|] == changes[i].diff
      && (i + 1 < |changes| ==> o + |changes[i].diff| < |DiffString(changes)|
                                && DiffString(changes)[o + |changes[i].diff|] == '\n')
  {
    DiffText.JoinLinesLayout(Diffs(changes), i);
  }

  /** The diff step: `changes()` raising, or the joined diffs. */
  function ChangesToDiff(o: Outcome<seq<Change>>): Outcome<string> {
    match o
    case Success(cs) => Success(DiffString(cs))
    case Failure(e) => Failure(e)
  }

  /** `approvals.approved_by`: reading the attribute of a payload that lacks it raises. */
  function ApprovedBy(o: Outcome<Approvals>): Outcome<seq<User>> {
    match o
    case Failure(e) => Failure(e)
    case Success(a) => if a.approvedBy.Some? then Success(a.approvedBy.value) else Failure(AttributeError)
  }

  /** The warning a step logs, if its call failed. */
  function Logged<T>(call: ApiCall, o: Outcome<T>): seq<Warning> {
    if o.Failure? then [Warning(call, o.error)] else []
  }

  /** A value together with the warnings logged while obtaining it. */
  datatype Step<T> = Step(value: T, warnings: seq<Warning>)

  /** One try/except around a fetch: a caught error yields `fallback` and a warning. */
  function Guard<T>(call: ApiCall, o: Outcome<T>, caught: Raised -> bool, fallback: T): Result<Step<T>, Raised> {
    match o
    case Success(v) => Success(Step(v, []))
    case Failure(e) => if caught(e) then Success(Step(fallback, [Warning(call, e)])) else Failure(e)
  }

  /** The target project is known and differs from the merge request's source project id. */
  predicate IsFork(mr: MergeRequest, f: Fetches) {
    f.targetProject.Success? && f.targetProject.value.id != mr.sourceProjectId
  }

  /** Both projects are available: the target was found and, for a fork, so was the source. */
  predicate ResolvesProjects(mr: MergeRequest, f: Fetches) {
    f.targetProject.Success? && (!IsFork(mr, f) || f.sourceProject.Success?)
  }

  /** The project lookups made: the target always, the source only for a fork. */
  function ProjectCalls(mr: MergeRequest, f: Fetches): seq<ApiCall> {
    [LookupTargetProject] + (if IsFork(mr, f) then [LookupSourceProject] else [])
  }

  datatype Resolution = Resolution(result: Result<(Project, Project), EnrichError>, calls: seq<ApiCall>)

  /**
   * Lines 69-83: find the target project; reuse it as the source when the ids match,
   * otherwise look the source up, turning a 404 into `MissingSourceProject`.
   */
  function ResolveProjects(mr: MergeRequest, f: Fetches): (r: Resolution)
    ensures r.calls == ProjectCalls(mr, f)
    ensures r.result.Success? <==> ResolvesProjects(mr, f)
    ensures r.result.Success? ==> r.result.value.0 == f.targetProject.value
    ensures r.result.Success? && !IsFork(mr, f) ==> r.result.value.1 == r.result.value.0
    ensures r.result.Success? && IsFork(mr, f) ==> r.result.value.1 == f.sourceProject.value
    ensures r.result == Failure(MissingSourceProject) <==>
      IsFork(mr, f) && f.sourceProject == Failure(GitLabError(404))
    ensures f.targetProject.Failure? ==> r.result == Failure(Propagated(f.targetProject.error))
    ensures IsFork(mr, f) && f.sourceProject.Failure? && f.sourceProject.error != GitLabError(404) ==>
      r.result == Failure(Propagated(f.sourceProject.error))
  {
    match f.targetProject
    case Failure(e) => Resolution(Failure(Propagated(e)), [LookupTargetProject])
    case Success(target) =>
      if target.id != mr.sourceProjectId then
        var calls := [LookupTargetProject, LookupSourceProject];
        match f.sourceProject
        case Success(source) => Resolution(Success((target, source)), calls)
        case Failure(e) =>
          if e == GitLabError(404) then Resolution(Failure(MissingSourceProject), calls)
          else Resolution(Failure(Propagated(e)), calls)
      else
        Resolution(Success((target, target)), [LookupTargetProject])
  }

  /** `expand_merge_request_data` with the target lookup made through `get_project`. */
  function Expand(mr: MergeRequest, f: Fetches): (run: Run)
    // Project resolution is load-bearing; every other step but the commit list degrades.
    ensures run.result.Success? <==>
      && ResolvesProjects(mr, f)
      && Survives(f.notes, RequestError)
      && Survives(f.changes, RequestError)
      && Survives(ApprovedBy(f.approvals), ApprovalsError)
      && f.commits.Success?
    ensures run.result.Success? ==>
      var e := run.result.value;
      && e.mergeRequest == mr
      && e.targetProject == f.targetProject.value
      && e.sourceProject == (if IsFork(mr, f) then f.sourceProject.value else f.targetProject.value)
      && e.noteList == (if f.notes.Success? then f.notes.value else [])
      && e.diff == (if f.changes.Success? then DiffString(f.changes.value) else "")
      && e.approvedBy == (if ApprovedBy(f.approvals).Success? then ApprovedBy(f.approvals).value else [])
      && e.commitList == f.commits.value
    ensures run.result.Success? ==>
      && run.calls == ProjectCalls(mr, f) + [ListNotes, GetChanges, GetApprovals, ListCommits]
      && run.warnings == Logged(ListNotes, f.notes) + Logged(GetChanges, f.changes)
                         + Logged(GetApprovals, ApprovedBy(f.approvals))
    // Fork detection: the source is looked up only when the ids differ.
    ensures LookupSourceProject in run.calls <==> IsFork(mr, f)
    ensures f.targetProject.Failure? ==>
      run == Run(Failure(Propagated(f.targetProject.error)), [LookupTargetProject], [])
    ensures IsFork(mr, f) && f.sourceProject.Failure? ==>
      run == Run(Failure(if f.sourceProject.error == GitLabError(404) then MissingSourceProject
                         else Propagated(f.sourceProject.error)),
                 [LookupTargetProject, LookupSourceProject], [])
    ensures run.result == Failure(MissingSourceProject) <==>
      IsFork(mr, f) && f.sourceProject == Failure(GitLabError(404))
    // A failed notes fetch is either absorbed, letting the changes step run, or escapes at once.
    ensures ResolvesProjects(mr, f) && f.notes.Failure? && RequestError(f.notes.error) ==>
      GetChanges in run.calls && Warning(ListNotes, f.notes.error) in run.warnings
    ensures ResolvesProjects(mr, f) && !Survives(f.notes, RequestError) ==>
      run == Run(Failure(Propagated(f.notes.error)), ProjectCalls(mr, f) + [ListNotes], [])
    // An error outside a later step's catch list is re-raised unchanged and ends the pipeline there.
    ensures && ResolvesProjects(mr, f) && Survives(f.notes, RequestError)
            && !Survives(f.changes, RequestError) ==>
      run == Run(Failure(Propagated(f.changes.error)), ProjectCalls(mr, f) + [ListNotes, GetChanges],
                 Logged(ListNotes, f.notes))
    ensures && ResolvesProjects(mr, f) && Survives(f.notes, RequestError)
            && Survives(f.changes, RequestError) && !Survives(ApprovedBy(f.approvals), ApprovalsError) ==>
      run == Run(Failure(Propagated(ApprovedBy(f.approvals).error)),
                 ProjectCalls(mr, f) + [ListNotes, GetChanges, GetApprovals],
                 Logged(ListNotes, f.notes) + Logged(GetChanges, f.changes))
    ensures && ResolvesProjects(mr, f) && Survives(f.notes, RequestError)
            && Survives(f.changes, RequestError) && Survives(ApprovedBy(f.approvals), ApprovalsError)
            && f.commits.Failure? ==>
      run == Run(Failure(Propagated(f.commits.error)),
                 ProjectCalls(mr, f) + [ListNotes, GetChanges, GetApprovals, ListCommits],
                 Logged(ListNotes, f.notes) + Logged(GetChanges, f.changes)
                 + Logged(GetApprovals, ApprovedBy(f.approvals)))
  {
    var res := ResolveProjects(mr, f);
    if res.result.Failure? then Run(Failure(res.result.error), res.calls, [])
    else
      var (target, source) := res.result.value;
      var notes := Guard(ListNotes, f.notes, RequestError, []);
      if notes.Failure? then
        Run(Failure(Propagated(notes.error)), res.calls + [ListNotes], [])
      else
        var diff := Guard(GetChanges, ChangesToDiff(f.changes), RequestError, "");
        if diff.Failure? then
          Run(Failure(Propagated(diff.error)), res.calls + [ListNotes, GetChanges], notes.value.warnings)
        else
          var warned := notes.value.warnings + diff.value.warnings;
          var approved := Guard(GetApprovals, ApprovedBy(f.approvals), ApprovalsError, []);
          if approved.Failure? then
            Run(Failure(Propagated(approved.error)), res.calls + [ListNotes, GetChanges, GetApprovals], warned)
          else
            var calls := res.calls + [ListNotes, GetChanges, GetApprovals, ListCommits];
            var allWarned := warned + approved.value.warnings;
            match f.commits
            case Failure(e) => Run(Failure(Propagated(e)), calls, allWarned)
            case Success(commits) =>
              var enriched := Enriched(mr, target, source, notes.value.value, diff.value.value,
                                       approved.value.value, commits);
              Run(Success(enriched), calls, allWarned)
  }

  /**
   * When the target project's id is the source project id, what the source lookup would
   * have returned or raised makes no difference: that lookup is never made.
   */
  lemma SameProjectIgnoresSourceLookup(mr: MergeRequest, f: Fetches, other: Outcome<Project>)
    requires f.targetProject.Success? && f.targetProject.value.id == mr.sourceProjectId
    ensures Expand(mr, f) == Expand(mr, f.(sourceProject := other))
    ensures Expand(mr, f).result.Success? ==>
      Expand(mr, f).result.value.sourceProject == Expand(mr, f).result.value.targetProject
  {
  }

  /**
   * A notes fetch failing with `RetryError` or `GitLabException` behaves exactly like a
   * merge request without notes, apart from the warning it logs.
   */
  lemma NotesFailureActsAsNoNotes(mr: MergeRequest, f: Fetches, e: Raised)
    requires RequestError(e)
    ensures var failed := Expand(mr, f.(notes := Failure(e)));
      var empty := Expand(mr, f.(notes := Success([])));
      && failed.result == empty.result
      && failed.calls == empty.calls
      && failed.warnings == (if ResolvesProjects(mr, f) then [Warning(ListNotes, e)] else []) + empty.warnings
  {
  }

  /** A changes fetch failing with a caught error leaves the diff empty, as no changes would. */
  lemma ChangesFailureActsAsNoChanges(mr: MergeRequest, f: Fetches, e: Raised)
    requires RequestError(e)
    ensures var failed := Expand(mr, f.(changes := Failure(e)));
      var empty := Expand(mr, f.(changes := Success([])));
      && failed.result == empty.result
      && failed.calls == empty.calls
      && (ResolvesProjects(mr, f) && Survives(f.notes, RequestError) ==>
            Warning(GetChanges, e) in failed.warnings)
  {
  }

  /**
   * An approvals fetch failing with a caught error, or returning a payload without
   * `approved_by`, behaves like an approval list that is empty.
   */
  lemma ApprovalsFailureActsAsNoApprovers(mr: MergeRequest, f: Fetches, o: Outcome<Approvals>)
    requires Survives(o, ApprovalsError) && ApprovedBy(o).Failure?
    ensures var failed := Expand(mr, f.(approvals := o));
      var empty := Expand(mr, f.(approvals := Success(Approvals(Some([])))));
      && failed.result == empty.result
      && failed.calls == empty.calls
  {
  }

  /**
   * `expand_merge_request_data` as written: line 69 reads `self.find_project`. The class
   * has no base class, no `__getattr__` and no such method (its lookup is `get_project`),
   * so reading the attribute raises `AttributeError` before any library call.
   */
  function ExpandAsWritten(mr: MergeRequest, f: Fetches): (run: Run)
    ensures run.result == Failure(Propagated(AttributeError)) && run.calls == []
  {
    Run(Failure(Propagated(AttributeError)), [], [])
  }

  /**
   * The pipeline with the target lookup made through `get_project` succeeds whenever every
   * call succeeds, where the code as written never does.
   */
  lemma ExpandSucceedsWhenCallsSucceed(mr: MergeRequest, f: Fetches)
    requires f.targetProject.Success? && f.sourceProject.Success?
    requires f.notes.Success? && f.changes.Success? && f.commits.Success?
    requires f.approvals.Success? && f.approvals.value.approvedBy.Some?
    ensures Expand(mr, f).result.Success?
    ensures Expand(mr, f).warnings == []
    ensures ExpandAsWritten(mr, f).result.Failure?
  {
  }
}
