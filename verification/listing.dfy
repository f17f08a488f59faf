/**
 * The list helpers of `GitLabClient_v3`, with the list the library fetched as input:
 * merge requests filtered by state, commits after a date newest first, and the search
 * for one commit by sha.
 */
module Listing {
  import opened Wrappers
  import opened GitLab
  import opened Sequences
  import opened StableSort

  /** A Python value is truthy unless it is `None` or an empty list. */
  predicate Truthy<T>(o: Option<seq<T>>) {
    o.Some? && |o.value| > 0
  }

  /** `entry.state not in state_filter`, or every entry when the filter is falsy. */
  predicate Kept(m: MergeRequest, stateFilter: Option<seq<Option<string>>>) {
    !Truthy(stateFilter) || m.state !in stateFilter.value
  }

  /** The selection of line 148 as a function value. */
  function StateNotIn(states: seq<Option<string>>): MergeRequest -> bool {
    (m: MergeRequest) => m.state !in states
  }

  /** Line 148: drop the merge requests whose state is listed, when the filter is truthy. */
  function FilterByState(mrs: seq<MergeRequest>, stateFilter: Option<seq<Option<string>>>): (r: seq<MergeRequest>)
    ensures !Truthy(stateFilter) ==> r == mrs
    ensures Subsequence(r, mrs)
    ensures forall m :: m in r <==> m in mrs && Kept(m, stateFilter)
    ensures forall m :: multiset(r)[m] == if Kept(m, stateFilter) then multiset(mrs)[m] else 0
  {
    if Truthy(stateFilter) then Filter(mrs, StateNotIn(stateFilter.value))
    else
      SubsequenceReflexive(mrs);
      mrs
  }

  /**
   * `list_project_merge_requests` as written: line 149 returns the value of `list.sort`,
   * which sorts in place and returns `None`, so every non-empty listing comes back as `None`.
   */
  function ListMergeRequestsAsWritten(mrs: seq<MergeRequest>, stateFilter: Option<seq<Option<string>>>): (r: Option<seq<MergeRequest>>)
    ensures r.Some? <==> |mrs| == 0
    ensures r.Some? ==> r.value == []
  {
    if |mrs| > 0 then None else Some([])
  }

  /**
   * `list_project_merge_requests` returning the list it sorted: the kept merge requests,
   * newest first, equal creation times in fetched order.
   */
  function ListMergeRequests(mrs: seq<MergeRequest>, stateFilter: Option<seq<Option<string>>>): (r: seq<MergeRequest>)
    ensures |mrs| == 0 ==> r == []
    ensures forall m :: m in r <==> m in mrs && Kept(m, stateFilter)
    ensures forall m :: multiset(r)[m] == if Kept(m, stateFilter) then multiset(mrs)[m] else 0
    ensures SortedDesc(r, MergeRequestCreatedAt)
    ensures StableWrt(r, FilterByState(mrs, stateFilter), MergeRequestCreatedAt)
  {
    if |mrs| > 0 then SortDesc(FilterByState(mrs, stateFilter), MergeRequestCreatedAt) else []
  }

  /** The listing as written loses every non-empty result that the corrected one returns. */
  lemma ListMergeRequestsAsWrittenLosesEntries(mrs: seq<MergeRequest>, stateFilter: Option<seq<Option<string>>>, m: MergeRequest)
    requires m in mrs && Kept(m, stateFilter)
    ensures ListMergeRequestsAsWritten(mrs, stateFilter) == None
    ensures m in ListMergeRequests(mrs, stateFilter)
  {
  }

  /** The selection of line 157 as a function value. */
  function CreatedAfter(since: int): Commit -> bool {
    (c: Commit) => c.createdAt > since
  }

  /** Line 157 keeps, for each creation time, all or none of the commits with that time. */
  lemma {:induction false} WithKeyCreatedAfter(commits: seq<Commit>, since: int, k: int)
    ensures WithKey(Filter(commits, CreatedAfter(since)), CommitCreatedAt, k)
         == if k > since then WithKey(commits, CommitCreatedAt, k) else []
  {
    if |commits| > 0 {
      WithKeyCreatedAfter(commits[1..], since, k);
      var rest := Filter(commits[1..], CreatedAfter(since));
      if commits[0].createdAt > since {
        assert ([commits[0]] + rest)[1..] == rest;
      }
    }
  }

  /** Lines 157-158: the commits created after `since`, newest first, equal times in fetched order. */
  function RecentNewestFirst(commits: seq<Commit>, since: int): (r: seq<Commit>)
    ensures forall c :: multiset(r)[c] == if c.createdAt > since then multiset(commits)[c] else 0
    ensures forall c :: c in r <==> c in commits && c.createdAt > since
    ensures SortedDesc(r, CommitCreatedAt)
    ensures forall k :: WithKey(r, CommitCreatedAt, k) == if k > since then WithKey(commits, CommitCreatedAt, k) else []
  {
    var recent := Filter(commits, CreatedAfter(since));
    var sorted := SortDesc(recent, CommitCreatedAt);
    SameMembers(sorted, recent);
    SortedRecentByKey(commits, since, sorted);
    sorted
  }

  /** Sequences with equal multisets have the same members. */
  lemma SameMembers(a: seq<Commit>, b: seq<Commit>)
    requires multiset(a) == multiset(b)
    ensures forall c :: c in a <==> c in b
  {
    forall c
      ensures c in a <==> c in b
    {
      assert c in a <==> c in multiset(a);
    }
  }

  /** The per-key order of the sorted selection is that of the fetched commits. */
  lemma SortedRecentByKey(commits: seq<Commit>, since: int, sorted: seq<Commit>)
    requires StableWrt(sorted, Filter(commits, CreatedAfter(since)), CommitCreatedAt)
    ensures forall k :: WithKey(sorted, CommitCreatedAt, k) == if k > since then WithKey(commits, CommitCreatedAt, k) else []
  {
    forall k
      ensures WithKey(sorted, CommitCreatedAt, k) == if k > since then WithKey(commits, CommitCreatedAt, k) else []
    {
      WithKeyCreatedAfter(commits, since, k);
    }
  }

  /**
   * `list_project_commits`: with a `since_date`, the commits created strictly after it,
   * newest first, equal times in fetched order; without one, the fetched list unchanged.
   */
  function ListProjectCommits(commits: seq<Commit>, sinceDate: Option<int>): (r: seq<Commit>)
    ensures |commits| == 0 ==> r == []
    ensures sinceDate.None? ==> r == commits
    ensures sinceDate.Some? ==>
      && (forall c :: c in r <==> c in commits && c.createdAt > sinceDate.value)
      && (forall c :: multiset(r)[c] == if c.createdAt > sinceDate.value then multiset(commits)[c] else 0)
      && SortedDesc(r, CommitCreatedAt)
      && (forall k :: WithKey(r, CommitCreatedAt, k)
                      == if k > sinceDate.value then WithKey(commits, CommitCreatedAt, k) else [])
  {
    if |commits| > 0 then
      if sinceDate.Some? then RecentNewestFirst(commits, sinceDate.value) else commits
    else []
  }

  /** A lazily fetched commit list: the commits it yields, then possibly the exception that ends it. */
  datatype CommitStream = CommitStream(yielded: seq<Commit>, raises: Option<Raised>)

  /** `s[i]` is the first commit of `s` whose id is `sha`. */
  predicate FirstWithSha(s: seq<Commit>, sha: string, i: int) {
    && 0 <= i < |s|
    && s[i].id == sha
    && forall j :: 0 <= j < i ==> s[j].id != sha
  }

  /**
   * `get_project_commit`: `project` is what `get_project` returned (the project's commit
   * stream) or raised. The first commit with the sha is returned; `None` when none has it
   * or when the stream ends in `GitLabException`; any other exception propagates.
   */
  method GetProjectCommit(project: Outcome<CommitStream>, sha: string) returns (r: Result<Option<Commit>, Raised>)
    ensures project.Failure? ==> r == Failure(project.error)
    ensures project.Success? ==>
      var s := project.value.yielded;
      && (r.Success? && r.value.Some? <==> exists i :: 0 <= i < |s| && s[i].id == sha)
      && (r.Success? && r.value.Some? ==> exists i :: FirstWithSha(s, sha, i) && r.value.value == s[i])
      && ((forall i :: 0 <= i < |s| ==> s[i].id != sha) ==>
            r == match project.value.raises
                 case None => Success(None)
                 case Some(e) => if e.GitLabError? then Success(None) else Failure(e))
  {
    if project.Failure? {
      return Failure(project.error);
    }
    var stream := project.value;
    var i := 0;
    while i < |stream.yielded|
      invariant 0 <= i <= |stream.yielded|
      invariant forall j :: 0 <= j < i ==> stream.yielded[j].id != sha
    {
      if stream.yielded[i].id == sha {
        assert FirstWithSha(stream.yielded, sha, i);
        return Success(Some(stream.yielded[i]));
      }
      i := i + 1;
    }
    // The loop ran off the end: Python falls through and returns None, unless the stream raised.
    match stream.raises
    case None =>
      r := Success(None);
    case Some(e) =>
      r := if e.GitLabError? then Success(None) else Failure(e);
  }
}
