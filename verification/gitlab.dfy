/**
 * The entities the v3 client handles, reduced to the fields its logic reads, and the
 * exceptions the `gitlab3` and `requests` libraries can raise into it.
 */
module GitLab {
  import opened Wrappers

  datatype Project = Project(id: int, name: string)

  /** A merge request as listed; `state` may be absent, which Python sees as `None`. */
  datatype MergeRequest = MergeRequest(
    id: int,
    targetProjectId: int,
    sourceProjectId: int,
    state: Option<string>,
    createdAt: int)

  datatype Note = Note(id: int, body: string)

  datatype User = User(username: string)

  /** One entry of the `changes` list of a merge request's change set. */
  datatype Change = Change(diff: string)

  /**
   * The approvals payload; `approvedBy` is `None` when the payload has no `approved_by`
   * attribute, which older servers omit.
   */
  datatype Approvals = Approvals(approvedBy: Option<seq<User>>)

  datatype Commit = Commit(id: string, createdAt: int)

  /**
   * What a library call can raise: `gitlab3.exceptions.GitLabException` with its HTTP
   * response code, `requests.exceptions.RetryError`, `AttributeError`, and any other
   * exception, named.
   */
  datatype Raised =
    | GitLabError(responseCode: int)
    | RetryError
    | AttributeError
    | OtherError(name: string)

  /** The outcome of one library call: what it returned or what it raised. */
  type Outcome<T> = Result<T, Raised>

  /** The sort key of `sort(key=lambda x: x.created_at)` over merge requests. */
  function MergeRequestCreatedAt(m: MergeRequest): int {
    m.createdAt
  }

  /** The sort key of `sort(key=lambda x: x.created_at)` over commits. */
  function CommitCreatedAt(c: Commit): int {
    c.createdAt
  }
}
