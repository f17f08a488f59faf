# GitLab v3 client: merge-request enrichment and list helpers

This project models the decision logic of `GitLabClient_v3` in
`jf_agent/git/gitlab_v3_client.py`. That class is the agent's adapter over the `gitlab3`
library for GitLab's v3 API. Every library call is replaced by an abstract outcome:
what the call returned, or the exception it raised (`Raised`: `GitLabException` with its
response code, `RetryError`, `AttributeError`, or any other exception).

- `Enrichment.Expand` models `expand_merge_request_data` as a pure function. It takes a
  merge request and the outcome of each library call. It returns a `Run` with three parts:
  - the enriched record, or the error that escapes (`MissingSourceProject` or a re-raised
    error);
  - the library calls made, in order;
  - the failures that were logged as warnings and degraded to a default.

  "No second lookup" and "no sub-fetch runs" are therefore statements about the calls made.
- `DiffText` models `'\n'.join` for `_get_diff_string`, together with its inverse
  `split('\n')`.
- `Listing` models the three list helpers on the fetched list:
  - state filtering of merge requests;
  - commits created after a date, newest first;
  - the first-match search for a commit by sha.
- `StableSort` models Python's stable `list.sort(key=..., reverse=True)` as an insertion
  sort. `Sequences` models the order-preserving list comprehension `[x for x in s if p(x)]`.

Timestamps are integers. `since_date` is `Option<int>`, where `None` is the falsy value.
Projects are compared by value, so "the same Project instance" becomes equality of values.

## Model

| member | source | states |
|---|---|---|
| Enrichment.Expand | jf_agent/git/gitlab_v3_client.py:58-123 | Enrichment succeeds exactly when the projects resolve, each of notes/changes/approvals returns or raises an error its catch list covers, and the commit list is fetched. On success each field is the fetched value or its default (`[]`, `''`, `[]`), the calls are the project lookups followed by notes, changes, approvals, commits, and a warning is logged for each degraded step. The source project is looked up if and only if the ids differ. A 404 from that lookup raises MissingSourceProject and any other lookup error is re-raised; either way no sub-fetch runs. An error outside a step's catch list (notes, changes, approvals) is re-raised unchanged, as is any commit-list error. The calls then end at that step, and only the warnings of the earlier degraded steps are logged. |
| Enrichment.ResolveProjects | jf_agent/git/gitlab_v3_client.py:69-83 | The target project is looked up first. When its id equals `source_project_id`, the source is the target itself and only one lookup is made. Otherwise the source lookup's result is used. A `GitLabException` with code 404, and only that, becomes MissingSourceProject. A failed target lookup, or any other source failure, is re-raised as the same error. |
| Enrichment.SameProjectIgnoresSourceLookup | jf_agent/git/gitlab_v3_client.py:75-83 | When the ids match, the result is the same whatever the source lookup would have returned or raised, and `source_project` equals `target_project`. |
| Enrichment.NotesFailureActsAsNoNotes | jf_agent/git/gitlab_v3_client.py:85-93 | A notes fetch raising `RetryError` or `GitLabException` gives the same result and the same calls as a merge request with no notes. The only difference is one extra warning. |
| Enrichment.ChangesFailureActsAsNoChanges | jf_agent/git/gitlab_v3_client.py:95-103 | A changes fetch raising `RetryError` or `GitLabException` gives the same result and calls as an empty change set, so the diff is `''`. The failure is logged as a warning. |
| Enrichment.ApprovalsFailureActsAsNoApprovers | jf_agent/git/gitlab_v3_client.py:105-118 | An approvals fetch raising `RetryError`, `GitLabException` or `AttributeError`, or returning a payload without `approved_by`, behaves like an empty approver list. |
| Enrichment.DiffString | jf_agent/git/gitlab_v3_client.py:53-56 | The diff is `''` for no changes and the single diff for one change. For n ≥ 1 changes, its length is the sum of the diff lengths plus n−1. |
| Enrichment.DiffStringLayout | jf_agent/git/gitlab_v3_client.py:53-56 | Change i's diff text appears in the diff string at the offset of the earlier diffs plus their separators. A newline follows it unless it is the last. |
| Enrichment.ExpandAsWritten | jf_agent/git/gitlab_v3_client.py:69 | As written, the target lookup reads `self.find_project`. The class does not define it, so every call raises `AttributeError` before any library call. |
| Enrichment.ExpandSucceedsWhenCallsSucceed | jf_agent/git/gitlab_v3_client.py:69-123 | With the lookup through `get_project`, enrichment succeeds with no warnings whenever every call succeeds. The code as written fails on the same inputs. |
| DiffText.JoinLines | jf_agent/git/gitlab_v3_client.py:56 | `'\n'.join` of no parts is `''`. Otherwise its length is the parts' total length plus one separator between each pair. |
| DiffText.JoinLinesLayout | jf_agent/git/gitlab_v3_client.py:56 | Every part appears in order at its offset in the joined text, followed by a newline unless it is the last part. |
| DiffText.JoinLinesAppend | jf_agent/git/gitlab_v3_client.py:55-56 | Joining a concatenation puts exactly one newline between the joins of the two halves, so the order of the changes is kept. |
| DiffText.SplitJoinLines | jf_agent/git/gitlab_v3_client.py:56 | Splitting the join of a non-empty list of newline-free parts on `'\n'` gives back the parts. |
| Sequences.Filter | jf_agent/git/gitlab_v3_client.py:148 | The list comprehension keeps a subsequence of the input. Its members are exactly the input elements that pass the test, each with the same multiplicity as in the input. |
| Sequences.FilterConcat | jf_agent/git/gitlab_v3_client.py:148 | Filtering preserves relative order: filtering a concatenation is the concatenation of the filtered parts. |
| StableSort.SortDesc | jf_agent/git/gitlab_v3_client.py:158 | `sort(key=created_at, reverse=True)` gives a permutation of its input with non-increasing keys, and elements with equal keys keep their original order. |
| StableSort.SortDescUnique | jf_agent/git/gitlab_v3_client.py:158 | Any non-increasing rearrangement that keeps the per-key order of its input is the sort's result. |
| Listing.FilterByState | jf_agent/git/gitlab_v3_client.py:147-148 | The result keeps exactly the merge requests whose `state` is not in `state_filter`, as an order-preserving subsequence with the same multiplicities. A falsy `state_filter` (`None` or `[]`) keeps the list unchanged. |
| Listing.ListMergeRequestsAsWritten | jf_agent/git/gitlab_v3_client.py:143-150 | As written, a non-empty listing returns `None`, the value of `list.sort`. Only an empty listing returns `[]`. |
| Listing.ListMergeRequests | jf_agent/git/gitlab_v3_client.py:143-150 | The corrected listing holds exactly the kept merge requests with their multiplicities, newest first, with equal creation times in fetched order. An empty fetch gives `[]`. |
| Listing.ListMergeRequestsAsWrittenLosesEntries | jf_agent/git/gitlab_v3_client.py:149 | When some merge request passes the filter, the code as written returns `None` while the corrected listing contains that merge request. |
| Listing.WithKeyCreatedAfter | jf_agent/git/gitlab_v3_client.py:157 | The after-date filter keeps, for each creation time, either all of the commits with that time (in order) or none of them. |
| Listing.RecentNewestFirst | jf_agent/git/gitlab_v3_client.py:156-158 | The result is exactly the commits with `created_at > since_date`, with their multiplicities, sorted non-increasing by `created_at`. Commits created at the same time keep their fetched order. |
| Listing.ListProjectCommits | jf_agent/git/gitlab_v3_client.py:152-160 | With a `since_date`, the result is the strictly-later commits as a stable non-increasing permutation. Without one, the fetched list is returned unchanged. An empty fetch gives `[]`. |
| Listing.GetProjectCommit | jf_agent/git/gitlab_v3_client.py:162-170 | The result is the first commit in sequence order whose id is the sha, and a commit is found exactly when one has that id. With no match it is `None`, also when the commit stream ends in `GitLabException`. Any other exception from the stream, and any error from the project lookup, propagates. |

## Left out

- Commit materialization, v3-to-v4 schema normalization and event correlation have no code in `jf_agent/git/gitlab_v3_client.py` and are not modelled. Line 121 assigns `merge_request.commits()` as it is, without handling errors.
- `__init__` (lines 42-50) is not modelled: it is connection configuration for the `gitlab3` library.
- Logging (`log_and_print_request_error`, lines 14-30) is not modelled. The warnings it writes become the `warnings` of a `Run`, which record the step and the error. Message text, error codes and log levels are left out.
- The one-line pass-throughs are not modelled because they hold no logic: `get_group`, `get_project`, `list_group_projects`, `list_group_members`, `list_project_branches` and `sanity_check_method`.
- In `list_project_merge_requests` and `list_project_commits`, the `get_project` call and the fetch happen outside any `try`. Their exceptions propagate unchanged. The model takes the fetched list as its input.
- HTTP transport, retries and pagination belong to `gitlab3` and `requests`. They appear only as a call's outcome.
- `datetime` values are modelled as integer timestamps. The commented-out `strptime` on line 157 is dead code.
- `merge_request.notes.list(as_list=False)` returns a lazy generator. An error raised while the notes are later iterated would fall outside the `try`. The model treats the notes as fetched eagerly.
- Enrichment.Expand: the commit list of line 121 is treated as fetched eagerly. The comment on line 120 calls `merge_request.commits()` a generator, and line 121 does not turn it into a list. If that call returns a lazy stream, no error escapes at line 121 and the record carries the unconsumed stream. The model has the call either return the whole list or raise.
- Enrichment.DiffString: a `KeyError` from a change set without `changes` or a change without `diff` would escape `_get_diff_string` uncaught. Every `Change` carries a diff text in the model, so that error is not modelled.
- Enrichment.Expand: the source mutates the caller's merge request object in place. On an exception, the attributes already assigned (such as `target_project`) stay on that object. The model returns a new record or an error, so this partial mutation is not modelled.
- Enrichment.Expand: a `GitLabException` whose `response_code` is missing is not modelled. Every `GitLabError` carries an integer code.

## Findings

| source | as written | input that shows it | evidently intended | confidence | as-written member | corrected member |
|---|---|---|---|---|---|---|
| jf_agent/git/gitlab_v3_client.py:69 | `self.find_project(merge_request.target_project_id)`. `GitLabClient_v3` has no `find_project`, so `AttributeError` is raised before any request. | Any merge request, for example target and source project ids both 1. | `self.get_project(merge_request.target_project_id)`, the lookup line 77 uses for the source project. | not executed; high: the class has no base class and no `__getattr__`. | Enrichment.ExpandAsWritten | Enrichment.Expand |
| jf_agent/git/gitlab_v3_client.py:149 | `return mergerequests.sort(...)`. `list.sort` sorts in place and returns `None`. | A project with one merge request in state `opened` and the default filter `[None]`. | Sort, then return the list, as lines 158-159 do for commits. | not executed; high: assumes `project.merge_requests()` returns a Python list, since the code calls `len` on it. | Listing.ListMergeRequestsAsWritten | Listing.ListMergeRequests |
