# Complaint tracker: lifecycle and notification bookkeeping

A Dafny model of the core of a small Django complaint-tracking application.
Students file complaints; staff triage them by changing their status,
priority and comment; and a reporter sees an "unread" badge until they look
at a complaint again after a staff update.

The model has five modules:

- `Models` (`models.dfy`) is the `Complaint` record of `issues/models.py`.
  It has the two choice lists as enumerations whose `Code()` is the stored
  string, a parser back from the string, the field constraints as
  `WellFormed`, and `NewComplaint`, which applies the field defaults.
  `status` and `priority` are kept as strings, as the `CharField` columns
  hold them. That way the model can say when a stored value is not a choice.
- `Text` (`text.dfy`) holds the string functions. `Strip` is Python's
  `str.strip()`, with Python's full whitespace set. `IContains` is the ORM's
  `icontains`, taken to be ASCII lower-casing and then a substring test.
- `Access` (`access.dfy`) holds the caller's identity, which is passed
  explicitly as `{user, isStaff}`. It also holds the reporter-or-staff rule
  and the three error kinds: validation, not found and permission denied.
- `Queries` (`queries.dfy`) holds the read-only views as functions over the
  table's rows: the public list, my complaints, search, the unread counter,
  the dashboard and the staff list. Rows are kept in insertion order, and
  `created_at` strictly increases along them, so "newest first" is that
  sequence reversed. Filters are `Where` over a predicate, and pages are
  contiguous slices of a fixed size.
- `Workflow` (`workflow.dfy`) holds the three views that change state. Each
  loads a row, assigns fields and calls `save()`. The class
  `ComplaintStore` owns the rows and a clock, and its methods `Create`,
  `View` and `AdminUpdate` do those steps in place. Each method is proved
  equal to an `...Outcome` function of the old state, and the lemmas about
  those functions state what the operations promise. Every save stamps
  `updated_at` with the clock and advances the clock. Creation also sets
  `created_at`, so timestamps are natural-number ticks.

## Model

| member | source | states |
|---|---|---|
| `Models.ParsePriority` | issues/models.py:5-9 | a stored priority maps back to the one choice whose code it is, and to nothing when no choice has that code |
| `Models.ParseStatus` | issues/models.py:11-16 | a stored status maps back to the one choice whose code it is, and to nothing when no choice has that code |
| `Models.PriorityRoundTrip` | issues/models.py:5-9 | parsing the code of every priority choice gives back that choice |
| `Models.StatusRoundTrip` | issues/models.py:11-16 | parsing the code of every status choice gives back that choice |
| `Models.NewComplaint` | issues/models.py:18-28 | a fresh instance has priority `low`, status `open`, a blank category, a blank staff comment, no attachment, and is read by its reporter; it is well formed exactly when its title (1 to 255 characters) and description (non-empty) are |
| `Models.WellFormed` | issues/models.py:19-27 | the field constraints of a row: a title of 1 to 255 characters, a non-empty description, a category of at most 100 characters, a priority and a status from their choice lists, and `created_at` no later than `updated_at` |
| `Models.Describe` | issues/models.py:30-31 | the display string is the title, then `" ("`, the reporter's username and `")"` |
| `Text.Strip` | issues/views.py:68 | the result is empty exactly when the input is all whitespace; otherwise it starts and ends with a non-space; it is the input with only whitespace cut from its two ends |
| `Text.StripIdempotent` | issues/views.py:68 | stripping a stripped query changes nothing |
| `Text.Contains` | issues/views.py:71-75 | true exactly when the needle occurs at some position of the string |
| `Text.IContains` | issues/views.py:71-75 | true exactly when the lower-cased needle occurs in the lower-cased string |
| `Text.IContainsIgnoresCase` | issues/views.py:71-75 | lower-casing either side first does not change the answer |
| `Text.IContainsEmpty` | issues/views.py:70 | an empty needle matches everything, which is why `search` tests the query before filtering |
| `Access.IsStaff` | issues/views.py:89-90 | the test behind `@user_passes_test`: the caller's staff flag |
| `Access.IsReporter` | issues/views.py:58 | `request.user == comp.reporter`, compared by the user's primary key |
| `Access.MayView` | issues/views.py:54 | a complaint may be seen by its reporter or by staff, and by nobody else |
| `Queries.Where` | issues/views.py:100-109 | a filtered queryset holds exactly the rows that satisfy the filter, and no more rows than before |
| `Queries.WhereKeepsOrder` | issues/views.py:100-109 | filtering keeps the rows in creation order, or in newest-first order |
| `Queries.NewestFirst` | issues/views.py:19 | `order_by("-created_at")` of rows in creation order: the same rows, the k-th newest at position k, strictly newest first |
| `Queries.PageOf` | issues/views.py:20-22 | a page holds at most its size and is a contiguous slice starting at index × size; it is short only where the sequence ends |
| `Queries.PageCovers` | issues/views.py:111-113 | every element at position j is on page j / size at offset j mod size, so pagination loses nothing |
| `Queries.WhereCountIsSetSize` | issues/views.py:82-84 | over rows in creation order, the `count()` of a filtered queryset is the number of distinct rows that satisfy the filter |
| `Queries.ComplaintList` | issues/views.py:18-23 | the public list has no ownership filter; page p holds at most 10 complaints: the (10p+k)-th newest at position k, newest first; a page is short only where the list ends |
| `Queries.MyComplaints` | issues/views.py:43-46 | exactly the caller's complaints, newest first; over rows in creation order, as many as the caller has |
| `Queries.Search` | issues/views.py:66-76 | a query that strips to empty finds nothing; otherwise the result is exactly the complaints whose title, description or category contains the stripped query, ignoring case, newest first |
| `Queries.UnreadCount` | issues/views.py:80-85 | over rows in creation order, exactly the number of the caller's complaints with `is_read_by_reporter` false; at most their complaint count; zero exactly when every one of their complaints is read |
| `Queries.OpenComplaints` | issues/views.py:173 | exactly the caller's complaints with status `open`; over rows in creation order, as many as there are such complaints |
| `Queries.HighPending` | issues/views.py:174-177 | exactly the caller's complaints with priority `high` and a status other than `resolved`, so `closed` ones count; over rows in creation order, as many as there are such complaints |
| `Queries.Dashboard` | issues/views.py:168-190 | `my_count`, `open_count`, `high_pending` and `unread` are the sizes of my complaints, my open complaints, my high-priority unresolved complaints and the unread counter; each of the last three is at most `my_count`; `recent` is the first min(5, `my_count`) of my complaints, newest first |
| `Queries.HighPendingCountsClosed` | issues/views.py:173-177 | `high_pending` plus the caller's resolved high-priority complaints equals all of the caller's high-priority complaints |
| `Queries.StaffQuery` | issues/views.py:94-109 | exactly the rows that satisfy every supplied filter: text in title, description or reporter username; exact status; exact priority; an empty or absent parameter does not filter; newest first |
| `Queries.AdminComplaints` | issues/views.py:89-115 | a non-staff caller is refused; staff get page p of the filtered list: at most 20 rows, the (20p+k)-th row of the filtered list at position k, short only where that list ends; each row is stored and satisfies every supplied filter, newest first |
| `Queries.AdminComplaintsComplete` | issues/views.py:100-113 | every stored complaint that satisfies the filters appears on some page of the staff list |
| `Workflow.Find` | issues/views.py:52 | lookup by primary key returns a position holding that id, or reports that no row has it |
| `Workflow.FieldErrors` | issues/models.py:19-22 | a field is reported exactly when its cleaned value breaks its constraint: title not 1 to 255 characters, description empty, category over 100 characters, priority not a choice; no other field is ever reported |
| `Workflow.SubmissionErrors` | issues/models.py:19-22 | the title is reported exactly when, stripped, it is not 1 to 255 characters; the description exactly when, stripped, it is empty; the category exactly when, stripped, it is over 100 characters; the priority exactly when it is not a choice; no other field is ever reported |
| `Workflow.CreateOutcome` | issues/views.py:28-36 | a submission is saved exactly when it has no errors; a saved one is appended and the clock advances; a refused one is a validation error and nothing changes |
| `Workflow.CreateSpec` | issues/views.py:28-36 | a valid submission is appended with a fresh id. Its reporter is the caller and its status is `open`; it is read, its staff comment is blank, and both timestamps are the current tick. The stripped title, description and category, the priority and the attachment are stored, and the table invariant still holds. An invalid submission is refused with its fields and nothing changes |
| `Workflow.CreateIgnoresClaimedStatus` | issues/views.py:32-34 | a status sent by the client has no effect on the outcome |
| `Workflow.CreateKeepsUnread` | issues/models.py:28 | creating a complaint never changes anyone's unread count |
| `Workflow.ViewOutcome` | issues/views.py:51-62 | a refusal changes nothing; the only write a view makes replaces one unread row, of the same id, by the returned row marked read, and advances the clock |
| `Workflow.ViewSpec` | issues/views.py:51-62 | an unknown id is not found. A caller who is neither reporter nor staff is refused. On a refusal nothing changes. The reporter or a staff member viewing an existing row always succeeds and gets the stored row. When the caller is the reporter and the row is unread, that row becomes the old row marked read and stamped with the current tick; in every other case nothing is written. No other row changes, and the invariant holds |
| `Workflow.ViewByNonReporterChangesNothing` | issues/views.py:58-60 | anyone who is not the reporter of the viewed complaint, staff who have filed complaints of their own included, changes nothing by viewing it |
| `Workflow.ViewIdempotent` | issues/views.py:58-60 | a second view by the same caller returns the same result and writes nothing |
| `Workflow.UnreadAfterView` | issues/views.py:58-60 | the reporter's view lowers their unread count by exactly one when the complaint was unread; every other count is unchanged |
| `Workflow.StaffEditAsWritten` | issues/views.py:122-125 | each posted key's value is stored and a missing key keeps its value; the complaint is always marked unread; no field other than status, priority, comment and flag changes |
| `Workflow.AsWrittenStoresUnknownStatus` | issues/views.py:122-123 | the update as written can turn a well-formed complaint into one whose status is not a choice |
| `Workflow.StaffEdit` | issues/views.py:122-125 | a posted status or priority outside its choice list is refused with a validation error; otherwise the result is the as-written update, which keeps a well-formed complaint well formed |
| `Workflow.StaffUpdateOutcome` | issues/views.py:118-129 | a non-staff caller is refused; a refusal or a GET changes nothing; the only write replaces one row, of the same id, by the returned row, which is unread, and advances the clock |
| `Workflow.StaffUpdateSpec` | issues/views.py:118-129 | only staff may update, and an unknown id is not found. A GET returns the row and changes nothing. A POST is accepted exactly when the corrected edit accepts it, and is refused with that edit's error otherwise. An accepted POST changes only the target row: each posted value is stored, each omitted key keeps its value, title, description, category and attachment are kept, the row is marked unread and restamped. The invariant, ids, reporters and `created_at` survive |
| `Workflow.EmptyPostOnlyMarksUnread` | issues/views.py:122-126 | a post with no keys still marks the complaint unread and changes nothing but that flag and the update stamp |
| `Workflow.UnreadAfterStaffUpdate` | issues/views.py:125-126 | an accepted staff POST raises the reporter's unread count by one exactly when the complaint was read; every other count, and every count after a refusal or a GET, is unchanged |
| `Workflow.ComplaintStore.Create` | issues/views.py:28-36 | the method's result and new table are those of `CreateOutcome`, and the table invariant is kept |
| `Workflow.ComplaintStore.View` | issues/views.py:51-62 | the method's result and new table are those of `ViewOutcome`, and the table invariant is kept |
| `Workflow.ComplaintStore.AdminUpdate` | issues/views.py:118-129 | the method's result and new table are those of `StaffUpdateOutcome`, and the table invariant is kept |
| `Workflow.ComplaintStore.Insert` | issues/models.py:24-25 | saving a new instance assigns the next id and stamps both `created_at` and `updated_at` with the current tick |
| `Workflow.ComplaintStore.Save` | issues/models.py:25 | saving an existing row refreshes `updated_at` and replaces that row only |

## Left out

- Signup, login and logout (issues/views.py:133-165) and `StudentSignUpForm` are left out. They are the framework's authentication, which the model treats as given.
- `login_required` is left out. The identity is a parameter. A failed `user_passes_test` becomes `PermissionDenied` instead of a redirect to the login page.
- `home` (issues/views.py:13-14), the GET of `create_complaint`, rendering, redirects, flash messages and the JSON wrapper of `unread_count_api` are left out, because they are presentation only. `admin_update_complaint` on GET is modelled as giving back the complaint unchanged.
- `Queries.ComplaintList`, `Queries.AdminComplaints`: `Paginator.get_page` turns a missing, non-numeric or out-of-range page number into page 1 or the last page. The model does not do this. It takes a page index counted from 0 and returns an empty page past the end.
- `Workflow.SubmissionErrors` checks the model's field constraints on the stripped text fields, as `ComplaintForm` (issues/forms.py:21-33) does. The form's other checks are not modelled: the refusal of NUL characters, upload validation and the widget classes. `LoginForm` (issues/forms.py:36-42) is not modelled either.
- The attachment is an optional name only; where the file is stored is not modelled.
- Cascade deletion from `User` is not modelled, since no view deletes anything. This is why ids are simply positions + 1.
- `Text.IContains` lower-cases ASCII letters only. The database collation behind `icontains` may also fold other letters.
- Timestamps are ticks of the store's clock, not wall-clock datetimes. Ticks never tie, so "newest first" is fully determined.
- Concurrency is left out. Every operation runs atomically on the table, and interleaved requests would be last-write-wins.
- issues/urls.py, issues/admin.py and issues/static/issues/main.js are not modelled, because they hold routing, admin registration and browser polling. Note that main.js:3 polls `/issues/api/unread-count/`, while the route is `api/unread/` (issues/urls.py:25).
- `Workflow.StaffUpdateOutcome` uses the corrected edit `StaffEdit`, so it refuses a posted status or priority outside the choice lists; `Workflow.StaffUpdateSpec` and `Workflow.UnreadAfterStaffUpdate` are stated about that corrected outcome. As written, the source stores such a value (see Findings).
- `Workflow.ComplaintStore.AdminUpdate` refuses a posted status or priority outside the choice lists. As written, the source stores such a value (see Findings).

## Findings

| source | as written | input that shows it | evidently intended | confidence | as-written member | corrected member |
|---|---|---|---|---|---|---|
| issues/views.py:122-123 | `status` and `priority` are copied from the POST unchecked. `save()` does not enforce `choices`, so any string is stored (subject only to the column length). | a staff POST with `status=done` to a complaint that is `open` | only values from `STATUS_CHOICES` and `PRIORITY_CHOICES` are accepted, and others are refused as a validation error | medium; not executed | `Workflow.StaffEditAsWritten`, `Workflow.AsWrittenStoresUnknownStatus` | `Workflow.StaffEdit` |
