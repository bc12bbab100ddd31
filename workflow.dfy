/**
 * The state-changing views of issues/views.py: `create_complaint`,
 * `view_complaint` and `admin_update_complaint`. Each one loads a record,
 * assigns some of its fields and saves it back. `ComplaintStore` holds the
 * table and does that step by step; the `...Outcome` functions give the
 * result and the new table of each operation as a value, and the lemmas
 * below state what the operations promise about them.
 */
module Workflow {
  import opened Models
  import opened Text
  import opened Access
  import opened Queries

  // ---------------------------------------------------------------- the table

  /**
   * What the saved table always satisfies: rows are kept in insertion order
   * with ids 1, 2, 3, ...; every row meets the model's field constraints; and
   * the store's clock is past every timestamp it has handed out.
   */
  predicate StoreInvariant(rows: seq<Complaint>, clock: nat) {
    && InCreationOrder(rows)
    && forall i :: 0 <= i < |rows| ==> rows[i].id == i + 1 && WellFormed(rows[i]) && rows[i].updatedAt < clock
  }

  /** The immutable part of every existing row survives: id, reporter and `created_at`. */
  predicate HistoryKept(before: seq<Complaint>, after: seq<Complaint>) {
    && |before| <= |after|
    && forall i :: 0 <= i < |before| ==>
         && after[i].id == before[i].id
         && after[i].reporter == before[i].reporter
         && after[i].createdAt == before[i].createdAt
         && after[i].updatedAt >= before[i].updatedAt
  }

  /** `get_object_or_404(Complaint, pk=id)`: the position of the row with that primary key. */
  function Find(rows: seq<Complaint>, id: nat): (r: Option<nat>)
    ensures r.Some? ==> r.value < |rows| && rows[r.value].id == id
    ensures r.None? ==> forall i :: 0 <= i < |rows| ==> rows[i].id != id
  {
    if rows == [] then None
    else if rows[|rows| - 1].id == id then Some(|rows| - 1)
    else Find(rows[..|rows| - 1], id)
  }

  lemma FindById(rows: seq<Complaint>, clock: nat, id: nat)
    requires StoreInvariant(rows, clock)
    ensures Find(rows, id) == if 1 <= id <= |rows| then Some(id - 1) else None
  {
  }

  /** The outcome of one operation: what the view gets back and the table afterwards. */
  datatype Outcome = Outcome(result: Result<Complaint>, rows: seq<Complaint>, clock: nat)

  // ---------------------------------------------------------------- create_complaint

  /**
   * What a reporter posts to `create_complaint`. `ComplaintForm` declares only
   * title, description, category, priority and attachment; `status` stands for
   * a status value a client may put in the request anyway, which the form ignores.
   */
  datatype Submission = Submission(
    title: string,
    description: string,
    category: string,
    priority: string,
    attachment: Option<string>,
    status: Option<string>)

  /** The form fields whose cleaned values break the model's field constraints. */
  function FieldErrors(title: string, description: string, category: string, priority: string): (errs: set<FormField>)
    ensures TitleField in errs <==> !ValidTitle(title)
    ensures DescriptionField in errs <==> !ValidDescription(description)
    ensures CategoryField in errs <==> !ValidCategory(category)
    ensures PriorityField in errs <==> !IsPriorityChoice(priority)
    ensures errs <= {TitleField, DescriptionField, CategoryField, PriorityField}
  {
    (if ValidTitle(title) then {} else {TitleField})
    + (if ValidDescription(description) then {} else {DescriptionField})
    + (if ValidCategory(category) then {} else {CategoryField})
    + (if IsPriorityChoice(priority) then {} else {PriorityField})
  }

  /**
   * The fields of a submission that `ComplaintForm.is_valid()` rejects. The
   * form's text fields strip surrounding whitespace first, so the constraints
   * are checked on the stripped title, description and category.
   */
  function SubmissionErrors(sub: Submission): (errs: set<FormField>)
    ensures TitleField in errs <==> !ValidTitle(Strip(sub.title))
    ensures DescriptionField in errs <==> !ValidDescription(Strip(sub.description))
    ensures CategoryField in errs <==> !ValidCategory(Strip(sub.category))
    ensures PriorityField in errs <==> !IsPriorityChoice(sub.priority)
    ensures errs <= {TitleField, DescriptionField, CategoryField, PriorityField}
  {
    FieldErrors(Strip(sub.title), Strip(sub.description), Strip(sub.category), sub.priority)
  }

  /** `create_complaint` on a POST: the form's cleaned values are saved as a new row. */
  function CreateOutcome(rows: seq<Complaint>, clock: nat, who: Identity, sub: Submission): (o: Outcome)
    ensures o.result.Ok? <==> SubmissionErrors(sub) == {}
    ensures o.result.Err? ==> o.result.error.ValidationError? && o.rows == rows && o.clock == clock
    ensures o.result.Ok? ==> o.rows == rows + [o.result.value] && o.clock == clock + 1
  {
    var errs := SubmissionErrors(sub);
    if errs != {} then Outcome(Err(ValidationError(errs)), rows, clock)
    else
      var comp := NewComplaint(who.user, Strip(sub.title), Strip(sub.description))
        .(category := Strip(sub.category), priority := sub.priority, attachment := sub.attachment);
      var comp := comp.(status := Open.Code());
      var saved := comp.(id := |rows| + 1, createdAt := clock, updatedAt := clock);
      Outcome(Ok(saved), rows + [saved], clock + 1)
  }

  /**
   * A valid submission is appended as a new row with a fresh id, owned by the
   * caller, open, read by its reporter, with no staff comment, stamped with the
   * current tick; an invalid one is refused with the offending fields and the
   * table is left as it was.
   */
  lemma CreateSpec(rows: seq<Complaint>, clock: nat, who: Identity, sub: Submission)
    requires StoreInvariant(rows, clock)
    ensures var o := CreateOutcome(rows, clock, who, sub);
      && StoreInvariant(o.rows, o.clock)
      && HistoryKept(rows, o.rows)
      && (SubmissionErrors(sub) != {} ==>
            o == Outcome(Err(ValidationError(SubmissionErrors(sub))), rows, clock))
      && (SubmissionErrors(sub) == {} ==>
            && o.result.Ok?
            && o.rows == rows + [o.result.value]
            && o.clock == clock + 1
            && Find(rows, o.result.value.id) == None
            && o.result.value.reporter == who.user
            && ParseStatus(o.result.value.status) == Some(Open)
            && o.result.value.isReadByReporter
            && o.result.value.adminComment == ""
            && o.result.value.createdAt == clock == o.result.value.updatedAt
            && o.result.value.title == Strip(sub.title)
            && o.result.value.description == Strip(sub.description)
            && o.result.value.category == Strip(sub.category)
            && o.result.value.priority == sub.priority
            && o.result.value.attachment == sub.attachment)
  {
  }

  /** Whatever status the client sends, the outcome is the same: the view forces `open`. */
  lemma CreateIgnoresClaimedStatus(rows: seq<Complaint>, clock: nat, who: Identity, sub: Submission, claimed: Option<string>)
    ensures CreateOutcome(rows, clock, who, sub.(status := claimed)) == CreateOutcome(rows, clock, who, sub)
  {
  }

  /** A new complaint starts read, so creating one never raises anyone's unread count. */
  lemma CreateKeepsUnread(rows: seq<Complaint>, clock: nat, who: Identity, sub: Submission, u: Identity)
    ensures UnreadCount(CreateOutcome(rows, clock, who, sub).rows, u) == UnreadCount(rows, u)
  {
    var o := CreateOutcome(rows, clock, who, sub);
    if o.result.Ok? {
      WhereAppend(rows, o.result.value, UnreadFor(u));
    }
  }

  // ---------------------------------------------------------------- view_complaint

  /** `view_complaint`: the only write it ever makes marks an unread row read. */
  function ViewOutcome(rows: seq<Complaint>, clock: nat, who: Identity, id: nat): (o: Outcome)
    ensures o.result.Err? ==> o.rows == rows && o.clock == clock
    ensures o.rows != rows ==>
      && o.result.Ok? && o.result.value.isReadByReporter && o.clock == clock + 1
      && exists i :: 0 <= i < |rows| && rows[i].id == o.result.value.id && !rows[i].isReadByReporter && o.rows == rows[i := o.result.value]
  {
    match Find(rows, id)
    case None => Outcome(Err(NotFound), rows, clock)
    case Some(i) =>
      var comp := rows[i];
      if !MayView(who, comp) then Outcome(Err(PermissionDenied), rows, clock)
      else if IsReporter(who, comp) && !comp.isReadByReporter then
        var saved := comp.(isReadByReporter := true, updatedAt := clock);
        Outcome(Ok(saved), rows[i := saved], clock + 1)
      else Outcome(Ok(comp), rows, clock)
  }

  /**
   * An unknown id is `NotFound`; someone who is neither the reporter nor staff
   * is refused; in both cases nothing changes. Otherwise the caller gets the
   * stored row back, which after a reporter's view is marked read, and every
   * other row stays as it was.
   */
  lemma ViewSpec(rows: seq<Complaint>, clock: nat, who: Identity, id: nat)
    requires StoreInvariant(rows, clock)
    ensures var o := ViewOutcome(rows, clock, who, id);
      && StoreInvariant(o.rows, o.clock)
      && HistoryKept(rows, o.rows)
      && |o.rows| == |rows|
      && (o.result == Err(NotFound) <==> !(1 <= id <= |rows|))
      && (o.result == Err(PermissionDenied) <==> 1 <= id <= |rows| && !MayView(who, rows[id - 1]))
      && (o.result.Err? ==> o.rows == rows && o.clock == clock)
      && (1 <= id <= |rows| && MayView(who, rows[id - 1]) ==> o.result.Ok?)
      && (o.result.Ok? ==> o.result == Ok(o.rows[id - 1]))
      && (o.result.Ok? && IsReporter(who, rows[id - 1]) ==> o.rows[id - 1].isReadByReporter)
      && (o.result.Ok? && !(IsReporter(who, rows[id - 1]) && !rows[id - 1].isReadByReporter) ==>
            o.rows == rows && o.clock == clock)
      && (o.result.Ok? && IsReporter(who, rows[id - 1]) && !rows[id - 1].isReadByReporter ==>
            o.rows[id - 1] == rows[id - 1].(isReadByReporter := true, updatedAt := clock) && o.clock == clock + 1)
      && (forall j :: 0 <= j < |rows| && j != id - 1 ==> o.rows[j] == rows[j])
  {
    FindById(rows, clock, id);
  }

  /**
   * Nobody but the complaint's own reporter changes anything by viewing it:
   * not staff, even staff who have filed complaints of their own.
   */
  lemma ViewByNonReporterChangesNothing(rows: seq<Complaint>, clock: nat, who: Identity, id: nat)
    requires StoreInvariant(rows, clock)
    requires 1 <= id <= |rows| ==> !IsReporter(who, rows[id - 1])
    ensures ViewOutcome(rows, clock, who, id).rows == rows
    ensures ViewOutcome(rows, clock, who, id).clock == clock
  {
  }

  /** Viewing is idempotent: a second view by the same caller returns the same and writes nothing. */
  lemma ViewIdempotent(rows: seq<Complaint>, clock: nat, who: Identity, id: nat)
    requires StoreInvariant(rows, clock)
    ensures var o := ViewOutcome(rows, clock, who, id);
      ViewOutcome(o.rows, o.clock, who, id) == o
  {
    var o := ViewOutcome(rows, clock, who, id);
    ViewSpec(rows, clock, who, id);
    FindById(rows, clock, id);
    FindById(o.rows, o.clock, id);
  }

  /** The reporter's view clears exactly one unit of their unread count when the complaint was unread. */
  lemma UnreadAfterView(rows: seq<Complaint>, clock: nat, who: Identity, id: nat, u: Identity)
    requires StoreInvariant(rows, clock)
    ensures var o := ViewOutcome(rows, clock, who, id);
      UnreadCount(o.rows, u)
      + (if 1 <= id <= |rows| && IsReporter(who, rows[id - 1]) && IsReporter(u, rows[id - 1])
            && !rows[id - 1].isReadByReporter then 1 else 0)
      == UnreadCount(rows, u)
  {
    FindById(rows, clock, id);
    var o := ViewOutcome(rows, clock, who, id);
    if o.rows != rows {
      var i := id - 1;
      WhereCountUpdate(rows, i, o.rows[i], UnreadFor(u));
      assert rows[i := o.rows[i]] == o.rows;
    }
  }

  // ---------------------------------------------------------------- admin_update_complaint

  /** The POST of `admin_update_complaint`: a missing key is `None`. */
  datatype StaffPost = StaffPost(status: Option<string>, priority: Option<string>, adminComment: Option<string>)

  /**
   * `admin_update_complaint` as written: each posted key replaces the field,
   * a missing key keeps it, and the complaint is always marked unread. The
   * posted strings are stored as they come, without checking the choice lists.
   */
  function StaffEditAsWritten(c: Complaint, post: StaffPost): (r: Complaint)
    ensures !r.isReadByReporter
    ensures post.status.None? ==> r.status == c.status
    ensures post.priority.None? ==> r.priority == c.priority
    ensures post.adminComment.None? ==> r.adminComment == c.adminComment
    ensures post.status.Some? ==> r.status == post.status.value
    ensures post.priority.Some? ==> r.priority == post.priority.value
    ensures post.adminComment.Some? ==> r.adminComment == post.adminComment.value
    ensures r.(status := c.status, priority := c.priority, adminComment := c.adminComment,
               isReadByReporter := c.isReadByReporter) == c
  {
    var comp := c.(status := post.status.GetOr(c.status));
    var comp := comp.(priority := post.priority.GetOr(comp.priority));
    var comp := comp.(adminComment := post.adminComment.GetOr(comp.adminComment));
    comp.(isReadByReporter := false)
  }

  /** The as-written update can store a status that is not one of the choices. */
  lemma AsWrittenStoresUnknownStatus()
    ensures exists c: Complaint, post: StaffPost :: WellFormed(c) && !WellFormed(StaffEditAsWritten(c, post))
  {
    var c := NewComplaint(User(1, "student"), "Broken projector", "Room 101");
    var post := StaffPost(Some("done"), None, None);
    assert WellFormed(c) && !WellFormed(StaffEditAsWritten(c, post));
  }

  /**
   * The update with the choice lists enforced: a posted status or priority that
   * is not one of the choices is refused as a validation error; otherwise it is
   * exactly the as-written update, which then keeps the record well formed.
   */
  function StaffEdit(c: Complaint, post: StaffPost): (r: Result<Complaint>)
    ensures r.Ok? <==>
      (post.status.Some? ==> IsStatusChoice(post.status.value))
      && (post.priority.Some? ==> IsPriorityChoice(post.priority.value))
    ensures r.Ok? ==> r.value == StaffEditAsWritten(c, post)
    ensures r.Err? ==> r.error.ValidationError? && r.error.fields != {}
    ensures r.Ok? && WellFormed(c) ==> WellFormed(r.value)
  {
    var errs :=
      (if post.status.Some? && !IsStatusChoice(post.status.value) then {StatusField} else {})
      + (if post.priority.Some? && !IsPriorityChoice(post.priority.value) then {PriorityField} else {});
    if errs != {} then Err(ValidationError(errs)) else Ok(StaffEditAsWritten(c, post))
  }

  /**
   * `admin_update_complaint`; `post` is `None` for the GET that only shows the
   * edit form. Only a staff POST that passes the choice check writes, and it
   * writes one row, which it leaves unread.
   */
  function StaffUpdateOutcome(rows: seq<Complaint>, clock: nat, who: Identity, id: nat, post: Option<StaffPost>): (o: Outcome)
    ensures !IsStaff(who) ==> o.result == Err(PermissionDenied)
    ensures o.result.Err? || post.None? ==> o.rows == rows && o.clock == clock
    ensures o.rows != rows ==>
      && IsStaff(who) && post.Some? && o.result.Ok? && !o.result.value.isReadByReporter && o.clock == clock + 1
      && exists i :: 0 <= i < |rows| && rows[i].id == o.result.value.id && o.rows == rows[i := o.result.value]
  {
    if !IsStaff(who) then Outcome(Err(PermissionDenied), rows, clock)
    else match Find(rows, id)
      case None => Outcome(Err(NotFound), rows, clock)
      case Some(i) =>
        if post.None? then Outcome(Ok(rows[i]), rows, clock)
        else match StaffEdit(rows[i], post.value)
          case Err(e) => Outcome(Err(e), rows, clock)
          case Ok(comp) =>
            var saved := comp.(updatedAt := clock);
            Outcome(Ok(saved), rows[i := saved], clock + 1)
  }

  /**
   * Staff only; an unknown id is `NotFound`; on a refusal nothing changes. A POST
   * changes the one target row and no other: it is marked unread and restamped,
   * and a key left out of the post keeps its current value.
   */
  lemma StaffUpdateSpec(rows: seq<Complaint>, clock: nat, who: Identity, id: nat, post: Option<StaffPost>)
    requires StoreInvariant(rows, clock)
    ensures var o := StaffUpdateOutcome(rows, clock, who, id, post);
      && StoreInvariant(o.rows, o.clock)
      && HistoryKept(rows, o.rows)
      && |o.rows| == |rows|
      && (!IsStaff(who) ==> o.result == Err(PermissionDenied))
      && (IsStaff(who) ==> (o.result == Err(NotFound) <==> !(1 <= id <= |rows|)))
      && (o.result.Err? || post.None? ==> o.rows == rows && o.clock == clock)
      && (forall j :: 0 <= j < |rows| && j != id - 1 ==> o.rows[j] == rows[j])
      && (IsStaff(who) && 1 <= id <= |rows| && post.None? ==> o.result == Ok(rows[id - 1]))
      && (IsStaff(who) && 1 <= id <= |rows| && post.Some? ==>
            (o.result.Ok? <==> StaffEdit(rows[id - 1], post.value).Ok?))
      && (IsStaff(who) && 1 <= id <= |rows| && post.Some? && StaffEdit(rows[id - 1], post.value).Err? ==>
            o.result == Err(StaffEdit(rows[id - 1], post.value).error))
      && (o.result.Ok? && post.Some? ==>
            && o.result == Ok(o.rows[id - 1])
            && o.clock == clock + 1
            && !o.rows[id - 1].isReadByReporter
            && o.rows[id - 1].updatedAt == clock
            && (post.value.status.None? ==> o.rows[id - 1].status == rows[id - 1].status)
            && (post.value.priority.None? ==> o.rows[id - 1].priority == rows[id - 1].priority)
            && (post.value.adminComment.None? ==> o.rows[id - 1].adminComment == rows[id - 1].adminComment)
            && (post.value.status.Some? ==> o.rows[id - 1].status == post.value.status.value)
            && (post.value.priority.Some? ==> o.rows[id - 1].priority == post.value.priority.value)
            && (post.value.adminComment.Some? ==> o.rows[id - 1].adminComment == post.value.adminComment.value)
            && o.rows[id - 1].title == rows[id - 1].title
            && o.rows[id - 1].description == rows[id - 1].description
            && o.rows[id - 1].category == rows[id - 1].category
            && o.rows[id - 1].attachment == rows[id - 1].attachment)
  {
    FindById(rows, clock, id);
  }

  /** A post with no keys at all still marks the complaint unread, and changes nothing else but the stamp. */
  lemma EmptyPostOnlyMarksUnread(rows: seq<Complaint>, clock: nat, who: Identity, id: nat)
    requires StoreInvariant(rows, clock)
    requires IsStaff(who) && 1 <= id <= |rows|
    ensures StaffUpdateOutcome(rows, clock, who, id, Some(StaffPost(None, None, None))).rows
         == rows[id - 1 := rows[id - 1].(isReadByReporter := false, updatedAt := clock)]
  {
  }

  /**
   * A staff POST that is accepted raises the reporter's unread count by one
   * exactly when the complaint was read; no other update changes any count.
   */
  lemma UnreadAfterStaffUpdate(rows: seq<Complaint>, clock: nat, who: Identity, id: nat, post: Option<StaffPost>, u: Identity)
    requires StoreInvariant(rows, clock)
    ensures var o := StaffUpdateOutcome(rows, clock, who, id, post);
      UnreadCount(o.rows, u)
      == UnreadCount(rows, u)
         + (if IsStaff(who) && 1 <= id <= |rows| && post.Some? && StaffEdit(rows[id - 1], post.value).Ok?
               && IsReporter(u, rows[id - 1]) && rows[id - 1].isReadByReporter then 1 else 0)
  {
    FindById(rows, clock, id);
    var o := StaffUpdateOutcome(rows, clock, who, id, post);
    if IsStaff(who) && 1 <= id <= |rows| && post.Some? && StaffEdit(rows[id - 1], post.value).Ok? {
      var i := id - 1;
      WhereCountUpdate(rows, i, o.rows[i], UnreadFor(u));
      assert rows[i := o.rows[i]] == o.rows;
    }
  }

  // ---------------------------------------------------------------- the store

  /** The complaint table with its clock; each `save()` stamps `updated_at` with the clock and advances it. */
  class ComplaintStore {
    var rows: seq<Complaint>
    var clock: nat

    ghost predicate Valid()
      reads this
    {
      StoreInvariant(rows, clock)
    }

    constructor ()
      ensures Valid() && rows == [] && clock == 0
    {
      rows := [];
      clock := 0;
    }

    /** `comp.save()` of a new instance: the primary key and both timestamps are assigned. */
    method Insert(comp: Complaint) returns (saved: Complaint)
      modifies this
      ensures saved == comp.(id := |old(rows)| + 1, createdAt := old(clock), updatedAt := old(clock))
      ensures rows == old(rows) + [saved] && clock == old(clock) + 1
    {
      saved := comp.(id := |rows| + 1, createdAt := clock, updatedAt := clock);
      rows := rows + [saved];
      clock := clock + 1;
    }

    /** `comp.save()` of an existing row: `auto_now` refreshes `updated_at`. */
    method Save(i: nat, comp: Complaint) returns (saved: Complaint)
      requires i < |rows|
      modifies this
      ensures saved == comp.(updatedAt := old(clock))
      ensures rows == old(rows)[i := saved] && clock == old(clock) + 1
    {
      saved := comp.(updatedAt := clock);
      rows := rows[i := saved];
      clock := clock + 1;
    }

    /** `create_complaint` on a POST. */
    method Create(who: Identity, sub: Submission) returns (r: Result<Complaint>)
      requires Valid()
      modifies this
      ensures Valid()
      ensures Outcome(r, rows, clock) == CreateOutcome(old(rows), old(clock), who, sub)
    {
      CreateSpec(rows, clock, who, sub);
      var errs := SubmissionErrors(sub);
      if errs != {} {
        return Err(ValidationError(errs));
      }
      var comp := NewComplaint(who.user, Strip(sub.title), Strip(sub.description));
      comp := comp.(category := Strip(sub.category), priority := sub.priority, attachment := sub.attachment);
      comp := comp.(status := Open.Code());
      var saved := Insert(comp);
      r := Ok(saved);
    }

    /** `view_complaint`. */
    method View(who: Identity, id: nat) returns (r: Result<Complaint>)
      requires Valid()
      modifies this
      ensures Valid()
      ensures Outcome(r, rows, clock) == ViewOutcome(old(rows), old(clock), who, id)
    {
      ViewSpec(rows, clock, who, id);
      var found := Find(rows, id);
      if found.None? {
        return Err(NotFound);
      }
      var i := found.value;
      var comp := rows[i];
      if !MayView(who, comp) {
        return Err(PermissionDenied);
      }
      if IsReporter(who, comp) && !comp.isReadByReporter {
        comp := comp.(isReadByReporter := true);
        comp := Save(i, comp);
      }
      r := Ok(comp);
    }

    /** `admin_update_complaint`; `post` is `None` for the GET that shows the form. */
    method AdminUpdate(who: Identity, id: nat, post: Option<StaffPost>) returns (r: Result<Complaint>)
      requires Valid()
      modifies this
      ensures Valid()
      ensures Outcome(r, rows, clock) == StaffUpdateOutcome(old(rows), old(clock), who, id, post)
    {
      StaffUpdateSpec(rows, clock, who, id, post);
      if !IsStaff(who) {
        return Err(PermissionDenied);
      }
      var found := Find(rows, id);
      if found.None? {
        return Err(NotFound);
      }
      var i := found.value;
      var comp := rows[i];
      if post.None? {
        return Ok(comp);
      }
      var edited := StaffEdit(comp, post.value);
      if edited.Err? {
        return Err(edited.error);
      }
      comp := edited.value;
      comp := Save(i, comp);
      r := Ok(comp);
    }
  }
}
