/**
 * The caller's identity, the authorisation predicates of issues/views.py and
 * the three error kinds the views recover from (a failed form, a missing row,
 * a refused identity).
 */
module Access {
  import opened Models

  /** The logged-in user, passed to every operation explicitly. */
  datatype Identity = Identity(user: User, isStaff: bool)

  /** The complaint form fields a validation error can name. */
  datatype FormField = TitleField | DescriptionField | CategoryField | PriorityField | StatusField

  datatype Error = NotFound | PermissionDenied | ValidationError(fields: set<FormField>)

  datatype Result<T> = Ok(value: T) | Err(error: Error)

  /** `is_staff(user)`, the test behind `@user_passes_test`. */
  predicate IsStaff(who: Identity) {
    who.isStaff
  }

  /** `request.user == comp.reporter`: users compare by primary key. */
  predicate IsReporter(who: Identity, c: Complaint) {
    who.user.id == c.reporter.id
  }

  /** Only the reporter or a staff member may see a complaint. */
  predicate MayView(who: Identity, c: Complaint) {
    IsReporter(who, c) || IsStaff(who)
  }
}
