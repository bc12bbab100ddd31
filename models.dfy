/**
 * The `Complaint` record of issues/models.py: its fields, the two choice lists,
 * the field constraints and the defaults a fresh instance gets.
 */
module Models {

  datatype Option<T> = None | Some(value: T) {
    function GetOr(default: T): T {
      if Some? then value else default
    }
  }

  const TitleMaxLength: nat := 255
  const CategoryMaxLength: nat := 100

  /** `PRIORITY_CHOICES`; `Code()` is the stored value. */
  datatype Priority = Low | Medium | High {
    function Code(): string {
      match this
      case Low => "low"
      case Medium => "medium"
      case High => "high"
    }
  }

  /** `STATUS_CHOICES`. */
  datatype Status = Open | InProgress | Resolved | Closed {
    function Code(): string {
      match this
      case Open => "open"
      case InProgress => "in_progress"
      case Resolved => "resolved"
      case Closed => "closed"
    }
  }

  /** The stored string of a priority back to the choice it names, if any. */
  function ParsePriority(s: string): (p: Option<Priority>)
    ensures p.Some? ==> p.value.Code() == s
    ensures p.None? <==> forall q: Priority :: q.Code() != s
  {
    if s == "low" then Some(Low)
    else if s == "medium" then Some(Medium)
    else if s == "high" then Some(High)
    else None
  }

  function ParseStatus(s: string): (st: Option<Status>)
    ensures st.Some? ==> st.value.Code() == s
    ensures st.None? <==> forall q: Status :: q.Code() != s
  {
    if s == "open" then Some(Open)
    else if s == "in_progress" then Some(InProgress)
    else if s == "resolved" then Some(Resolved)
    else if s == "closed" then Some(Closed)
    else None
  }

  lemma PriorityRoundTrip(p: Priority)
    ensures ParsePriority(p.Code()) == Some(p)
  {
  }

  lemma StatusRoundTrip(s: Status)
    ensures ParseStatus(s.Code()) == Some(s)
  {
  }

  predicate IsPriorityChoice(s: string) {
    ParsePriority(s).Some?
  }

  predicate IsStatusChoice(s: string) {
    ParseStatus(s).Some?
  }

  /** The `auth.User` a complaint points at; only the fields the views read. */
  datatype User = User(id: nat, username: string)

  /**
   * One row of the complaint table. `priority` and `status` are the stored
   * strings of the two `CharField`s; `id` 0 and timestamps 0 stand for a
   * record not yet saved. Timestamps are ticks of the store's clock.
   */
  datatype Complaint = Complaint(
    id: nat,
    reporter: User,
    title: string,
    description: string,
    category: string,
    priority: string,
    status: string,
    createdAt: nat,
    updatedAt: nat,
    attachment: Option<string>,
    adminComment: string,
    isReadByReporter: bool)

  /** `title`: required, at most 255 characters. */
  predicate ValidTitle(title: string) {
    0 < |title| <= TitleMaxLength
  }

  /** `description`: a required `TextField`. */
  predicate ValidDescription(description: string) {
    0 < |description|
  }

  /** `category`: may be blank, at most 100 characters. */
  predicate ValidCategory(category: string) {
    |category| <= CategoryMaxLength
  }

  /**
   * The field constraints of the model hold. `admin_comment` may be blank and
   * the attachment is optional, so neither constrains anything.
   */
  predicate WellFormed(c: Complaint) {
    && ValidTitle(c.title)
    && ValidDescription(c.description)
    && ValidCategory(c.category)
    && IsPriorityChoice(c.priority)
    && IsStatusChoice(c.status)
    && c.createdAt <= c.updatedAt
  }

  /** `Complaint(reporter=..., title=..., description=...)`: an unsaved instance with every default applied. */
  function NewComplaint(reporter: User, title: string, description: string): (c: Complaint)
    ensures ParsePriority(c.priority) == Some(Low)
    ensures ParseStatus(c.status) == Some(Open)
    ensures c.isReadByReporter
    ensures c.category == "" && c.adminComment == "" && c.attachment == None
    ensures c.reporter == reporter && c.title == title && c.description == description
    ensures WellFormed(c) <==> ValidTitle(title) && ValidDescription(description)
  {
    Complaint(
      id := 0,
      reporter := reporter,
      title := title,
      description := description,
      category := "",
      priority := Low.Code(),
      status := Open.Code(),
      createdAt := 0,
      updatedAt := 0,
      attachment := None,
      adminComment := "",
      isReadByReporter := true)
  }

  /** `Complaint.__str__`: the title followed by the reporter's username in parentheses. */
  function Describe(c: Complaint): (r: string)
    ensures |r| == |c.title| + |c.reporter.username| + 3
    ensures r[..|c.title|] == c.title
    ensures r[|c.title| + 2..|r| - 1] == c.reporter.username
    ensures r[|c.title|..|c.title| + 2] == " (" && r[|r| - 1] == ')'
  {
    c.title + " (" + c.reporter.username + ")"
  }
}
