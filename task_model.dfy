/** models/Task.ts: the stored task entity, its defaults, its priority enum and its required fields,
    as checked when a new task is saved. */
module TaskModel {
  import opened Wrappers
  import opened Text

  datatype Priority = Low | Medium | High

  function PriorityName(p: Priority): string
  {
    match p
    case Low => "low"
    case Medium => "medium"
    case High => "high"
  }

  /** The `enum` check on `priority`. */
  function ParsePriority(s: string): (r: Option<Priority>)
    ensures r.Some? <==> s == "low" || s == "medium" || s == "high"
  {
    if s == "low" then Some(Low) else if s == "medium" then Some(Medium) else if s == "high" then Some(High) else None
  }

  /** The enum names and the parser are inverse to each other. */
  lemma PriorityRoundTrip(p: Priority, s: string)
    ensures ParsePriority(PriorityName(p)) == Some(p)
    ensures ParsePriority(s).Some? ==> PriorityName(ParsePriority(s).value) == s
  {
  }

  /** A stored attachment. */
  datatype Attachment = Attachment(name: string, url: string, size: int, mimeType: string)

  /** An attachment as handed to the model; a field may be missing. */
  datatype AttachmentInput = AttachmentInput(name: Option<string>, url: Option<string>, size: Option<int>, mimeType: Option<string>)

  /** A `required` string: present and not empty. */
  predicate RequiredString(s: Option<string>)
  {
    s.Some? && s.value != []
  }

  /** The sub-schema of an attachment: `name`, `url`, `size` and `type` are all required. */
  function ValidateAttachment(a: AttachmentInput): (r: Option<Attachment>)
    ensures r.Some? <==> RequiredString(a.name) && RequiredString(a.url) && a.size.Some? && RequiredString(a.mimeType)
    ensures r.Some? ==> a == AttachmentInput(Some(r.value.name), Some(r.value.url), Some(r.value.size), Some(r.value.mimeType))
  {
    if RequiredString(a.name) && RequiredString(a.url) && a.size.Some? && RequiredString(a.mimeType) then
      Some(Attachment(a.name.value, a.url.value, a.size.value, a.mimeType.value))
    else None
  }

  /** A stored task. `isDeleted`, `deletedAt` and `order` are the fields the trash, reorder and
      cleanup routes read and write; a missing `isDeleted` reads as false. */
  datatype TaskRecord = TaskRecord(
    title: string,
    description: Option<string>,
    completed: bool,
    dueDate: Option<int>,
    priority: Priority,
    attachments: seq<Attachment>,
    userId: nat,
    createdAt: int,
    updatedAt: int,
    isDeleted: bool,
    deletedAt: Option<int>,
    order: Option<int>)

  /** The fields given to `new Task(...)`; a missing field is `None`. */
  datatype TaskInput = TaskInput(
    title: Option<string>,
    description: Option<string>,
    completed: Option<bool>,
    dueDate: Option<int>,
    priority: Option<string>,
    attachments: seq<AttachmentInput>,
    userId: Option<nat>)

  datatype SchemaError = TitleRequired | PriorityNotAllowed | UserIdRequired | AttachmentInvalid(index: nat)

  function TrimmedTitle(input: TaskInput): Option<string>
  {
    if input.title.None? then None else Some(Trim(input.title.value))
  }

  /** All validation errors of a new task: the title is trimmed before `required` is checked. */
  function SchemaErrors(input: TaskInput): (errors: set<SchemaError>)
  {
    (if RequiredString(TrimmedTitle(input)) then {} else {TitleRequired})
    + (if input.priority.Some? && ParsePriority(input.priority.value).None? then {PriorityNotAllowed} else {})
    + (if input.userId.None? then {UserIdRequired} else {})
    + (set i: nat | i < |input.attachments| && ValidateAttachment(input.attachments[i]).None? :: AttachmentInvalid(i))
  }

  datatype SaveResult = Saved(record: TaskRecord) | Rejected(errors: set<SchemaError>)

  function ValidAttachments(inputs: seq<AttachmentInput>): (r: seq<Attachment>)
    requires forall i | 0 <= i < |inputs| :: ValidateAttachment(inputs[i]).Some?
    ensures |r| == |inputs| && forall i | 0 <= i < |r| :: Some(r[i]) == ValidateAttachment(inputs[i])
  {
    seq(|inputs|, i requires 0 <= i < |inputs| => ValidateAttachment(inputs[i]).value)
  }

  /** The document stored for a valid input at time `now`: the defaults filled in, strings
      trimmed, and both timestamps set to `now`. */
  function Stored(input: TaskInput, now: int): TaskRecord
    requires SchemaErrors(input) == {}
  {
    assert forall i | 0 <= i < |input.attachments| :: ValidateAttachment(input.attachments[i]).Some? by {
      forall i | 0 <= i < |input.attachments| ensures ValidateAttachment(input.attachments[i]).Some? {
        assert AttachmentInvalid(i) !in SchemaErrors(input);
      }
    }
    TaskRecord(
      TrimmedTitle(input).value,
      if input.description.None? then None else Some(Trim(input.description.value)),
      if input.completed.None? then false else input.completed.value,
      input.dueDate,
      if input.priority.None? then Medium else ParsePriority(input.priority.value).value,
      ValidAttachments(input.attachments),
      input.userId.value,
      now, now, false, None, None)
  }

  /** `task.save()` of a new task at time `now`; a task with a validation error is not saved. */
  function SaveNew(input: TaskInput, now: int): (r: SaveResult)
  {
    if SchemaErrors(input) != {} then Rejected(SchemaErrors(input)) else Saved(Stored(input, now))
  }

  /** A save succeeds exactly when the trimmed title is non-empty, the priority (if given) is one
      of the three names, the owner is given and every attachment has its four fields. */
  lemma {:induction false} SaveNewAccepts(input: TaskInput, now: int)
    ensures SaveNew(input, now).Saved? <==>
      && input.title.Some? && Trim(input.title.value) != []
      && (input.priority.None? || ParsePriority(input.priority.value).Some?)
      && input.userId.Some?
      && (forall i | 0 <= i < |input.attachments| :: ValidateAttachment(input.attachments[i]).Some?)
  {
    var e := SchemaErrors(input);
    if e == {} {
      assert TitleRequired !in e && PriorityNotAllowed !in e && UserIdRequired !in e;
      forall i | 0 <= i < |input.attachments| ensures ValidateAttachment(input.attachments[i]).Some? {
        assert AttachmentInvalid(i) !in e;
      }
    } else {
      var x :| x in e;
      if x.AttachmentInvalid? {
        assert ValidateAttachment(input.attachments[x.index]).None?;
      }
    }
  }

  /** A saved task has its defaults: not completed and medium priority unless given, both
      timestamps at the save, not in the trash and without an order. */
  lemma SavedDefaults(input: TaskInput, now: int)
    requires SaveNew(input, now).Saved?
    ensures var rec := SaveNew(input, now).record;
      && (input.completed.None? ==> !rec.completed)
      && (input.priority.None? ==> rec.priority == Medium)
      && rec.userId == input.userId.value
      && rec.createdAt == now && rec.updatedAt == now
      && !rec.isDeleted && rec.deletedAt.None? && rec.order.None?
      && |rec.attachments| == |input.attachments|
  {
  }

  /** A saved title is the given one trimmed, non-empty, and has nothing left to trim; a given
      priority is stored under its own name. */
  lemma {:induction false} SavedTitleAndPriority(input: TaskInput, now: int)
    requires SaveNew(input, now).Saved?
    ensures var rec := SaveNew(input, now).record;
      && rec.title == Trim(input.title.value) && rec.title != [] && Trim(rec.title) == rec.title
      && (input.priority.Some? ==> PriorityName(rec.priority) == input.priority.value)
  {
    SaveNewAccepts(input, now);
    var rec := SaveNew(input, now).record;
    assert rec.title == Trim(input.title.value);
    TrimIdempotent(input.title.value);
    if input.priority.Some? {
      PriorityRoundTrip(Medium, input.priority.value);
      assert rec.priority == ParsePriority(input.priority.value).value;
    }
  }
}
