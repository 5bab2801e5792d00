/** The create / edit / view dialog of src/components/tasks/TaskModal.tsx:
    the form it edits, the required-field validation, the assignee picker and
    saving. */
module TaskForm {
  import opened Optional
  import opened Strings
  import opened Tasks

  datatype Mode = ViewMode | EditMode | CreateMode

  /* ---------------------------------------------------------------- */
  /* Validation                                                       */
  /* ---------------------------------------------------------------- */

  datatype FormField = TitleField | DescriptionField | DueDateField | StatusField | AssigneeField

  /** Field name to message, for every field that failed its check. */
  type Errors = map<FormField, string>

  const TitleRequired := "Title is required."
  const DescriptionRequired := "Description is required."
  const DueDateRequired := "Due date is required."
  const StatusRequired := "Status is required."
  const AssigneeRequired := "Assignee is required."

  const AllFields: set<FormField> := {TitleField, DescriptionField, DueDateField, StatusField, AssigneeField}

  /** The message shown under a field that failed. */
  function Message(f: FormField): string {
    match f
    case TitleField => TitleRequired
    case DescriptionField => DescriptionRequired
    case DueDateField => DueDateRequired
    case StatusField => StatusRequired
    case AssigneeField => AssigneeRequired
  }

  /** The check each field fails, as the dialog writes it: title and
      description when trimming leaves nothing (passed in as `blankTitle` and
      `blankDescription`), due date and status when empty, and the assignee,
      in create and edit mode only, when it has no name. */
  predicate Fails(form: Task, mode: Mode, blankTitle: bool, blankDescription: bool, f: FormField) {
    match f
    case TitleField => blankTitle
    case DescriptionField => blankDescription
    case DueDateField => form.dueDate == ""
    case StatusField => form.status == ""
    case AssigneeField => (mode.CreateMode? || mode.EditMode?) && form.assignee.name == ""
  }

  /** The required-field checks: one message for every field that fails. */
  function Validate(form: Task, mode: Mode): (r: Errors)
    ensures TitleField in r <==> |Trim(form.title)| == 0
    ensures DescriptionField in r <==> |Trim(form.description)| == 0
    ensures DueDateField in r <==> form.dueDate == ""
    ensures StatusField in r <==> form.status == ""
    ensures AssigneeField in r <==> !mode.ViewMode? && form.assignee.name == ""
    ensures forall f :: f in r ==> r[f] == Message(f)
  {
    Collect(form, mode, |Trim(form.title)| == 0, |Trim(form.description)| == 0)
  }

  /** The errors object once the two text fields have been trimmed: one
      message for every field whose check fails. */
  function Collect(form: Task, mode: Mode, blankTitle: bool, blankDescription: bool): (r: Errors)
    ensures TitleField in r <==> blankTitle
    ensures DescriptionField in r <==> blankDescription
    ensures DueDateField in r <==> form.dueDate == ""
    ensures StatusField in r <==> form.status == ""
    ensures AssigneeField in r <==> !mode.ViewMode? && form.assignee.name == ""
    ensures forall f :: f in r ==> r[f] == Message(f)
  {
    var r := map f | f in AllFields && Fails(form, mode, blankTitle, blankDescription, f) :: Message(f);
    assert TitleField in r <==> Fails(form, mode, blankTitle, blankDescription, TitleField);
    assert DescriptionField in r <==> Fails(form, mode, blankTitle, blankDescription, DescriptionField);
    assert DueDateField in r <==> Fails(form, mode, blankTitle, blankDescription, DueDateField);
    assert StatusField in r <==> Fails(form, mode, blankTitle, blankDescription, StatusField);
    assert AssigneeField in r <==> Fails(form, mode, blankTitle, blankDescription, AssigneeField);
    r
  }

  /** Title and description are rejected exactly when they hold nothing but
      whitespace. */
  lemma ValidateRejectsBlank(form: Task, mode: Mode)
    ensures TitleField in Validate(form, mode) <==> AllWhitespace(form.title)
    ensures DescriptionField in Validate(form, mode) <==> AllWhitespace(form.description)
  {
    var t := Trim(form.title);
    var d := Trim(form.description);
  }

  /** `Object.keys(v).length === 0`: the form passes when no field failed. */
  predicate Passes(errors: Errors) {
    |errors.Keys| == 0
  }

  /** A form passes exactly when each required field is filled in. */
  lemma PassesIff(form: Task, mode: Mode)
    ensures Passes(Validate(form, mode)) <==>
      && !AllWhitespace(form.title)
      && !AllWhitespace(form.description)
      && form.dueDate != ""
      && form.status != ""
      && (mode.ViewMode? || form.assignee.name != "")
  {
    var v := Validate(form, mode);
    ValidateRejectsBlank(form, mode);
    if !Passes(v) {
      var f :| f in v.Keys;
      assert f.TitleField? || f.DescriptionField? || f.DueDateField? || f.StatusField? || f.AssigneeField?;
    }
  }

  /* ---------------------------------------------------------------- */
  /* Editing                                                          */
  /* ---------------------------------------------------------------- */

  /** The keys of a task, as `keyof Task`. */
  datatype TaskKey = IdKey | TitleKey | DescriptionKey | StatusKey | DueDateKey | AssigneeKey

  /** A value a field can hold. */
  datatype Value = Text(text: string) | Person(person: Assignee)

  function Get(t: Task, key: TaskKey): Value {
    match key
    case IdKey => Text(t.id)
    case TitleKey => Text(t.title)
    case DescriptionKey => Text(t.description)
    case StatusKey => Text(t.status)
    case DueDateKey => Text(t.dueDate)
    case AssigneeKey => Person(t.assignee)
  }

  /** The assignee key takes a person, every other key a string. */
  predicate Fits(key: TaskKey, value: Value) {
    key.AssigneeKey? <==> value.Person?
  }

  /** `{...form, [key]: value}`: the named field takes the value and no other field changes. */
  function HandleChange(form: Task, key: TaskKey, value: Value): (r: Task)
    requires Fits(key, value)
    ensures Get(r, key) == value
    ensures forall k :: k != key ==> Get(r, k) == Get(form, k)
  {
    match key
    case IdKey => form.(id := value.text)
    case TitleKey => form.(title := value.text)
    case DescriptionKey => form.(description := value.text)
    case StatusKey => form.(status := value.text)
    case DueDateKey => form.(dueDate := value.text)
    case AssigneeKey => form.(assignee := value.person)
  }

  /** Writing back the value a field already holds leaves the form as it was. */
  lemma HandleChangeSameValue(form: Task, key: TaskKey)
    ensures Fits(key, Get(form, key))
    ensures HandleChange(form, key, Get(form, key)) == form
  {
  }

  /** A second change to the same field overrides the first. */
  lemma HandleChangeOverrides(form: Task, key: TaskKey, v: Value, w: Value)
    requires Fits(key, v) && Fits(key, w)
    ensures HandleChange(HandleChange(form, key, v), key, w) == HandleChange(form, key, w)
  {
  }

  /** Changes to two different fields do not interfere: either order gives the same form. */
  lemma HandleChangeCommutes(form: Task, k1: TaskKey, v1: Value, k2: TaskKey, v2: Value)
    requires k1 != k2 && Fits(k1, v1) && Fits(k2, v2)
    ensures HandleChange(HandleChange(form, k1, v1), k2, v2) == HandleChange(HandleChange(form, k2, v2), k1, v1)
  {
  }

  /* ---------------------------------------------------------------- */
  /* Assignee picker                                                  */
  /* ---------------------------------------------------------------- */

  function Photo(id: string): string {
    "https://images.unsplash.com/photo-" + id + "?w=300"
  }

  /** The people the picker offers. */
  const AssigneeOptions: seq<Assignee> := [
    Assignee("Alice", Photo("1534528741775-53994a69daeb")),
    Assignee("John", Photo("1539571696357-5a69c17a67c6")),
    Assignee("Sarah", Photo("1494790108377-be9c29b29330")),
    Assignee("Mike", Photo("1507003211169-0a1dd7228f2d")),
    Assignee("Emma", Photo("1438761681033-6461ffad8d80")),
    Assignee("David", Photo("1472099645785-5658abf4ff4e")),
    Assignee("Lisa", Photo("1544005313-94ddf0286df2")),
    Assignee("Alex", Photo("1500648767791-00dcc994a43e")),
    Assignee("Rachel", Photo("1531123897727-8f129e1688ce")),
    Assignee("Tom", Photo("1506794778202-cad84cf45f1d")),
    Assignee("Sophie", Photo("1517841905240-472988babdf9")),
    Assignee("Chris", Photo("1506794778202-cad84cf45f1d")),
    Assignee("Maria", Photo("1494790108377-be9c29b29330")),
    Assignee("James", Photo("1472099645785-5658abf4ff4e")),
    Assignee("Anna", Photo("1534528741775-53994a69daeb")),
    Assignee("Daniel", Photo("1507003211169-0a1dd7228f2d")),
    Assignee("Nina", Photo("1438761681033-6461ffad8d80")),
    Assignee("Kevin", Photo("1500648767791-00dcc994a43e")),
    Assignee("Laura", Photo("1544005313-94ddf0286df2")),
    Assignee("Ryan", Photo("1472099645785-5658abf4ff4e")),
    Assignee("Grace", Photo("1531123897727-8f129e1688ce")),
    Assignee("Oliver", Photo("1506794778202-cad84cf45f1d")),
    Assignee("Zoe", Photo("1517841905240-472988babdf9"))
  ]

  /** The assignee a picked name stands for: the first option with that name,
      or else a person with that name and no picture. */
  function ResolveAssignee(options: seq<Assignee>, name: string): (r: Assignee)
    ensures r.name == name
    ensures (exists i :: 0 <= i < |options| && options[i].name == name) ==> r in options
    ensures (forall i :: 0 <= i < |options| ==> options[i].name != name) ==> r == Assignee(name, "")
  {
    match Find(options, (a: Assignee) => a.name == name)
    case Some(a) => a
    case None => Assignee(name, "")
  }

  /** Picking a name from `options` replaces the assignee and nothing else. */
  function PickAssignee(options: seq<Assignee>, form: Task, name: string): (r: Task)
    ensures r.assignee == ResolveAssignee(options, name)
    ensures forall k :: k != AssigneeKey ==> Get(r, k) == Get(form, k)
  {
    form.(assignee := ResolveAssignee(options, name))
  }

  /** This dialog's picker: the chosen person always carries the picked name,
      and is one of the options whenever one has that name. */
  function HandleAssigneeChange(form: Task, name: string): (r: Task)
    ensures r.assignee.name == name
    ensures (exists i :: 0 <= i < |AssigneeOptions| && AssigneeOptions[i].name == name) ==> r.assignee in AssigneeOptions
    ensures (forall i :: 0 <= i < |AssigneeOptions| ==> AssigneeOptions[i].name != name) ==> r.assignee.avatar == ""
    ensures forall k :: k != AssigneeKey ==> Get(r, k) == Get(form, k)
  {
    PickAssignee(AssigneeOptions, form, name)
  }

  /** The names of `options` are pairwise different. */
  predicate DistinctNames(options: seq<Assignee>) {
    forall j, k :: 0 <= j < k < |options| ==> options[j].name != options[k].name
  }

  /** When no two options share a name, every offered name resolves to its own
      option, picture included. */
  lemma OfferedNamesResolve(options: seq<Assignee>, i: nat)
    requires DistinctNames(options) && i < |options|
    ensures ResolveAssignee(options, options[i].name) == options[i]
  {
    var r := ResolveAssignee(options, options[i].name);
    var j :| 0 <= j < |options| && options[j] == r;
  }

  /** The names at positions [lo1, hi1) differ from those at [lo2, hi2). */
  ghost predicate NamesDifferIn(lo1: nat, hi1: nat, lo2: nat, hi2: nat) {
    forall j, k :: lo1 <= j < hi1 && lo2 <= k < hi2 && j < k < |AssigneeOptions| ==>
      AssigneeOptions[j].name != AssigneeOptions[k].name
  }

  lemma NamesDifferFirst()
    ensures NamesDifferIn(0, 12, 0, 8)
  {
  }

  lemma NamesDifferSecond()
    ensures NamesDifferIn(0, 12, 8, 12)
  {
  }

  lemma NamesDifferThird()
    ensures NamesDifferIn(12, 23, 12, 23)
  {
  }

  lemma NamesDifferFourth()
    ensures NamesDifferIn(0, 12, 12, 15)
  {
  }

  lemma NamesDifferFifth()
    ensures NamesDifferIn(0, 12, 15, 18)
  {
  }

  lemma NamesDifferSixth()
    ensures NamesDifferIn(0, 12, 18, 23)
  {
  }

  /** The picker of this dialog offers no name twice. */
  lemma AssigneeOptionsDistinct()
    ensures DistinctNames(AssigneeOptions)
  {
    NamesDifferFirst();
    NamesDifferSecond();
    NamesDifferThird();
    NamesDifferFourth();
    NamesDifferFifth();
    NamesDifferSixth();
  }

  /* ---------------------------------------------------------------- */
  /* Form state                                                       */
  /* ---------------------------------------------------------------- */

  /** What a new task starts as: empty fields, status Pending, nobody assigned. */
  const BlankForm := Task("", "", "", Code(Pending), "", Assignee("", ""))

  /** The effect run when the dialog's task or mode changes: show the task when
      there is one, a blank form when creating, and otherwise keep the form. */
  function ResetForm(task: Option<Task>, mode: Mode, form: Task): (r: Task)
    ensures task.Some? ==> r == task.value
    ensures task.None? && mode.CreateMode? ==> r == BlankForm
    ensures task.None? && !mode.CreateMode? ==> r == form
  {
    if task.Some? then task.value
    else if mode.CreateMode? then BlankForm
    else form
  }

  /** A blank form fails on title, description, due date and, when creating or
      editing, the assignee; its status is already set. */
  lemma BlankFormErrors(mode: Mode)
    ensures forall f :: f in Validate(BlankForm, mode) <==>
      !f.StatusField? && (!f.AssigneeField? || !mode.ViewMode?)
  {
    var v := Validate(BlankForm, mode);
    assert AllWhitespace("");
    assert BlankForm.status != "";
    forall f ensures f in v <==> !f.StatusField? && (!f.AssigneeField? || !mode.ViewMode?) {
      match f
      case TitleField => assert TitleField in v;
      case DescriptionField => assert DescriptionField in v;
      case DueDateField => assert DueDateField in v;
      case StatusField => assert StatusField !in v;
      case AssigneeField =>
    }
  }

  datatype DialogState = DialogState(form: Task, validation: Errors)

  datatype SaveResult = SaveResult(state: DialogState, saved: Option<Task>)

  /** Saving: validate, show the messages, and hand the form to the save
      callback only when nothing failed and there is a callback. */
  function HandleSave(st: DialogState, mode: Mode, hasOnSave: bool): (r: SaveResult)
    ensures r.state.form == st.form
    ensures r.state.validation == Validate(st.form, mode)
    ensures r.saved.Some? <==> hasOnSave && Passes(r.state.validation)
    ensures r.saved.Some? ==> r.saved.value == st.form
  {
    var v := Validate(st.form, mode);
    SaveResult(st.(validation := v), if Passes(v) && hasOnSave then Some(st.form) else None)
  }
}
