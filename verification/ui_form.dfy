/** The second copy of the task dialog (src/ui/components/tasks/TaskModal.tsx).
    It validates and saves exactly as src/components/tasks/TaskModal.tsx does,
    offers a shorter assignee list, and records whether the user has edited
    anything. */
module UiTaskForm {
  import opened Optional
  import opened Tasks
  import opened Strings
  import opened TaskForm

  /** The four people this copy offers. */
  const UiAssigneeOptions: seq<Assignee> := [
    Assignee("Alice", Photo("1534528741775-53994a69daeb")),
    Assignee("John", Photo("1539571696357-5a69c17a67c6")),
    Assignee("Sarah", Photo("1494790108377-be9c29b29330")),
    Assignee("Mike", Photo("1507003211169-0a1dd7228f2d"))
  ]

  /** The short list is the first four entries of the long one. */
  lemma UiOptionsArePrefix()
    ensures UiAssigneeOptions == AssigneeOptions[..4]
  {
  }

  datatype UiDialogState = UiDialogState(form: Task, touched: bool, validation: Errors)

  /** The state the dialog mounts with: the given task, or a blank form. */
  function InitialState(task: Option<Task>): (r: UiDialogState)
    ensures !r.touched && r.validation == map[]
    ensures r.form == task.GetOr(BlankForm)
  {
    UiDialogState(task.GetOr(BlankForm), false, map[])
  }

  /** Editing a field changes that field only and marks the form touched. */
  function HandleUiChange(st: UiDialogState, key: TaskKey, value: Value): (r: UiDialogState)
    requires Fits(key, value)
    ensures r.touched && r.validation == st.validation
    ensures Get(r.form, key) == value
    ensures forall k :: k != key ==> Get(r.form, k) == Get(st.form, k)
  {
    UiDialogState(HandleChange(st.form, key, value), true, st.validation)
  }

  /** Picking a name resolves it against the four-person list, falling back to
      a person with no picture, changes nothing else and marks the form touched. */
  function HandleUiAssigneeChange(st: UiDialogState, name: string): (r: UiDialogState)
    ensures r.touched && r.validation == st.validation
    ensures r.form.assignee.name == name
    ensures (exists i :: 0 <= i < |UiAssigneeOptions| && UiAssigneeOptions[i].name == name) ==>
      r.form.assignee in UiAssigneeOptions
    ensures (forall i :: 0 <= i < |UiAssigneeOptions| ==> UiAssigneeOptions[i].name != name) ==>
      r.form.assignee == Assignee(name, "")
    ensures forall k :: k != AssigneeKey ==> Get(r.form, k) == Get(st.form, k)
  {
    UiDialogState(PickAssignee(UiAssigneeOptions, st.form, name), true, st.validation)
  }

  /** The reset effect replaces the form as the other copy does and leaves the
      touched flag and the messages alone. */
  function ResetUiForm(st: UiDialogState, task: Option<Task>, mode: Mode): (r: UiDialogState)
    ensures r.touched == st.touched && r.validation == st.validation
    ensures task.Some? ==> r.form == task.value
    ensures task.None? && mode.CreateMode? ==> r.form == BlankForm
    ensures task.None? && !mode.CreateMode? ==> r.form == st.form
  {
    st.(form := ResetForm(task, mode, st.form))
  }

  /** Saving: the same five checks; the callback gets the form only when all pass. */
  function HandleUiSave(st: UiDialogState, mode: Mode, hasOnSave: bool): (r: (UiDialogState, Option<Task>))
    ensures r.0.form == st.form && r.0.touched == st.touched
    ensures r.0.validation == Validate(st.form, mode)
    ensures r.1.Some? <==> hasOnSave && Passes(r.0.validation)
    ensures r.1.Some? ==> r.1.value == st.form
  {
    var saved := HandleSave(DialogState(st.form, st.validation), mode, hasOnSave);
    (st.(validation := saved.state.validation), saved.saved)
  }
}
