/**
 * The commit dialog (modal.go): shown when the user picks a branch while the
 * working tree is dirty. It lists the changed files, lets the user expand
 * them, type a subject and a description, and then choose to commit, stash
 * or cancel; the choice is latched in `action` for the main screen to carry
 * out.
 *
 * The two text widgets are represented by their text and whether they have
 * the keyboard focus; how a widget edits its text on a key is the `Editor`
 * parameter.
 */
module CommitDialog {
  import opened Results
  import opened Text
  import opened Vcs
  import opened WorkTree

  /** The user's choice (modal.go ModalAction). */
  datatype Action = NoAction | CommitAction | StashAction | CancelAction

  /** The focus positions, in tab order (modal.go ModalFocus). */
  const StatusFocus: int := 0
  const SubjectFocus: int := 1
  const DescriptionFocus: int := 2
  const FocusCount: int := 3

  /** The keys the dialog binds, as the terminal names them (modal.go:52-87, 248). */
  const KeyTab: string := "tab"
  const KeyShiftTab: string := "shift+tab"
  const KeyCommit: string := "ctrl+s"
  const KeyStash: string := "ctrl+t"
  const KeyCancel: string := "esc"
  const KeyUp: string := "up"
  const KeyDown: string := "down"
  const KeySpace: string := " "
  const KeyEnter: string := "enter"

  /** How a focused text widget changes its text on a key it is given. */
  type Editor = (string, string) -> string

  datatype Dialog = Dialog(
    visible: bool,
    subject: string,
    description: string,
    subjectFocused: bool,
    descriptionFocused: bool,
    focus: int,
    action: Action,
    target: string,
    files: seq<FileStatus>,
    expanded: map<string, bool>,
    selected: int)

  /** A missing entry of the expansion table reads as not expanded. */
  function Expanded(d: Dialog, path: string): bool {
    path in d.expanded && d.expanded[path]
  }

  /** The text widgets' focus agrees with the focus position. */
  predicate WidgetsFollowFocus(d: Dialog) {
    d.subjectFocused == (d.focus == SubjectFocus) && d.descriptionFocused == (d.focus == DescriptionFocus)
  }

  /**
   * What holds of the dialog between key presses: the focus is one of the
   * three positions, the selection is a listed file (or 0 when none is
   * listed), and while it is shown the widgets follow the focus.
   */
  predicate Valid(d: Dialog) {
    && 0 <= d.focus < FocusCount
    && 0 <= d.selected
    && (d.selected < |d.files| || d.selected == 0)
    && (d.visible ==> WidgetsFollowFocus(d))
  }

  /**
   * NewCommitModal (modal.go:135-155): hidden, focus on the file list. The
   * subject widget starts focused although the focus position is the file
   * list; `Show` blurs it before the dialog is ever seen.
   */
  function NewDialog(): (d: Dialog)
    ensures !d.visible && d.action == NoAction && Valid(d)
    ensures !WidgetsFollowFocus(d)
  {
    Dialog(false, "", "", true, false, StatusFocus, NoAction, "", [], map[], 0)
  }

  /**
   * Show (modal.go:157-177): opens the dialog for `target` with empty texts,
   * the focus on the file list, nothing expanded, the first file selected;
   * the files are the working-tree status, or none when it cannot be read.
   */
  function Show(d: Dialog, target: string, run: Runner): (r: Dialog)
    ensures r.visible && r.target == target && r.action == NoAction
    ensures r.subject == "" && r.description == ""
    ensures r.focus == StatusFocus && !r.subjectFocused && !r.descriptionFocused
    ensures GetGitStatus(run).Ok? ==> r.files == GetGitStatus(run).value
    ensures GetGitStatus(run).Err? ==> r.files == []
    ensures forall p :: !Expanded(r, p)
    ensures r.selected == 0
    ensures Valid(r)
  {
    var files := match GetGitStatus(run) case Ok(fs) => fs case Err(_) => [];
    Dialog(true, "", "", false, false, StatusFocus, NoAction, target, files, map[], 0)
  }

  /** Hide (modal.go:179-184): closes the dialog, forgets the choice, blurs both widgets. */
  function Hide(d: Dialog): (r: Dialog)
    ensures !r.visible && r.action == NoAction && !r.subjectFocused && !r.descriptionFocused
    ensures r.subject == d.subject && r.description == d.description && r.target == d.target
    ensures r.files == d.files && r.expanded == d.expanded && r.selected == d.selected && r.focus == d.focus
    ensures Valid(d) ==> Valid(r)
  {
    d.(visible := false, action := NoAction, subjectFocused := false, descriptionFocused := false)
  }

  /** updateFieldFocus (modal.go:292-304): focuses the widget of the focus position, blurs the other. */
  function UpdateFieldFocus(d: Dialog): (r: Dialog)
    ensures WidgetsFollowFocus(r)
    ensures r.(subjectFocused := d.subjectFocused, descriptionFocused := d.descriptionFocused) == d
  {
    d.(subjectFocused := d.focus == SubjectFocus, descriptionFocused := d.focus == DescriptionFocus)
  }

  /** nextField (modal.go:278-281): the next position in tab order, after the last the first. */
  function NextField(d: Dialog): (r: Dialog)
    requires 0 <= d.focus < FocusCount
    ensures 0 <= r.focus < FocusCount && WidgetsFollowFocus(r)
    ensures r.focus == if d.focus == FocusCount - 1 then 0 else d.focus + 1
  {
    UpdateFieldFocus(d.(focus := (d.focus + 1) % FocusCount))
  }

  /** prevField (modal.go:283-290): the previous position in tab order, before the first the last. */
  function PrevField(d: Dialog): (r: Dialog)
    requires 0 <= d.focus < FocusCount
    ensures 0 <= r.focus < FocusCount && WidgetsFollowFocus(r)
    ensures r.focus == if d.focus == 0 then FocusCount - 1 else d.focus - 1
  {
    var i := d.focus - 1;
    UpdateFieldFocus(d.(focus := if i < 0 then DescriptionFocus else i))
  }

  /** The selected file's expansion flipped (modal.go:255-260), when the file list has the focus. */
  function Toggle(d: Dialog): (r: Dialog)
    ensures r.(expanded := d.expanded) == d
    ensures d.focus == StatusFocus && 0 <= d.selected < |d.files| ==>
      && Expanded(r, d.files[d.selected].path) == !Expanded(d, d.files[d.selected].path)
      && forall p :: p != d.files[d.selected].path ==> Expanded(r, p) == Expanded(d, p)
    ensures !(d.focus == StatusFocus && 0 <= d.selected < |d.files|) ==> r == d
  {
    if d.focus == StatusFocus && |d.files| > 0 && 0 <= d.selected < |d.files| then
      var path := d.files[d.selected].path;
      d.(expanded := d.expanded[path := !Expanded(d, path)])
    else d
  }

  /** The up key (modal.go:233-242): previous file in the list, or from the description to the subject. */
  function Up(d: Dialog): (r: Dialog)
    ensures Valid(d) ==> Valid(r)
    ensures r.(selected := d.selected, focus := d.focus, subjectFocused := d.subjectFocused,
               descriptionFocused := d.descriptionFocused) == d
    ensures r.selected <= d.selected && r.focus <= d.focus
    ensures d.focus == StatusFocus && 0 < d.selected && |d.files| > 0 ==> r.selected == d.selected - 1
    ensures d.focus == StatusFocus ==>
      r.focus == d.focus && r.subjectFocused == d.subjectFocused && r.descriptionFocused == d.descriptionFocused
    ensures d.focus != StatusFocus ==> r.selected == d.selected
    ensures d.focus == DescriptionFocus ==> r.focus == SubjectFocus && r.subjectFocused && !r.descriptionFocused
    ensures d.focus == SubjectFocus ==> r == d
  {
    if d.focus == StatusFocus then
      if |d.files| > 0 && d.selected > 0 then d.(selected := d.selected - 1) else d
    else if d.focus == DescriptionFocus then
      d.(focus := SubjectFocus, subjectFocused := true, descriptionFocused := false)
    else d
  }

  /** The down key (modal.go:244-253): next file in the list, or from the subject to the description. */
  function Down(d: Dialog): (r: Dialog)
    ensures Valid(d) ==> Valid(r)
    ensures r.(selected := d.selected, focus := d.focus, subjectFocused := d.subjectFocused,
               descriptionFocused := d.descriptionFocused) == d
    ensures r.selected >= d.selected && r.focus >= d.focus
    ensures d.focus == StatusFocus && 0 <= d.selected < |d.files| - 1 ==> r.selected == d.selected + 1
    ensures d.focus == StatusFocus ==>
      r.focus == d.focus && r.subjectFocused == d.subjectFocused && r.descriptionFocused == d.descriptionFocused
    ensures d.focus != StatusFocus ==> r.selected == d.selected
    ensures d.focus == SubjectFocus ==> r.focus == DescriptionFocus && !r.subjectFocused && r.descriptionFocused
    ensures d.focus == DescriptionFocus ==> r == d
  {
    if d.focus == StatusFocus then
      if |d.files| > 0 && d.selected < |d.files| - 1 then d.(selected := d.selected + 1) else d
    else if d.focus == SubjectFocus then
      d.(focus := DescriptionFocus, subjectFocused := false, descriptionFocused := true)
    else d
  }

  /** Any other key goes to the focused text widget (modal.go:262-271); the file list ignores it. */
  function Type(d: Dialog, key: string, edit: Editor): (r: Dialog)
    ensures r.(subject := d.subject, description := d.description) == d
    ensures d.focus != SubjectFocus ==> r.subject == d.subject
    ensures d.focus != DescriptionFocus ==> r.description == d.description
  {
    if d.focus == SubjectFocus then d.(subject := edit(d.subject, key))
    else if d.focus == DescriptionFocus then d.(description := edit(d.description, key))
    else d
  }

  /**
   * Update (modal.go:202-276): the dialog's reaction to a key. A hidden
   * dialog ignores every key. Escape and ctrl+t latch cancel and stash;
   * ctrl+s latches commit only when the subject is not blank and otherwise
   * does nothing. Tab and shift+tab move the focus, the arrows move the
   * selection or between the two text fields, space and enter flip the
   * selected file's expansion, and any other key goes to the focused text
   * field.
   */
  function Update(d: Dialog, key: string, edit: Editor): (r: Dialog)
    requires Valid(d)
    ensures Valid(r)
    ensures !d.visible ==> r == d
    ensures r.visible == d.visible && r.target == d.target && r.files == d.files
    ensures r.action != d.action ==> key in {KeyCancel, KeyCommit, KeyStash}
    ensures d.visible && key == KeyCancel ==> r.action == CancelAction
    ensures d.visible && key == KeyStash ==> r.action == StashAction
    ensures r.action == CommitAction && d.action != CommitAction ==> !AllSpace(d.subject)
    ensures key in {KeySpace, KeyEnter} ==> r.subject == d.subject && r.description == d.description
  {
    if !d.visible then d
    else if key == KeyCancel then d.(action := CancelAction)
    else if key == KeyCommit then
      if TrimSpace(d.subject) != "" then d.(action := CommitAction) else d
    else if key == KeyStash then d.(action := StashAction)
    else if key == KeyTab then NextField(d)
    else if key == KeyShiftTab then PrevField(d)
    else if key == KeyUp then Up(d)
    else if key == KeyDown then Down(d)
    else if key == KeySpace || key == KeyEnter then Toggle(d)
    else Type(d, key, edit)
  }

  // --------------------------------------------------------------- lemmas

  /** Tab then shift+tab, or shift+tab then tab, leaves a shown dialog as it was. */
  lemma TabBackAndForth(d: Dialog, edit: Editor)
    requires Valid(d) && d.visible
    ensures Update(Update(d, KeyTab, edit), KeyShiftTab, edit) == d
    ensures Update(Update(d, KeyShiftTab, edit), KeyTab, edit) == d
  {
  }

  /** Three tabs visit every position and come back. */
  lemma TabCycle(d: Dialog, edit: Editor)
    requires Valid(d) && d.visible
    ensures var once := Update(d, KeyTab, edit); var twice := Update(once, KeyTab, edit);
      && {d.focus, once.focus, twice.focus} == {StatusFocus, SubjectFocus, DescriptionFocus}
      && Update(twice, KeyTab, edit) == d
  {
  }

  /** ctrl+s commits exactly when the subject is not blank. */
  lemma CommitNeedsSubject(d: Dialog, edit: Editor)
    requires Valid(d) && d.visible && d.action == NoAction
    ensures Update(d, KeyCommit, edit).action == CommitAction <==> !AllSpace(d.subject)
    ensures AllSpace(d.subject) ==> Update(d, KeyCommit, edit) == d
  {
  }

  /** Flipping the selected file twice (with space or enter) leaves every file's expansion as it was. */
  lemma ToggleTwice(d: Dialog, k1: string, k2: string, edit: Editor)
    requires Valid(d) && k1 in {KeySpace, KeyEnter} && k2 in {KeySpace, KeyEnter}
    ensures var r := Update(Update(d, k1, edit), k2, edit);
      && r.(expanded := d.expanded) == d
      && forall p :: Expanded(r, p) == Expanded(d, p)
  {
  }

  /**
   * The space and enter keys never edit the text fields: both are taken by
   * the expansion toggle, whichever part of the dialog has the focus.
   */
  lemma TextFieldsGetNoBlank(d: Dialog, key: string, edit: Editor)
    requires Valid(d) && key in {KeySpace, KeyEnter}
    ensures Update(d, key, edit).subject == d.subject
    ensures Update(d, key, edit).description == d.description
  {
  }

  /** Down then up returns to the same file, when there is a next one. */
  lemma DownUp(d: Dialog, edit: Editor)
    requires Valid(d) && d.visible && d.focus == StatusFocus && d.selected < |d.files| - 1
    ensures Update(Update(d, KeyDown, edit), KeyUp, edit) == d
  {
  }

  /**
   * The dialog after a sequence of keys: whatever the keys, the focus stays
   * one of the three positions, the selection stays in the list and the
   * widgets follow the focus.
   */
  function Keys(d: Dialog, keys: seq<string>, edit: Editor): (r: Dialog)
    requires Valid(d)
    ensures Valid(r)
    decreases |keys|
  {
    if |keys| == 0 then d else Keys(Update(d, keys[0], edit), keys[1..], edit)
  }
}
