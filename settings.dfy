/** app/settings/page.tsx: the trash countdown, the password form guards, the priority badge and
    the page's handlers over its local state. Server calls are given as their outcome. */
module Settings {
  import opened Wrappers
  import opened Time
  import opened Seqs

  /** A task as the trash listing returns it; `deletedAt` and `createdAt` are milliseconds. */
  datatype TrashTask = TrashTask(
    id: string, title: string, description: string, priority: string, color: string,
    deletedAt: int, createdAt: int)

  /** The retention period of the trash, 30 days. */
  const RetentionMs: int := 30 * MsPerDay

  /** `getDaysUntilPermanentDeletion`: the whole days left of the 30, rounded up, never negative. */
  function DaysUntilPermanentDeletion(deletedAt: int, now: int): (d: int)
    ensures d >= 0
  {
    var daysDiff := CeilDiv(RetentionMs - (now - deletedAt), MsPerDay);
    if daysDiff < 0 then 0 else daysDiff
  }

  /** The countdown against the elapsed time: 30 at the moment of deletion, 0 exactly once the
      full 30 days have passed, and `d` days left whenever the remaining time is in `((d-1) days, d days]`. */
  lemma {:induction false} DaysLeftByElapsed(deletedAt: int, now: int)
    ensures now == deletedAt ==> DaysUntilPermanentDeletion(deletedAt, now) == 30
    ensures DaysUntilPermanentDeletion(deletedAt, now) == 0 <==> now - deletedAt >= RetentionMs
    ensures var d, left := DaysUntilPermanentDeletion(deletedAt, now), RetentionMs - (now - deletedAt);
      d > 0 ==> (d - 1) * MsPerDay < left <= d * MsPerDay
  {
    var left := RetentionMs - (now - deletedAt);
    var c := CeilDiv(left, MsPerDay);
    if now == deletedAt {
      CeilDivUnique(left, MsPerDay, 30);
    }
    if left <= 0 {
      assert (c - 1) * MsPerDay < 0;
      assert c <= 0;
    } else {
      assert c > 0;
    }
  }

  /** The countdown never goes up as time passes. */
  lemma {:induction false} DaysLeftMonotone(deletedAt: int, now1: int, now2: int)
    requires now1 <= now2
    ensures DaysUntilPermanentDeletion(deletedAt, now2) <= DaysUntilPermanentDeletion(deletedAt, now1)
  {
    var a1, a2 := RetentionMs - (now1 - deletedAt), RetentionMs - (now2 - deletedAt);
    var c1, c2 := CeilDiv(a1, MsPerDay), CeilDiv(a2, MsPerDay);
    if c2 > c1 {
      MulMonotone(c1, c2 - 1, MsPerDay);
      assert false;
    }
  }

  /** The "days left" warning badge. */
  predicate ShowsDeletionWarning(daysLeft: int)
  {
    daysLeft <= 7
  }

  /** The warning shows exactly once 23 days or more have passed since the deletion. */
  lemma {:induction false} WarningAfter23Days(deletedAt: int, now: int)
    ensures ShowsDeletionWarning(DaysUntilPermanentDeletion(deletedAt, now)) <==> now - deletedAt >= 23 * MsPerDay
  {
    var left := RetentionMs - (now - deletedAt);
    var c := CeilDiv(left, MsPerDay);
    if c <= 7 {
      MulMonotone(c, 7, MsPerDay);
    } else {
      MulMonotone(8, c, MsPerDay);
    }
  }

  /** The password form's fields. */
  datatype PasswordData = PasswordData(currentPassword: string, newPassword: string, confirmPassword: string)

  const EmptyPasswordData: PasswordData := PasswordData("", "", "")

  datatype PasswordFormCheck = NewPasswordsDoNotMatch | NewPasswordTooShort | SendRequest

  /** The guards of `handlePasswordChange`, mismatch first, then the 6-character minimum. */
  function CheckPasswordForm(pd: PasswordData): (c: PasswordFormCheck)
    ensures c == NewPasswordsDoNotMatch <==> pd.newPassword != pd.confirmPassword
    ensures c == NewPasswordTooShort <==> pd.newPassword == pd.confirmPassword && |pd.newPassword| < 6
    ensures c == SendRequest <==> pd.newPassword == pd.confirmPassword && |pd.newPassword| >= 6
  {
    if pd.newPassword != pd.confirmPassword then NewPasswordsDoNotMatch
    else if |pd.newPassword| < 6 then NewPasswordTooShort
    else SendRequest
  }

  /** `getPriorityColor`. */
  function PriorityColor(priority: string): (c: string)
  {
    match priority
    case "high" => "bg-red-100 text-red-800 dark:bg-red-900 dark:text-red-300"
    case "medium" => "bg-yellow-100 text-yellow-800 dark:bg-yellow-900 dark:text-yellow-300"
    case "low" => "bg-green-100 text-green-800 dark:bg-green-900 dark:text-green-300"
    case _ => "bg-gray-100 text-gray-800 dark:bg-gray-900 dark:text-gray-300"
  }

  /** Every value other than the three priorities gets the gray badge. */
  lemma PriorityColorFallback(p: string)
    ensures p != "high" && p != "medium" && p != "low" ==> PriorityColor(p) == PriorityColor("other")
  {
  }

  /** The three priorities get badges different from each other and from every other value. */
  lemma PriorityColorsDistinct(p: string, q: string)
    ensures (p == "high" || p == "medium" || p == "low") && p != q ==> PriorityColor(p) != PriorityColor(q)
  {
  }

  function IdIsNot(id: string): TrashTask -> bool
  {
    (t: TrashTask) => t.id != id
  }

  /** The list update of a successful restore or permanent delete. */
  function WithoutTrashTask(trash: seq<TrashTask>, id: string): (r: seq<TrashTask>)
  {
    Filter(trash, IdIsNot(id))
  }

  /** Exactly the tasks with that id leave the list; the others stay in their order, and doing it
      again changes nothing. */
  lemma WithoutTrashTaskExact(trash: seq<TrashTask>, id: string, t: TrashTask)
    ensures t in WithoutTrashTask(trash, id) <==> t in trash && t.id != id
    ensures IsSubsequence(WithoutTrashTask(trash, id), trash)
    ensures WithoutTrashTask(WithoutTrashTask(trash, id), id) == WithoutTrashTask(trash, id)
  {
    FilterIsSubsequence(trash, IdIsNot(id));
    FilterAll(WithoutTrashTask(trash, id), IdIsNot(id));
  }

  /** How a call to the server ended: an ok response, a non-ok response, or a thrown error. */
  datatype Outcome = RespondedOk | RespondedNotOk | Threw

  class SettingsPage {
    var userTheme: string
    var isLoading: bool
    var trashDialogOpen: bool
    var trashTasks: seq<TrashTask>
    var passwordData: PasswordData

    constructor ()
      ensures userTheme == "system" && !isLoading && !trashDialogOpen
      ensures trashTasks == [] && passwordData == EmptyPasswordData
    {
      userTheme, isLoading, trashDialogOpen := "system", false, false;
      trashTasks, passwordData := [], EmptyPasswordData;
    }

    /** `loadData`: `theme` is the stored theme of an ok theme response ("" when none), `trash`
        the body of an ok trash response; `None` stands for a failed or thrown request. */
    method LoadData(theme: Option<string>, trash: Option<seq<TrashTask>>)
      modifies this`userTheme, this`trashTasks
      ensures userTheme == (if theme.None? then old(userTheme) else if theme.value == "" then "system" else theme.value)
      ensures trashTasks == (if trash.None? then old(trashTasks) else trash.value)
    {
      if theme.Some? {
        userTheme := if theme.value == "" then "system" else theme.value;
      }
      if trash.Some? {
        trashTasks := trash.value;
      }
    }

    /** `handleThemeChange`: the theme is adopted only on an ok response; the page theme to apply is
        returned; loading is cleared on every path. */
    method HandleThemeChange(newTheme: string, outcome: Outcome) returns (applied: Option<string>)
      modifies this`userTheme, this`isLoading
      ensures outcome == RespondedOk ==> userTheme == newTheme && applied == Some(newTheme)
      ensures outcome != RespondedOk ==> userTheme == old(userTheme) && applied == None
      ensures !isLoading
    {
      isLoading := true;
      applied := None;
      if outcome == RespondedOk {
        userTheme := newTheme;
        applied := Some(newTheme);
      }
      isLoading := false;
    }

    /** `handlePasswordChange`: a form that fails a guard sends nothing and changes nothing; a sent
        request carries the current and new password, and an ok response clears the form. */
    method HandlePasswordChange(outcome: Outcome) returns (request: Option<(string, string)>)
      modifies this`passwordData, this`isLoading
      ensures CheckPasswordForm(old(passwordData)) != SendRequest ==>
        request == None && passwordData == old(passwordData) && isLoading == old(isLoading)
      ensures CheckPasswordForm(old(passwordData)) == SendRequest ==>
        && request == Some((old(passwordData).currentPassword, old(passwordData).newPassword))
        && passwordData == (if outcome == RespondedOk then EmptyPasswordData else old(passwordData))
        && !isLoading
    {
      if passwordData.newPassword != passwordData.confirmPassword {
        return None;
      }
      if |passwordData.newPassword| < 6 {
        return None;
      }
      isLoading := true;
      request := Some((passwordData.currentPassword, passwordData.newPassword));
      if outcome == RespondedOk {
        passwordData := EmptyPasswordData;
      }
      isLoading := false;
    }

    /** `handleEmptyTrash`: an ok response empties the list; loading is cleared and the dialog closed
        on every path. */
    method HandleEmptyTrash(outcome: Outcome)
      modifies this`trashTasks, this`isLoading, this`trashDialogOpen
      ensures trashTasks == (if outcome == RespondedOk then [] else old(trashTasks))
      ensures !isLoading && !trashDialogOpen
    {
      isLoading := true;
      if outcome == RespondedOk {
        trashTasks := [];
      }
      isLoading := false;
      trashDialogOpen := false;
    }

    /** `handleRestore`: an ok response replaces the list by `captured` without the task, where
        `captured` is the list of the render whose dialog was clicked (the handler filters the
        `trashTasks` it closed over, not the current state); anything else keeps the list. With no
        other request in flight, `captured` is the current list. */
    method HandleRestore(task: TrashTask, captured: seq<TrashTask>, outcome: Outcome)
      modifies this`trashTasks
      ensures trashTasks == (if outcome == RespondedOk then WithoutTrashTask(captured, task.id) else old(trashTasks))
    {
      if outcome == RespondedOk {
        trashTasks := WithoutTrashTask(captured, task.id);
      }
    }

    /** `handlePermanentDelete`: the same list update as a restore, over the same render-captured
        list, for the other server action. */
    method HandlePermanentDelete(task: TrashTask, captured: seq<TrashTask>, outcome: Outcome)
      modifies this`trashTasks
      ensures trashTasks == (if outcome == RespondedOk then WithoutTrashTask(captured, task.id) else old(trashTasks))
    {
      if outcome == RespondedOk {
        trashTasks := WithoutTrashTask(captured, task.id);
      }
    }
  }

  /** Two restores whose dialogs were both opened while the list was `[a, b]`, answered ok one
      after the other: the second response writes back `[a, b]` without `b`, so `a` reappears
      although it was restored. */
  method OverlappingRestoresAsWritten(a: TrashTask, b: TrashTask) returns (final: seq<TrashTask>)
    requires a.id != b.id
    ensures final == [a]
  {
    var page := new SettingsPage();
    page.LoadData(None, Some([a, b]));
    var captured := page.trashTasks;
    assert captured == [a, b] && captured[1..] == [b] && captured[1..][1..] == [];
    page.HandleRestore(a, captured, RespondedOk);
    assert WithoutTrashTask([b], a.id) == [b] + WithoutTrashTask([], a.id);
    assert page.trashTasks == [b];
    page.HandleRestore(b, captured, RespondedOk);
    assert WithoutTrashTask([b], b.id) == WithoutTrashTask([], b.id);
    final := page.trashTasks;
  }

  /** The update the handlers evidently intend, `prev => prev.filter(...)`: removals applied to the
      current list lose nothing, whichever response arrives first. */
  lemma {:induction false} RemovalsFromCurrentCompose(trash: seq<TrashTask>, x: string, y: string)
    ensures WithoutTrashTask(WithoutTrashTask(trash, x), y) == WithoutTrashTask(WithoutTrashTask(trash, y), x)
    ensures forall t :: t in WithoutTrashTask(WithoutTrashTask(trash, x), y) <==> t in trash && t.id != x && t.id != y
  {
    if trash != [] {
      RemovalsFromCurrentCompose(trash[1..], x, y);
    }
  }
}
