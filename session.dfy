/**
  The session manager of the backup bot (backup.py:37-107): whether a saved
  session file is reused, discarded before a fresh login, or whether the run
  stops. The file system and the operator are inputs: `present` is whether
  `telegram_backup_session.session` exists, `choice` the operator's stripped
  answer, and `removeSucceeds` whether `os.remove` would succeed.
*/
module Session {

  /** The three answers of check_existing_session. */
  datatype SessionAction = UseExisting | CreateNew | Exit

  /** What safe_remove_session returns, and whether the session file is still there after it. */
  datatype Removal = Removal(ok: bool, present: bool)

  /** safe_remove_session: removing a file that is absent counts as success; a failed removal is reported, not raised. */
  function SafeRemoveSession(present: bool, removeSucceeds: bool): (r: Removal)
    ensures r.ok <==> !r.present
    ensures r.present ==> present
    ensures !present ==> r.ok
    ensures present ==> (r.ok <==> removeSucceeds)
  {
    if !present then Removal(true, false)
    else if removeSucceeds then Removal(true, false)
    else Removal(false, true)
  }

  /** The decision, and whether the session file exists once it is made. */
  datatype Decision = Decision(action: SessionAction, present: bool)

  /** check_existing_session */
  function CheckExistingSession(present: bool, choice: string, removeSucceeds: bool): (d: Decision)
    ensures d.action == UseExisting <==> present && choice == "1"
    ensures d.action == Exit <==> present && choice != "1" && !removeSucceeds
    ensures d.action == CreateNew ==> !d.present
    ensures d.action != CreateNew ==> d.present
    ensures d.present ==> present
  {
    if present then
      if choice == "1" then Decision(UseExisting, true)
      else
        var removal := SafeRemoveSession(present, removeSucceeds);
        if removal.ok then Decision(CreateNew, removal.present) else Decision(Exit, removal.present)
    else Decision(CreateNew, false)
  }

  /**
    connect_with_existing_session: `connectOk` is whether both connect() and
    is_user_authorized() return (either raising ends in False through the
    outer handler), `authorized` what is_user_authorized() answers, `answer` the operator's
    lowered and stripped reply, and `freshLogin` what create_new_session would
    return if it were reached.
  */
  function ConnectWithExistingSession(connectOk: bool, authorized: bool, answer: string,
                                      present: bool, removeSucceeds: bool, freshLogin: bool): (ok: bool)
    ensures ok ==> connectOk
    ensures ok && !authorized ==> answer == "y" && SafeRemoveSession(present, removeSucceeds).ok && freshLogin
    ensures connectOk && authorized ==> ok
    ensures connectOk && !authorized && answer == "y" && SafeRemoveSession(present, removeSucceeds).ok ==> (ok <==> freshLogin)
  {
    if !connectOk then false
    else if !authorized then
      if answer == "y" then
        if SafeRemoveSession(present, removeSucceeds).ok then freshLogin else false
      else false
    else true
  }

  /**
    initialize_client: `existing` and `newLogin` are what connect_with_existing_session
    and create_new_session would return.
  */
  function InitializeClient(action: SessionAction, existing: bool, newLogin: bool): (ok: bool)
    ensures action == Exit ==> !ok
    ensures action == UseExisting ==> (ok <==> existing)
    ensures action == CreateNew ==> (ok <==> newLogin)
  {
    match action
    case Exit => false
    case UseExisting => existing
    case CreateNew => newLogin
  }

  /** Choosing anything but reuse, with a removal that succeeds, always leads into a fresh login with no session file left. */
  lemma DeleteChoiceForcesFreshLogin(present: bool, choice: string, existing: bool, newLogin: bool)
    requires present && choice != "1"
    ensures var d := CheckExistingSession(present, choice, true);
            !d.present && InitializeClient(d.action, existing, newLogin) == newLogin
  {
  }

  /** A failed removal stops the run before any login is attempted. */
  lemma FailedRemovalStopsRun(choice: string, existing: bool, newLogin: bool)
    requires choice != "1"
    ensures var d := CheckExistingSession(true, choice, false);
            d.action == Exit && !InitializeClient(d.action, existing, newLogin)
  {
  }
}
