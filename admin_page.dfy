/**
 * The administration page: which view it shows for the session and role
 * state, how the role check's answer sets the admin flag, and the
 * person-editing handlers. The database and authentication service are
 * outside the model; what they answer is passed in.
 */
module AdminPage {
  import opened Wrappers
  import opened PersonStorage

  /** A signed-in session; only the user's id matters here. */
  datatype Session = Session(userId: string)

  /** A row of the persons table as the page lists it. */
  datatype PersonRow = PersonRow(id: string, name: string)

  /** What the `user_roles` query for the admin role came back with. */
  datatype RoleQuery = AdminRow | NoRow | QueryError | Threw

  /** The four screens the page can render. */
  datatype View = Loading | SignIn | AccessDenied | Dashboard

  /** The render's choice of screen. */
  function SelectView(loading: bool, checkingRole: bool, hasSession: bool, isAdmin: bool): (v: View)
    ensures v == Loading <==> loading || checkingRole
    ensures v == SignIn <==> !loading && !checkingRole && !hasSession
    ensures v == AccessDenied <==> !loading && !checkingRole && hasSession && !isAdmin
    ensures v == Dashboard <==> !loading && !checkingRole && hasSession && isAdmin
  {
    if loading || checkingRole then Loading
    else if !hasSession then SignIn
    else if !isAdmin then AccessDenied
    else Dashboard
  }

  /** The admin flag a completed role check leaves: set exactly when an admin row came back. */
  function IsAdminAfter(q: RoleQuery): (admin: bool)
    ensures admin <==> q == AdminRow
  {
    match q
    case AdminRow => true
    case NoRow => false
    case QueryError => false
    case Threw => false
  }

  /** Which handler the person form's submit goes to. */
  datatype Target = UpdateTarget(id: string) | AddTarget

  function SubmitTarget(editingPerson: Option<PersonRow>): (t: Target)
    ensures t.UpdateTarget? <==> editingPerson.Some?
    ensures t.UpdateTarget? ==> t.id == editingPerson.value.id
  {
    if editingPerson.Some? then UpdateTarget(editingPerson.value.id) else AddTarget
  }

  /** A write sent to the persons table. */
  datatype Write = Insert(data: NewPerson) | Update(id: string, data: NewPerson) | Delete(id: string)

  class AdminPageState {
    var session: Option<Session>
    var allPersons: seq<PersonRow>
    var editingPerson: Option<PersonRow>
    var loading: bool
    var isAdmin: bool
    var checkingRole: bool
    /** The answer of the last completed role check, if any. */
    ghost var lastRoleQuery: Option<RoleQuery>

    /** The admin flag is only ever set by a role check that found an admin row. */
    ghost predicate Valid()
      reads this
    {
      isAdmin ==> lastRoleQuery == Some(AdminRow)
    }

    function CurrentView(): View
      reads this
    {
      SelectView(loading, checkingRole, session.Some?, isAdmin)
    }

    constructor ()
      ensures session == None && allPersons == [] && editingPerson == None
      ensures loading && !isAdmin && checkingRole
      ensures lastRoleQuery == None && Valid()
      ensures CurrentView() == Loading
    {
      session, allPersons, editingPerson := None, [], None;
      loading, isAdmin, checkingRole := true, false, true;
      lastRoleQuery := None;
    }

    /** `getSession()` resolved: the session is stored and loading ends. */
    method SessionFetched(s: Option<Session>)
      modifies this
      ensures session == s && !loading
      ensures allPersons == old(allPersons) && editingPerson == old(editingPerson)
      ensures isAdmin == old(isAdmin) && checkingRole == old(checkingRole)
      ensures lastRoleQuery == old(lastRoleQuery)
    {
      session := s;
      loading := false;
    }

    /** An `onAuthStateChange` notification. */
    method AuthStateChanged(s: Option<Session>)
      modifies this
      ensures session == s
      ensures allPersons == old(allPersons) && editingPerson == old(editingPerson)
      ensures loading == old(loading) && isAdmin == old(isAdmin) && checkingRole == old(checkingRole)
      ensures lastRoleQuery == old(lastRoleQuery)
    {
      session := s;
    }

    /**
     * The effect run when the session changes: with a session the role
     * check starts (and the list is loaded); without one the page stops
     * checking and drops the admin flag.
     */
    method SessionEffect()
      modifies this
      requires Valid()
      ensures Valid()
      ensures session.Some? ==> checkingRole && isAdmin == old(isAdmin)
      ensures session.None? ==> !checkingRole && !isAdmin
      ensures session == old(session) && loading == old(loading)
      ensures allPersons == old(allPersons) && editingPerson == old(editingPerson)
      ensures lastRoleQuery == old(lastRoleQuery)
    {
      if session.Some? {
        checkingRole := true;
      } else {
        checkingRole := false;
        isAdmin := false;
      }
    }

    /** `checkAdminRole` finished with answer `q`: the flag follows the answer and the check ends. */
    method RoleCheckCompleted(q: RoleQuery)
      modifies this
      ensures Valid()
      ensures isAdmin <==> q == AdminRow
      ensures !checkingRole && lastRoleQuery == Some(q)
      ensures session == old(session) && loading == old(loading)
      ensures allPersons == old(allPersons) && editingPerson == old(editingPerson)
    {
      isAdmin := IsAdminAfter(q);
      checkingRole := false;
      lastRoleQuery := Some(q);
    }

    /** `loadPersons` resolved with the rows the query returned. */
    method PersonsLoaded(rows: seq<PersonRow>)
      modifies this
      ensures allPersons == rows
      ensures session == old(session) && editingPerson == old(editingPerson)
      ensures loading == old(loading) && isAdmin == old(isAdmin) && checkingRole == old(checkingRole)
      ensures lastRoleQuery == old(lastRoleQuery)
    {
      allPersons := rows;
    }

    /** The list's edit button, and the form's cancel button (with `None`). */
    method SetEditingPerson(p: Option<PersonRow>)
      modifies this
      ensures editingPerson == p
      ensures session == old(session) && allPersons == old(allPersons)
      ensures loading == old(loading) && isAdmin == old(isAdmin) && checkingRole == old(checkingRole)
      ensures lastRoleQuery == old(lastRoleQuery)
    {
      editingPerson := p;
    }

    /**
     * `handleUpdatePerson`: without a person being edited nothing is sent;
     * otherwise the update for that person's id is sent, and when it
     * succeeds the list is reloaded (`reloaded`) and editing ends.
     */
    method HandleUpdatePerson(data: NewPerson, updateFailed: bool, reloaded: seq<PersonRow>) returns (sent: Option<Write>)
      modifies this
      ensures old(editingPerson).None? ==> sent == None && allPersons == old(allPersons) && editingPerson == None
      ensures old(editingPerson).Some? ==> sent == Some(Update(old(editingPerson).value.id, data))
      ensures old(editingPerson).Some? && !updateFailed ==> allPersons == reloaded && editingPerson == None
      ensures old(editingPerson).Some? && updateFailed ==>
                allPersons == old(allPersons) && editingPerson == old(editingPerson)
      ensures session == old(session) && loading == old(loading)
      ensures isAdmin == old(isAdmin) && checkingRole == old(checkingRole)
      ensures lastRoleQuery == old(lastRoleQuery)
    {
      if editingPerson.None? {
        return None;
      }
      sent := Some(Update(editingPerson.value.id, data));
      if !updateFailed {
        allPersons := reloaded;
        editingPerson := None;
      }
    }

    /** `handleAddPerson`: the insert is sent; when it succeeds the list is reloaded. */
    method HandleAddPerson(data: NewPerson, addFailed: bool, reloaded: seq<PersonRow>) returns (sent: Write)
      modifies this
      ensures sent == Insert(data)
      ensures allPersons == if addFailed then old(allPersons) else reloaded
      ensures session == old(session) && editingPerson == old(editingPerson) && loading == old(loading)
      ensures isAdmin == old(isAdmin) && checkingRole == old(checkingRole)
      ensures lastRoleQuery == old(lastRoleQuery)
    {
      sent := Insert(data);
      if !addFailed {
        allPersons := reloaded;
      }
    }

    /** `handleDeletePerson`: the delete is sent and the list reloaded, whether or not the delete succeeded. */
    method HandleDeletePerson(id: string, reloaded: seq<PersonRow>) returns (sent: Write)
      modifies this
      ensures sent == Delete(id) && allPersons == reloaded
      ensures session == old(session) && editingPerson == old(editingPerson) && loading == old(loading)
      ensures isAdmin == old(isAdmin) && checkingRole == old(checkingRole)
      ensures lastRoleQuery == old(lastRoleQuery)
    {
      sent := Delete(id);
      allPersons := reloaded;
    }

    /** The form's submit, dispatched on whether a person is being edited. */
    method SubmitForm(data: NewPerson, failed: bool, reloaded: seq<PersonRow>) returns (sent: Option<Write>)
      modifies this
      ensures SubmitTarget(old(editingPerson)).AddTarget? ==> sent == Some(Insert(data))
      ensures SubmitTarget(old(editingPerson)).UpdateTarget? ==>
                sent == Some(Update(SubmitTarget(old(editingPerson)).id, data))
      ensures !failed ==> allPersons == reloaded && editingPerson == None
      ensures failed ==> allPersons == old(allPersons) && editingPerson == old(editingPerson)
      ensures session == old(session) && loading == old(loading)
      ensures isAdmin == old(isAdmin) && checkingRole == old(checkingRole)
      ensures lastRoleQuery == old(lastRoleQuery)
    {
      if editingPerson.Some? {
        sent := HandleUpdatePerson(data, failed, reloaded);
      } else {
        var w := HandleAddPerson(data, failed, reloaded);
        sent := Some(w);
      }
    }
  }

  /** The dashboard, with its form and list, is shown only to a signed-in user whose last role check found the admin row. */
  lemma DashboardNeedsAdminRow(page: AdminPageState)
    requires page.Valid() && page.CurrentView() == Dashboard
    ensures page.session.Some? && page.lastRoleQuery == Some(AdminRow)
    ensures !page.loading && !page.checkingRole
  {
  }
}
