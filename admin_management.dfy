/** The user administration page: the search over name and email, the
    count cards, the per-row action menu and the refresh counter that
    reloads the list after a change. */
module AdminManagement {
  import opened Types
  import opened Seqs
  import opened Text

  /** The search: the user's full name or email contains the term, ignoring case. */
  predicate MatchesSearch(term: string, u: AppUser)
  {
    IncludesIgnoreCase(u.fullName, term) || IncludesIgnoreCase(u.email, term)
  }

  /** filterUsers: every user with an empty term, otherwise the matching
      users in order. */
  function FilterUsers(users: seq<AppUser>, term: string): (r: seq<AppUser>)
    ensures term == "" ==> r == users
    ensures |r| <= |users|
    ensures Subseq(r, users)
    ensures term != "" ==> forall i :: 0 <= i < |r| ==> MatchesSearch(term, r[i])
  {
    if term == "" then
      assert Subseq(users, users) by { SubseqRefl(users); }
      users
    else Filter(users, (u: AppUser) => MatchesSearch(term, u))
  }

  /** With a term, a user is listed exactly when it is among the users and matches. */
  lemma FilterUsersMembers(users: seq<AppUser>, term: string, u: AppUser)
    requires term != ""
    ensures u in FilterUsers(users, term) <==> u in users && MatchesSearch(term, u)
  {
    FilterMembers(users, (u: AppUser) => MatchesSearch(term, u), u);
  }

  predicate IsAdmin(u: AppUser) { u.role == Admin }
  predicate IsTeacher(u: AppUser) { u.role == Teacher }
  predicate IsActiveUser(u: AppUser) { u.isActive }

  datatype UserStats = UserStats(total: int, admins: int, teachers: int, active: int)

  /** The count cards. */
  function Stats(users: seq<AppUser>): (r: UserStats)
    ensures r.total == |users|
    ensures r.admins == |Filter(users, IsAdmin)| && r.teachers == |Filter(users, IsTeacher)|
    ensures r.active == |Filter(users, IsActiveUser)|
    ensures r.admins + r.teachers == r.total
    ensures 0 <= r.active <= r.total
  {
    RolesPartition(users);
    UserStats(|users|, |Filter(users, IsAdmin)|, |Filter(users, IsTeacher)|, |Filter(users, IsActiveUser)|)
  }

  /** Every user is an admin or a teacher, and not both. */
  lemma {:induction false} RolesPartition(users: seq<AppUser>)
    ensures |Filter(users, IsAdmin)| + |Filter(users, IsTeacher)| == |users|
  {
    if |users| > 0 {
      RolesPartition(users[1..]);
    }
  }

  /** The menu button: clicking the open row's button closes the menu,
      clicking any other row's opens that row's. */
  function ToggleDropdown(open: Option<string>, id: string): (r: Option<string>)
    ensures open == Some(id) ==> r == None
    ensures open != Some(id) ==> r == Some(id)
  {
    if open == Some(id) then None else Some(id)
  }

  /** Two clicks on the same button leave the menu open on that row exactly
      when it was open there before. */
  lemma ToggleDropdownTwice(open: Option<string>, id: string)
    ensures ToggleDropdown(ToggleDropdown(open, id), id) == Some(id) <==> open == Some(id)
    ensures ToggleDropdown(ToggleDropdown(open, id), id) == None <==> open != Some(id)
  {
  }

  /** The page's state. */
  class AdminPage {
    var users: seq<AppUser>
    var filteredUsers: seq<AppUser>
    var searchTerm: string
    var error: Option<string>
    var editingUser: Option<AppUser>
    var dropdownOpen: Option<string>
    var refreshTrigger: int

    /** The filter effect re-runs whenever the users or the term change. */
    predicate Valid()
      reads this
    {
      filteredUsers == FilterUsers(users, searchTerm)
    }

    constructor()
      ensures Valid()
      ensures users == [] && searchTerm == "" && error == None && editingUser == None
      ensures dropdownOpen == None && refreshTrigger == 0
    {
      users := [];
      filteredUsers := [];
      searchTerm := "";
      error := None;
      editingUser := None;
      dropdownOpen := None;
      refreshTrigger := 0;
    }

    /** loadUsers: the fetched users, or the error with the old list kept. */
    method LoadUsers(fetch: Result<seq<AppUser>>)
      modifies this
      requires Valid()
      ensures Valid()
      ensures fetch.Ok? ==> users == fetch.value && error == None
      ensures fetch.Err? ==> users == old(users) && error == Some(fetch.message)
      ensures searchTerm == old(searchTerm) && editingUser == old(editingUser)
      ensures dropdownOpen == old(dropdownOpen) && refreshTrigger == old(refreshTrigger)
    {
      error := None;
      if fetch.Err? {
        error := Some(fetch.message);
        return;
      }
      users := fetch.value;
      filteredUsers := FilterUsers(users, searchTerm);
    }

    method SetSearchTerm(term: string)
      modifies this
      requires Valid()
      ensures Valid()
      ensures searchTerm == term && filteredUsers == FilterUsers(users, term)
      ensures users == old(users) && error == old(error) && editingUser == old(editingUser)
      ensures dropdownOpen == old(dropdownOpen) && refreshTrigger == old(refreshTrigger)
    {
      searchTerm := term;
      filteredUsers := FilterUsers(users, term);
    }

    /** The menu button of a row. */
    method ClickMenu(id: string)
      modifies this
      requires Valid()
      ensures Valid()
      ensures dropdownOpen == ToggleDropdown(old(dropdownOpen), id)
      ensures users == old(users) && searchTerm == old(searchTerm) && error == old(error)
      ensures editingUser == old(editingUser) && refreshTrigger == old(refreshTrigger)
    {
      dropdownOpen := ToggleDropdown(dropdownOpen, id);
    }

    /** handleDeleteUser: nothing unless confirmed; a successful delete bumps
        the counter by one and closes the menu; a failure is alerted. */
    method HandleDeleteUser(confirmed: bool, deleted: Result<()>) returns (alert: Option<string>)
      modifies this
      requires Valid()
      ensures Valid()
      ensures !confirmed ==> alert == None && refreshTrigger == old(refreshTrigger) && dropdownOpen == old(dropdownOpen)
      ensures confirmed && deleted.Ok? ==>
        alert == None && refreshTrigger == old(refreshTrigger) + 1 && dropdownOpen == None
      ensures confirmed && deleted.Err? ==>
        alert == Some(deleted.message) && refreshTrigger == old(refreshTrigger) && dropdownOpen == old(dropdownOpen)
      ensures users == old(users) && searchTerm == old(searchTerm) && error == old(error)
      ensures editingUser == old(editingUser)
    {
      if !confirmed {
        return None;
      }
      if deleted.Err? {
        return Some(deleted.message);
      }
      refreshTrigger := refreshTrigger + 1;
      dropdownOpen := None;
      return None;
    }

    /** handleUserAdded. */
    method HandleUserAdded()
      modifies this
      requires Valid()
      ensures Valid()
      ensures refreshTrigger == old(refreshTrigger) + 1
      ensures users == old(users) && searchTerm == old(searchTerm) && error == old(error)
      ensures editingUser == old(editingUser) && dropdownOpen == old(dropdownOpen)
    {
      refreshTrigger := refreshTrigger + 1;
    }

    /** handleUserUpdated: the edit dialog closes as well. */
    method HandleUserUpdated()
      modifies this
      requires Valid()
      ensures Valid()
      ensures refreshTrigger == old(refreshTrigger) + 1 && editingUser == None
      ensures users == old(users) && searchTerm == old(searchTerm) && error == old(error)
      ensures dropdownOpen == old(dropdownOpen)
    {
      refreshTrigger := refreshTrigger + 1;
      editingUser := None;
    }
  }
}
