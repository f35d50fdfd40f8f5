/** The admin user table: search and role filter, row selection, and delete. */
module UserManagementPage {
  import opened Strings
  import opened Seqs

  datatype PageUser = PageUser(id: string, firstName: string, lastName: string, email: string, role: string)

  /** The lower-cased term occurs in `"first last"` or in the e-mail address. */
  predicate SearchMatches(u: PageUser, term: string) {
    ContainsFolded(u.firstName + " " + u.lastName, term) || ContainsFolded(u.email, term)
  }

  predicate RoleMatches(u: PageUser, roleFilter: string) {
    roleFilter == "all" || u.role == roleFilter
  }

  function MatchesView(term: string, roleFilter: string): PageUser -> bool {
    (u: PageUser) => SearchMatches(u, term) && RoleMatches(u, roleFilter)
  }

  /** `filteredUsers`. */
  function FilteredUsers(users: seq<PageUser>, term: string, roleFilter: string): (r: seq<PageUser>)
    ensures IsSubsequence(r, users)
    ensures forall u :: u in r <==> u in users && SearchMatches(u, term) && RoleMatches(u, roleFilter)
  {
    Filter(users, MatchesView(term, roleFilter))
  }

  /** An empty search with role `all` lists everybody. */
  lemma NoFilterListsAll(users: seq<PageUser>)
    ensures FilteredUsers(users, "", "all") == users
  {
    forall u | u in users ensures MatchesView("", "all")(u) {
      ContainsFoldedEmpty(u.firstName + " " + u.lastName);
    }
    FilterAll(users, MatchesView("", "all"));
  }

  function Without(sel: seq<int>, index: int): seq<int> {
    Filter(sel, (i: int) => i != index)
  }

  /** `handleSelectRow`: a selected row is deselected (every occurrence), an
      unselected one is appended. */
  function SelectRow(sel: seq<int>, index: int): (r: seq<int>)
    ensures index in r <==> index !in sel
    ensures forall i :: i != index ==> (i in r <==> i in sel)
  {
    if index in sel then Without(sel, index) else sel + [index]
  }

  /** Selecting the same row twice restores the selected set. */
  lemma SelectRowTwice(sel: seq<int>, index: int)
    ensures (set i | i in SelectRow(SelectRow(sel, index), index)) == (set i | i in sel)
  {
  }

  /** With no repeated entries, toggling an unselected row twice restores the very
      same selection list. */
  lemma SelectUnselectedTwice(sel: seq<int>, index: int)
    requires index !in sel
    ensures SelectRow(SelectRow(sel, index), index) == sel
  {
    FilterSnoc(sel, index, (i: int) => i != index);
    FilterAll(sel, (i: int) => i != index);
  }

  /** `handleSelectAll`: every index of the filtered list, or none. */
  function SelectAll(filtered: seq<PageUser>, isSelected: bool): (r: seq<int>)
    ensures isSelected ==> |r| == |filtered| && forall k :: 0 <= k < |r| ==> r[k] == k
    ensures !isSelected ==> r == []
  {
    if isSelected then seq(|filtered|, k => k) else []
  }

  /** `handleDeleteUser`: drops every user with that id, keeping the rest in order. */
  function DeleteUser(users: seq<PageUser>, id: string): (r: seq<PageUser>)
    ensures IsSubsequence(r, users)
    ensures forall u :: u in r <==> u in users && u.id != id
  {
    Filter(users, (u: PageUser) => u.id != id)
  }
}
