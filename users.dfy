/** The users page (app/dashboard/users/page.tsx): adding users under fresh ids, editing a row in
    place, and switching a user between active and inactive. */
module Users {
  import opened Tables

  datatype User = User(id: int, name: string, email: string, role: string, location: string, isActive: bool)

  /** The add-user form. */
  datatype UserDraft = UserDraft(name: string, email: string, role: string, location: string)

  function UserId(u: User): int { u.id }

  function Flip(): User -> User
  {
    (u: User) => u.(isActive := !u.isActive)
  }

  /** `handleToggleUserStatus`'s new table: the user with the id switches status. */
  function ToggleIn(rows: seq<User>, id: int): (r: seq<User>)
    ensures |r| == |rows|
    ensures forall i :: 0 <= i < |rows| ==>
      r[i] == if rows[i].id == id then rows[i].(isActive := !rows[i].isActive) else rows[i]
  {
    UpdateWhere(rows, UserId, id, Flip())
  }

  /** Toggling a user twice gives back the very same table. */
  lemma ToggleTwice(rows: seq<User>, id: int)
    ensures ToggleIn(ToggleIn(rows, id), id) == rows
  {
    forall i | 0 <= i < |rows| && rows[i].id == id
      ensures Flip()(Flip()(rows[i])) == rows[i]
    {
    }
    UpdateWhereUndo(rows, UserId, id, Flip(), Flip());
  }

  class UsersPage {
    var users: seq<User>
    /** The row being edited in place. */
    var editingUser: Option<User>

    ghost predicate Valid()
      reads this
    {
      UniqueKeys(users, UserId)
    }

    constructor (initialUsers: seq<User>)
      requires UniqueKeys(initialUsers, UserId)
      ensures Valid() && users == initialUsers && editingUser.None?
    {
      users := initialUsers;
      editingUser := None;
    }

    /** `handleAddUser`: every field of the form is required; the user is appended under a fresh
        id and starts active. */
    method AddUser(draft: UserDraft) returns (added: Option<User>)
      requires Valid()
      modifies this`users
      ensures Valid()
      ensures draft.name == "" || draft.email == "" || draft.role == "" || draft.location == "" ==>
        added.None? && users == old(users)
      ensures draft.name != "" && draft.email != "" && draft.role != "" && draft.location != "" ==>
        && added == Some(User(NextId(Keys(old(users), UserId)), draft.name, draft.email, draft.role, draft.location, true))
        && users == old(users) + [added.value]
      ensures added.Some? ==> forall u :: u in old(users) ==> u.id < added.value.id
    {
      if draft.name == "" || draft.email == "" || draft.role == "" || draft.location == "" {
        return None;
      }
      var user := User(NextId(Keys(users, UserId)), draft.name, draft.email, draft.role, draft.location, true);
      NextIdIsFresh(users, UserId);
      UniqueAfterAppend(users, user, UserId);
      users := users + [user];
      added := Some(user);
    }

    /** The edit button: start editing a row of the table. */
    method StartEdit(u: User)
      requires Valid() && u in users
      modifies this`editingUser
      ensures Valid() && editingUser == Some(u)
    {
      editingUser := Some(u);
    }

    /** The inputs of the row being edited; the status is not among them. */
    method EditFields(name: string, email: string, role: string, location: string)
      requires Valid() && editingUser.Some?
      modifies this`editingUser
      ensures Valid()
      ensures editingUser == Some(old(editingUser).value.(name := name, email := email, role := role, location := location))
    {
      editingUser := Some(editingUser.value.(name := name, email := email, role := role, location := location));
    }

    /** `handleUpdateUser`: with a user being edited whose name and email are filled in, replace
        the row with its id and stop editing; otherwise nothing changes. */
    method UpdateUser()
      requires Valid()
      modifies this
      ensures Valid()
      ensures old(editingUser).None? || old(editingUser).value.name == "" || old(editingUser).value.email == "" ==>
        users == old(users) && editingUser == old(editingUser)
      ensures old(editingUser).Some? && old(editingUser).value.name != "" && old(editingUser).value.email != "" ==>
        var e := old(editingUser).value;
        && editingUser.None?
        && |users| == |old(users)|
        && (forall i :: 0 <= i < |users| ==> users[i] == if old(users)[i].id == e.id then e else old(users)[i])
    {
      if editingUser.None? || editingUser.value.name == "" || editingUser.value.email == "" {
        return;
      }
      var e := editingUser.value;
      var replace := (u: User) => e;
      UniqueAfterUpdate(users, UserId, e.id, replace);
      users := UpdateWhere(users, UserId, e.id, replace);
      editingUser := None;
    }

    /** `handleToggleUserStatus`: switch the status of the user with the id; nothing else changes.
        `activated` is what the notification announces: the user is now active, or no user has the
        id (the notification then reads the status of a missing user as inactive). */
    method ToggleUserStatus(id: int) returns (activated: bool)
      requires Valid()
      modifies this`users
      ensures Valid()
      ensures users == ToggleIn(old(users), id)
      ensures forall k :: 0 <= k < |old(users)| && old(users)[k].id == id ==>
        && users == old(users)[k := old(users)[k].(isActive := !old(users)[k].isActive)]
        && activated == users[k].isActive
      ensures (forall u :: u in old(users) ==> u.id != id) ==> activated && users == old(users)
    {
      var user := Find(users, (u: User) => u.id == id);
      activated := !(user.Some? && user.value.isActive);
      UniqueAfterUpdate(users, UserId, id, Flip());
      forall k | 0 <= k < |users| && users[k].id == id
        ensures ToggleIn(users, id) == users[k := users[k].(isActive := !users[k].isActive)]
        ensures user == Some(users[k])
      {
        UpdateWhereAt(users, UserId, id, Flip(), k);
        assert users[k] in users;
        UniqueKeysSame(users, UserId, user.value, users[k]);
      }
      if user.None? {
        assert forall i :: 0 <= i < |users| ==> Keys(users, UserId)[i] == users[i].id;
        UpdateWhereAbsent(users, UserId, id, Flip());
      }
      users := ToggleIn(users, id);
    }
  }
}
