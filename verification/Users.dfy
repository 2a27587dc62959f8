/** The fixed table of users. */
module Users {
  import opened Bytes

  const MAX_USERS := 16
  const MAX_NAME := 24
  const ROOT_NAME: Text := Ascii("root")
  const GUEST_NAME: Text := Ascii("guest")

  datatype User = User(name: Text, active: bool, admin: bool)

  const NOBODY: User := User([], false, false)

  /** The active users, in table order: what the enumeration should list. */
  function Active(us: seq<User>): seq<User> {
    if us == [] then []
    else Active(us[..|us| - 1]) + (if us[|us| - 1].active then [us[|us| - 1]] else [])
  }

  predicate UniqueNames(us: seq<User>) {
    forall i, j | 0 <= i < j < |us| && us[i].active && us[j].active :: us[i].name != us[j].name
  }

  predicate TableOk(us: seq<User>) {
    && |us| == MAX_USERS
    && us[0] == User(ROOT_NAME, true, true)
    && UniqueNames(us)
    && forall i | 0 <= i < |us| && us[i].active :: 0 < |us[i].name| < MAX_NAME
  }

  predicate IsActiveName(us: seq<User>, name: Text) {
    exists i | 0 <= i < |us| :: us[i].active && us[i].name == name
  }

  lemma {:induction false} ActiveMembers(us: seq<User>, u: User)
    ensures u in Active(us) <==> u in us && u.active
  {
    if us != [] {
      var init := us[..|us| - 1];
      ActiveMembers(init, u);
      assert us == init + [us[|us| - 1]];
    }
  }

  lemma {:induction false} ActiveNames(us: seq<User>)
    requires UniqueNames(us)
    ensures forall a, b | 0 <= a < b < |Active(us)| :: Active(us)[a].name != Active(us)[b].name
  {
    if us != [] {
      var init, last := us[..|us| - 1], us[|us| - 1];
      ActiveNames(init);
      forall a | 0 <= a < |Active(init)| && last.active ensures Active(init)[a].name != last.name {
        ActiveMembers(init, Active(init)[a]);
        var i :| 0 <= i < |init| && init[i] == Active(init)[a];
        assert us[i] == init[i];
      }
    }
  }

  /** Indices 0..count-1 list every active user exactly once, and names tell them apart. */
  lemma EnumerationIsExact(us: seq<User>, u: User)
    requires TableOk(us)
    ensures u in us && u.active <==> exists k | 0 <= k < |Active(us)| :: Active(us)[k] == u
    ensures forall a, b | 0 <= a < b < |Active(us)| :: Active(us)[a].name != Active(us)[b].name
    ensures 1 <= |Active(us)| && User(ROOT_NAME, true, true) in Active(us)
  {
    ActiveMembers(us, u);
    ActiveMembers(us, us[0]);
    ActiveNames(us);
  }

  lemma ActivePair(a: User, b: User)
    requires a.active && b.active
    ensures Active([a, b]) == [a, b]
  {
    assert [a, b][..1] == [a] && [a][..0] == [];
    assert Active([]) == [];
    assert Active([a]) == [a];
  }

  datatype UserOp =
    | AddUser(name: Text, admin: bool)
    | RemoveUser(name: Text)
    | LoginAs(name: Text)
    | LogOut

  class Accounts {
    const users: array<User>
    var current: nat

    ghost predicate Valid()
      reads this, users
    {
      users.Length == MAX_USERS && TableOk(users[..]) && current < MAX_USERS
    }

    /** Somebody who still has an account is logged in. */
    predicate CurrentActive()
      requires Valid()
      reads this, users
    {
      users[current].active
    }

    /** users_init. */
    constructor ()
      ensures Valid() && CurrentActive() && current == 0
      ensures Active(users[..]) == [User(ROOT_NAME, true, true), User(GUEST_NAME, true, false)]
      ensures fresh(users) && GuestInPlace() && forall i | 2 <= i < MAX_USERS :: !users[i].active
    {
      users := new User[MAX_USERS](_ => NOBODY);
      current := 0;
      new;
      users[0] := User(ROOT_NAME, true, true);
      users[1] := User(GUEST_NAME, true, false);
      assert |ROOT_NAME| == 4 && |GUEST_NAME| == 5;
      ActiveOfPrefix(users[..], 2);
      ActivePair(users[0], users[1]);
      assert users[..2] == [users[0], users[1]];
      assert users[..][..2] == users[..2];
    }

    method FindUser(name: Text) returns (r: int)
      ensures -1 <= r < users.Length
      ensures r >= 0 ==> users[r].active && users[r].name == name
      ensures r < 0 <==> !IsActiveName(users[..], name)
    {
      for i := 0 to users.Length
        invariant forall j | 0 <= j < i :: !(users[j].active && users[j].name == name)
      {
        if users[i].active && users[i].name == name {
          assert users[..][i] == users[i];
          return i;
        }
      }
      r := -1;
    }

    /** users_add. */
    method Add(name: Text, admin: bool) returns (rc: int)
      requires Valid()
      modifies users
      ensures Valid() && (old(CurrentActive()) ==> CurrentActive())
      ensures rc == (if name == [] || |name| >= MAX_NAME then 1
                     else if IsActiveName(old(users[..]), name) then 2
                     else if forall i | 0 <= i < MAX_USERS :: old(users[..])[i].active then 3
                     else 0)
      ensures rc != 0 ==> users[..] == old(users[..])
      ensures rc == 0 ==> exists i | 0 <= i < MAX_USERS :: !old(users[..])[i].active
                            && (forall j | 0 <= j < i :: old(users[..])[j].active)
                            && users[..] == old(users[..])[i := User(name, true, admin)]
    {
      if name == [] || |name| >= MAX_NAME { return 1; }
      var found := FindUser(name);
      if found >= 0 { return 2; }
      ghost var before := users[..];
      for i := 0 to MAX_USERS
        invariant users[..] == before && forall j | 0 <= j < i :: before[j].active
      {
        if !users[i].active {
          users[i] := User(name, true, admin);
          assert users[..] == before[i := User(name, true, admin)];
          return 0;
        }
      }
      rc := 3;
    }

    /** users_remove: never root, never the current user. */
    method Remove(name: Text) returns (rc: int)
      requires Valid()
      modifies users
      ensures Valid() && (old(CurrentActive()) ==> CurrentActive())
      ensures rc == (if !IsActiveName(old(users[..]), name) || name == ROOT_NAME then 1
                     else if old(users[current].active && users[current].name == name) then 2
                     else 0)
      ensures rc != 0 ==> users[..] == old(users[..])
      ensures rc == 0 ==> !IsActiveName(users[..], name)
      ensures rc == 0 ==> forall i | 0 <= i < MAX_USERS ::
                users[i] == if old(users[i].active && users[i].name == name) then NOBODY else old(users[i])
    {
      var i := FindUser(name);
      if i < 0 || i == 0 { return 1; }
      assert users[0].active;
      if i == current { return 2; }
      ghost var before := users[..];
      users[i] := NOBODY;
      assert users[..] == before[i := NOBODY];
      rc := 0;
    }

    /** users_login. */
    method Login(name: Text) returns (rc: int)
      requires Valid()
      modifies this`current
      ensures Valid()
      ensures rc == 0 <==> IsActiveName(users[..], name)
      ensures rc == 0 ==> CurrentActive() && users[current].name == name
      ensures rc != 0 ==> rc == 1 && current == old(current)
    {
      var i := FindUser(name);
      if i < 0 { return 1; }
      current := i;
      rc := 0;
    }

    /** Slot 1 still belongs to guest, as it does after users_init. */
    predicate GuestInPlace()
      requires Valid()
      reads this, users
    {
      users[1].active && users[1].name == GUEST_NAME
    }

    /** users_logout selects slot 1, whoever is there: a return to guest exactly when guest is still in it. */
    method Logout()
      requires Valid()
      modifies this`current
      ensures Valid() && current == 1
      ensures CurrentActive() <==> users[1].active
      ensures CurrentActive() && users[current].name == GUEST_NAME <==> GuestInPlace()
    {
      current := 1;
    }

    /** Guest keeps slot 1 unless it is removed while somebody else is logged in, and takes it when added to it. */
    method Exec(op: UserOp)
      requires Valid()
      modifies this`current, users
      ensures Valid()
      ensures op == RemoveUser(GUEST_NAME) ==> (GuestInPlace() <==> old(GuestInPlace() && current == 1))
      ensures op != RemoveUser(GUEST_NAME) ==>
                (GuestInPlace() <==>
                   old(GuestInPlace()) || (op.AddUser? && op.name == GUEST_NAME && !old(users[1].active)
                                           && !old(IsActiveName(users[..], GUEST_NAME))))
      ensures old(CurrentActive()) && (op == LogOut ==> users[1].active) ==> CurrentActive()
    {
      GuestDiffersFromRoot();
      assert forall i | 0 <= i < MAX_USERS :: users[..][i] == users[i];
      match op
      case AddUser(name, admin) => var _ := Add(name, admin);
      case RemoveUser(name) => var _ := Remove(name);
      case LoginAs(name) => var _ := Login(name);
      case LogOut => Logout();
    }

    /** As long as nobody removes guest, every run keeps an account logged in, and a logout is a return to guest. */
    method RunThenLogout(ops: seq<UserOp>)
      requires Valid() && CurrentActive() && GuestInPlace()
      modifies this`current, users
      ensures Valid()
      ensures RemoveUser(GUEST_NAME) !in ops ==> CurrentActive() && users[current].name == GUEST_NAME
    {
      for i := 0 to |ops|
        invariant Valid()
        invariant RemoveUser(GUEST_NAME) !in ops ==> GuestInPlace() && CurrentActive()
      {
        Exec(ops[i]);
      }
      Logout();
    }

    method Count() returns (count: nat)
      ensures count == |Active(users[..])|
    {
      count := 0;
      for i := 0 to users.Length
        invariant count == |Active(users[..i])|
      {
        assert users[..i + 1][..i] == users[..i];
        if users[i].active {
          count := count + 1;
        }
      }
      assert users[..users.Length] == users[..];
    }

    /** users_get. */
    method Get(index: nat) returns (found: bool, user: User)
      ensures found <==> index < |Active(users[..])|
      ensures found ==> user == Active(users[..])[index]
    {
      var seen := 0;
      for i := 0 to users.Length
        invariant seen == |Active(users[..i])| <= index
      {
        assert users[..i + 1][..i] == users[..i];
        if users[i].active {
          if seen == index {
            ActiveExtends(users[..], i + 1);
            return true, users[i];
          }
          seen := seen + 1;
        }
      }
      assert users[..users.Length] == users[..];
      found, user := false, NOBODY;
    }
  }

  /** Guest removed, then a logout: nobody with an account is logged in. */
  method LogoutWithoutGuest() returns (a: Accounts)
    ensures fresh(a) && a.Valid() && !a.CurrentActive()
  {
    a := new Accounts();
    GuestDiffersFromRoot();
    assert a.users[..][1] == a.users[1];
    var _ := a.Remove(GUEST_NAME);
    a.Logout();
  }

  /** Guest removed and an administrator added in its slot: a logout logs that administrator in. */
  method LogoutIntoAnother(name: Text) returns (a: Accounts)
    requires 0 < |name| < MAX_NAME && name != ROOT_NAME
    ensures fresh(a) && a.Valid() && a.users[a.current] == User(name, true, true)
  {
    a := new Accounts();
    GuestDiffersFromRoot();
    assert a.users[..][1] == a.users[1];
    var _ := a.Remove(GUEST_NAME);
    var _ := a.Add(name, true);
    a.Logout();
  }

  /** Guest removed and added again is back in slot 1; while guest is logged in it cannot be removed at all. */
  method GuestComesBack() returns (a: Accounts, refused: int)
    ensures fresh(a) && a.Valid() && a.CurrentActive() && a.users[a.current].name == GUEST_NAME && refused == 2
  {
    a := new Accounts();
    GuestDiffersFromRoot();
    assert a.users[..][1] == a.users[1];
    var _ := a.Remove(GUEST_NAME);
    var _ := a.Add(GUEST_NAME, false);
    a.Logout();
    assert a.users[..][1] == a.users[1];
    refused := a.Remove(GUEST_NAME);
  }

  lemma GuestDiffersFromRoot()
    ensures GUEST_NAME != ROOT_NAME && |GUEST_NAME| == 5
  {
    assert |ROOT_NAME| == 4;
  }

  /** The list of a prefix is a prefix of the list. */
  lemma {:induction false} ActiveExtends(us: seq<User>, n: nat)
    requires n <= |us|
    ensures Active(us[..n]) <= Active(us)
    decreases |us| - n
  {
    if n == |us| {
      assert us[..n] == us;
    } else {
      assert us[..n + 1][..n] == us[..n];
      ActiveExtends(us, n + 1);
    }
  }

  lemma {:induction false} ActiveOfPrefix(us: seq<User>, n: nat)
    requires n <= |us| && forall i | n <= i < |us| :: !us[i].active
    ensures Active(us) == Active(us[..n])
    decreases |us|
  {
    if n == |us| {
      assert us[..n] == us;
    } else {
      ActiveOfPrefix(us[..|us| - 1], n);
      assert us[..|us| - 1][..n] == us[..n];
    }
  }
}
