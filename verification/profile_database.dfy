/**
 * The profile service's store (profile-microservice/server/database.go).
 *
 * Regular and business profiles share the PROFILE.user collection.  A
 * document is modelled with every field either kind can carry; decoding it
 * as a model.User or a model.UserBusiness keeps the fields that type has.
 * FindOne, UpdateOne and DeleteOne act on the first match in natural order.
 */
module ProfileDatabase {
  import opened ProfileModel
  import opened Search

  const RoleRegular := "regular"
  const RoleBusiness := "business"

  datatype ProfileDoc = ProfileDoc(
    id: string,
    firstName: string,
    lastName: string,
    username: string,
    email: string,
    gender: string,
    age: string,
    city: string,
    privateProfile: bool,
    role: string,
    website: string,
    company: string)

  const ZeroUser := User("", "", "", "", "", "", "", "", false, "")
  const ZeroBusiness := UserBusiness("", "", "", "", "", "", false)

  function AsUser(d: ProfileDoc): User {
    User(d.id, d.firstName, d.lastName, d.username, d.email, d.gender, d.age, d.city, d.privateProfile, d.role)
  }

  function AsBusiness(d: ProfileDoc): UserBusiness {
    UserBusiness(d.id, d.username, d.website, d.email, d.company, d.role, d.privateProfile)
  }

  /** The document InsertOne stores for a regular profile. */
  function FromUser(u: User): (d: ProfileDoc)
    ensures AsUser(d) == u && d.website == "" && d.company == ""
  {
    ProfileDoc(u.id, u.firstName, u.lastName, u.username, u.email, u.gender, u.age, u.city,
               u.privateProfile, u.role, "", "")
  }

  /** The document InsertOne stores for a business profile. */
  function FromBusiness(u: UserBusiness): (d: ProfileDoc)
    ensures AsBusiness(d) == u
    ensures d.firstName == "" && d.lastName == "" && d.gender == "" && d.age == "" && d.city == ""
  {
    ProfileDoc(u.id, "", "", u.username, u.email, "", "", "", u.privateProfile, u.role, u.website, u.company)
  }

  // ---------------------------------------------------------------- queries

  /** FindOne({id}): the index of the first document with the id, |docs| when none. */
  function FindById(docs: seq<ProfileDoc>, id: string): (i: nat)
    ensures i <= |docs|
    ensures i < |docs| ==> docs[i].id == id
    ensures forall j :: 0 <= j < i ==> docs[j].id != id
  {
    FirstWhere(docs, (p: ProfileDoc) => p.id == id)
  }

  /** FindOne({username}). */
  function FindByUsername(docs: seq<ProfileDoc>, username: string): (i: nat)
    ensures i <= |docs|
    ensures i < |docs| ==> docs[i].username == username
    ensures forall j :: 0 <= j < i ==> docs[j].username != username
  {
    FirstWhere(docs, (p: ProfileDoc) => p.username == username)
  }

  /** GetRegularUserById: the first document with the id decoded as a User, or the zero User. */
  function GetRegularUserById(docs: seq<ProfileDoc>, id: string): User {
    var i := FindById(docs, id);
    if i < |docs| then AsUser(docs[i]) else ZeroUser
  }

  /** GetBusinessUserById: the same document decoded as a UserBusiness. */
  function GetBusinessUserById(docs: seq<ProfileDoc>, id: string): UserBusiness {
    var i := FindById(docs, id);
    if i < |docs| then AsBusiness(docs[i]) else ZeroBusiness
  }

  /** GetRegularUsers: Find({role: "regular"}) decoded as Users, in store order. */
  function GetRegularUsers(docs: seq<ProfileDoc>): (users: seq<User>)
    ensures forall u :: u in users ==> u.role == RoleRegular && exists d :: d in docs && AsUser(d) == u
    ensures forall d :: d in docs && d.role == RoleRegular ==> AsUser(d) in users
    ensures |users| <= |docs|
  {
    if docs == [] then []
    else (if docs[0].role == RoleRegular then [AsUser(docs[0])] else []) + GetRegularUsers(docs[1..])
  }

  /** GetBusinessUsers: Find({role: "business"}) decoded as UserBusiness, in store order. */
  function GetBusinessUsers(docs: seq<ProfileDoc>): (users: seq<UserBusiness>)
    ensures forall u :: u in users ==> u.role == RoleBusiness && exists d :: d in docs && AsBusiness(d) == u
    ensures forall d :: d in docs && d.role == RoleBusiness ==> AsBusiness(d) in users
    ensures |users| <= |docs|
  {
    if docs == [] then []
    else (if docs[0].role == RoleBusiness then [AsBusiness(docs[0])] else []) + GetBusinessUsers(docs[1..])
  }

  /**
   * One iteration of the projection: the reused modelUser after looking at a
   * found user.  A role that is neither regular nor business leaves it as it was.
   */
  function Project(docs: seq<ProfileDoc>, id: string, user: User, previous: Users): Users {
    if user.role == RoleRegular then Users(user.id, user.firstName + " " + user.lastName, user.username)
    else if user.role == RoleBusiness then
      var business := GetBusinessUserById(docs, id);
      Users(business.id, business.company, business.username)
    else previous
  }

  /** GetUserById: {Id, Name, Username} of the profile, the zero value when none. */
  function GetUserById(docs: seq<ProfileDoc>, id: string): Users {
    var user := GetRegularUserById(docs, id);
    if user != ZeroUser then Project(docs, id, user, ZeroUsers) else ZeroUsers
  }

  /** How GetUserById projects each kind of profile. */
  lemma GetUserByIdProjection(docs: seq<ProfileDoc>, id: string)
    ensures var i := FindById(docs, id);
      && (i == |docs| ==> GetUserById(docs, id) == ZeroUsers)
      && (i < |docs| && docs[i].role == RoleRegular ==>
            GetUserById(docs, id) == Users(id, docs[i].firstName + " " + docs[i].lastName, docs[i].username))
      && (i < |docs| && docs[i].role == RoleBusiness ==>
            GetUserById(docs, id) == Users(id, docs[i].company, docs[i].username))
      && (i < |docs| && docs[i].role != RoleRegular && docs[i].role != RoleBusiness ==>
            GetUserById(docs, id) == ZeroUsers)
  {
  }

  /** GetListOfUsersByIds as a function: previous is the reused modelUser. */
  function ListOfUsers(docs: seq<ProfileDoc>, ids: seq<string>, previous: Users): seq<Users> {
    if ids == [] then []
    else
      var user := GetRegularUserById(docs, ids[0]);
      if user == ZeroUser then ListOfUsers(docs, ids[1..], previous)
      else
        var current := Project(docs, ids[0], user, previous);
        [current] + ListOfUsers(docs, ids[1..], current)
  }

  /** The ids whose profile is found, in input order. */
  function FoundIds(docs: seq<ProfileDoc>, ids: seq<string>): seq<string> {
    if ids == [] then []
    else (if GetRegularUserById(docs, ids[0]) != ZeroUser then [ids[0]] else []) + FoundIds(docs, ids[1..])
  }

  predicate KnownRole(docs: seq<ProfileDoc>, id: string) {
    var role := GetRegularUserById(docs, id).role;
    role == RoleRegular || role == RoleBusiness
  }

  function ProjectAll(docs: seq<ProfileDoc>, ids: seq<string>): (r: seq<Users>)
    ensures |r| == |ids| && forall k :: 0 <= k < |ids| ==> r[k] == GetUserById(docs, ids[k])
  {
    if ids == [] then [] else [GetUserById(docs, ids[0])] + ProjectAll(docs, ids[1..])
  }

  /** One entry per found id, so never more entries than ids. */
  lemma {:induction false} ListOfUsersLength(docs: seq<ProfileDoc>, ids: seq<string>, previous: Users)
    ensures |ListOfUsers(docs, ids, previous)| == |FoundIds(docs, ids)| <= |ids|
  {
    if ids != [] {
      var user := GetRegularUserById(docs, ids[0]);
      ListOfUsersLength(docs, ids[1..], previous);
      ListOfUsersLength(docs, ids[1..], Project(docs, ids[0], user, previous));
    }
  }

  /**
   * When every found profile is regular or business, the batch lookup is
   * GetUserById of each found id, in input order, unknown ids skipped.
   */
  lemma {:induction false} ListOfUsersKnownRoles(docs: seq<ProfileDoc>, ids: seq<string>, previous: Users)
    requires forall id :: id in FoundIds(docs, ids) ==> KnownRole(docs, id)
    ensures ListOfUsers(docs, ids, previous) == ProjectAll(docs, FoundIds(docs, ids))
  {
    if ids != [] {
      var user := GetRegularUserById(docs, ids[0]);
      if user == ZeroUser {
        ListOfUsersKnownRoles(docs, ids[1..], previous);
      } else {
        assert ids[0] in FoundIds(docs, ids);
        ListOfUsersKnownRoles(docs, ids[1..], Project(docs, ids[0], user, previous));
      }
    }
  }

  /** A found profile with another role repeats the previous entry: the reused modelUser is not reset. */
  lemma StaleEntryRepeated(docs: seq<ProfileDoc>, first: string, second: string)
    requires KnownRole(docs, first) && GetRegularUserById(docs, first) != ZeroUser
    requires GetRegularUserById(docs, second) != ZeroUser && !KnownRole(docs, second)
    ensures ListOfUsers(docs, [first, second], ZeroUsers) == [GetUserById(docs, first), GetUserById(docs, first)]
  {
    var entry := Project(docs, first, GetRegularUserById(docs, first), ZeroUsers);
    assert entry == GetUserById(docs, first);
    assert [first, second][1..] == [second];
    assert [second][1..] == [];
    assert ListOfUsers(docs, [second], entry) == [entry];
  }

  /** GetListOfUsersByIds: one lookup per id; found profiles are projected through the reused modelUser. */
  method GetListOfUsersByIds(docs: seq<ProfileDoc>, ids: seq<string>) returns (users: seq<Users>)
    ensures users == ListOfUsers(docs, ids, ZeroUsers)
  {
    users := [];
    var modelUser := ZeroUsers;
    for i := 0 to |ids|
      invariant users + ListOfUsers(docs, ids[i..], modelUser) == ListOfUsers(docs, ids, ZeroUsers)
    {
      assert ids[i..][1..] == ids[i + 1..];
      var user := GetRegularUserById(docs, ids[i]);
      if user != ZeroUser {
        if user.role == RoleRegular {
          modelUser := Users(user.id, user.firstName + " " + user.lastName, user.username);
        }
        if user.role == RoleBusiness {
          var userBusiness := GetBusinessUserById(docs, ids[i]);
          modelUser := Users(userBusiness.id, userBusiness.company, userBusiness.username);
        }
        users := users + [modelUser];
      }
    }
  }

  // -------------------------------------------------------------- mutation

  /** UpdateOne({id}, $set privateProfile: !current) on the first document with the id. */
  function ToggledPrivate(docs: seq<ProfileDoc>, id: string): seq<ProfileDoc> {
    var i := FindById(docs, id);
    if i < |docs| then docs[i := docs[i].(privateProfile := !docs[i].privateProfile)] else docs
  }

  /** The toggle flips one flag of one document and changes nothing else; an unknown id changes nothing. */
  lemma ToggleChangesOnlyTheFlag(docs: seq<ProfileDoc>, id: string)
    ensures var after := ToggledPrivate(docs, id); var i := FindById(docs, id);
      && |after| == |docs|
      && (forall j :: 0 <= j < |docs| && j != i ==> after[j] == docs[j])
      && (i < |docs| ==> after[i] == docs[i].(privateProfile := !docs[i].privateProfile))
      && (i == |docs| ==> after == docs)
  {
  }

  /** Toggling twice restores the collection. */
  lemma ToggleTwiceRestores(docs: seq<ProfileDoc>, id: string)
    ensures ToggledPrivate(ToggledPrivate(docs, id), id) == docs
  {
    var i := FindById(docs, id);
    if i < |docs| {
      var once := ToggledPrivate(docs, id);
      assert forall j :: 0 <= j < i ==> once[j] == docs[j];
      FindByIdAt(once, id, i);
    }
  }

  lemma FindByIdAt(docs: seq<ProfileDoc>, id: string, k: nat)
    requires k < |docs| && docs[k].id == id
    requires forall j :: 0 <= j < k ==> docs[j].id != id
    ensures FindById(docs, id) == k
  {
  }

  /** DeleteOne: drop the document at the match, when there is one. */
  function RemoveAt(docs: seq<ProfileDoc>, i: nat): seq<ProfileDoc> {
    if i < |docs| then docs[..i] + docs[i + 1..] else docs
  }

  /** Deleting removes exactly one matching document and keeps the others in order. */
  lemma RemoveAtRemovesOne(docs: seq<ProfileDoc>, i: nat)
    ensures i < |docs| ==> multiset(RemoveAt(docs, i)) + multiset{docs[i]} == multiset(docs)
    ensures i < |docs| ==> (|RemoveAt(docs, i)| == |docs| - 1
      && (forall j :: 0 <= j < i ==> RemoveAt(docs, i)[j] == docs[j])
      && (forall j :: i < j < |docs| ==> RemoveAt(docs, i)[j - 1] == docs[j]))
    ensures i >= |docs| ==> RemoveAt(docs, i) == docs
  {
    if i < |docs| {
      assert docs == docs[..i] + [docs[i]] + docs[i + 1..];
    }
  }

  class ProfileRepository {
    var docs: seq<ProfileDoc>

    constructor ()
      ensures docs == []
    {
      docs := [];
    }

    /** SignUpRegularUser: store the profile with PrivateProfile forced to true. */
    method SignUpRegularUser(user: User)
      modifies this
      ensures docs == old(docs) + [FromUser(user.(privateProfile := true))]
      ensures AsUser(docs[|docs| - 1]) == user.(privateProfile := true)
    {
      docs := docs + [FromUser(user.(privateProfile := true))];
    }

    /** SignUpBusinessUser: store the profile with PrivateProfile forced to true. */
    method SignUpBusinessUser(user: UserBusiness)
      modifies this
      ensures docs == old(docs) + [FromBusiness(user.(privateProfile := true))]
      ensures AsBusiness(docs[|docs| - 1]) == user.(privateProfile := true)
    {
      docs := docs + [FromBusiness(user.(privateProfile := true))];
    }

    /** UpdateProfileStatus: the returned error is always nil, so nothing is returned. */
    method UpdateProfileStatus(id: string)
      modifies this
      ensures docs == ToggledPrivate(old(docs), id)
    {
      var user := GetRegularUserById(docs, id);
      var i := FindById(docs, id);
      if i < |docs| {
        docs := docs[i := docs[i].(privateProfile := !user.privateProfile)];
      }
    }

    /** DeleteUser: DeleteOne({username}). */
    method DeleteUser(username: string)
      modifies this
      ensures docs == RemoveAt(old(docs), FindByUsername(old(docs), username))
    {
      var i := FindByUsername(docs, username);
      if i < |docs| {
        docs := docs[..i] + docs[i + 1..];
      }
    }

    /** DeleteUserById: DeleteOne({id}), the target of the registration saga's profile cancel. */
    method DeleteUserById(id: string)
      modifies this
      ensures docs == RemoveAt(old(docs), FindById(old(docs), id))
    {
      var i := FindById(docs, id);
      if i < |docs| {
        docs := docs[..i] + docs[i + 1..];
      }
    }
  }

  /** A profile signed up and then deleted by its id leaves the collection as it was, when no earlier profile has that id. */
  lemma SignUpThenDeleteById(docs: seq<ProfileDoc>, user: User)
    requires FindById(docs, user.id) == |docs|
    ensures RemoveAt(docs + [FromUser(user.(privateProfile := true))], FindById(docs + [FromUser(user.(privateProfile := true))], user.id)) == docs
  {
    var after := docs + [FromUser(user.(privateProfile := true))];
    FindByIdAt(after, user.id, |docs|);
    assert after[..|docs|] == docs;
  }
}
