/** The JSON-file user store of models/userModel.js, with the list of users as the
    class's state; reading and writing the file are not modelled. */
module UserModel {
  import opened Wrappers
  import opened JsText
  import opened JsValues
  import opened Records

  const USER_ID: string := "userId"
  const EMAIL: string := "email"
  const PASSWORD: string := "password"

  datatype UserError = UserNotFound

  class UserStore {
    var users: seq<Record>

    constructor (initial: seq<Record>)
      ensures users == initial
    {
      users := initial;
    }

    /** `createUser`: appends the new user as given, with no check for a duplicate id,
        email or nickname. */
    method CreateUser(newUser: Record)
      modifies this
      ensures users == old(users) + [newUser]
    {
      users := users + [newUser];
    }

    /** `getUserById`: the first user with that id, or an error. */
    function GetUserById(userId: Value): (r: Result<Record, UserError>)
      reads this
      ensures r.Err? <==> forall i :: 0 <= i < |users| ==> !Matches(users[i], USER_ID, userId)
      ensures r.Ok? ==> exists i: nat :: IsFirstMatch(users, i, USER_ID, userId) && r.value == users[i]
    {
      match FindIndex(users, USER_ID, userId)
      case None => Err(UserNotFound)
      case Some(i) => Ok(users[i])
    }

    /** `getUserByEmail`: the first user with that email, or an error. */
    function GetUserByEmail(email: Value): (r: Result<Record, UserError>)
      reads this
      ensures r.Err? <==> forall i :: 0 <= i < |users| ==> !Matches(users[i], EMAIL, email)
      ensures r.Ok? ==> exists i: nat :: IsFirstMatch(users, i, EMAIL, email) && r.value == users[i]
    {
      match FindIndex(users, EMAIL, email)
      case None => Err(UserNotFound)
      case Some(i) => Ok(users[i])
    }

    /** `editProfile`: merges the edited fields into the first user with that id; an
        unknown id is an error and nothing is written. */
    method EditProfile(userId: Value, editedUserData: Patch) returns (r: Outcome<UserError>)
      modifies this
      ensures match FindIndex(old(users), USER_ID, userId)
        case None => r == Fail(UserNotFound) && users == old(users)
        case Some(i) => r == Pass && users == old(users)[i := Merge(old(users)[i], editedUserData)]
    {
      var userIndex := FindIndex(users, USER_ID, userId);
      if userIndex.None? {
        return Fail(UserNotFound);
      }
      users := users[userIndex.value := Merge(users[userIndex.value], editedUserData)];
      r := Pass;
    }

    /** `changePassword`: overwrites the password of the first user with that id and
        nothing else. The source does not check the index: for an unknown id it assigns
        `users[-1]`, a property that is not an array element and is never written, so
        the stored list stays as it was and no error is raised. */
    method ChangePassword(userId: Value, newPassword: JsString)
      modifies this
      ensures match FindIndex(old(users), USER_ID, userId)
        case None => users == old(users)
        case Some(i) => users == old(users)[i := old(users)[i][PASSWORD := JStr(newPassword)]]
    {
      var userIndex := FindIndex(users, USER_ID, userId);
      if userIndex.Some? {
        users := users[userIndex.value := users[userIndex.value][PASSWORD := JStr(newPassword)]];
      }
    }
  }
}
