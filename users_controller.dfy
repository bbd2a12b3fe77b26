/** The decision logic of the user handlers of controllers/usersController.js. The
    users the store holds are given as a list; the store's mutations and the session
    appear only as calls in the returned log. */
module UsersController {
  import opened Wrappers
  import opened JsText
  import opened JsValues
  import opened Validation
  import opened Effects

  /** A stored user as the handlers read it. */
  datatype UserRow = UserRow(userId: Value, email: JsString, nickname: JsString,
                             password: JsString, profileImage: Option<JsString>)

  /** The profile `getUserProfileController` returns. */
  datatype Profile = Profile(email: JsString, nickname: JsString, profileImage: JsString)

  /** `getUserById` as the handlers see it: the first user with that id; `None` where
      it throws. The handlers read named string fields of a user (`email`, `nickname`,
      `password`, `profileImage`), so they work on this typed `UserRow` view rather than
      on the untyped records of `UserModel.UserStore`, whose `GetUserById` is the same
      search over `Record`s. */
  function FindUser(users: seq<UserRow>, userId: Value): (r: Option<UserRow>)
    ensures r.None? <==> forall i :: 0 <= i < |users| ==> users[i].userId != userId
    ensures r.Some? ==> exists i :: 0 <= i < |users| && users[i] == r.value && r.value.userId == userId
                                    && forall j :: 0 <= j < i ==> users[j].userId != userId
  {
    match IndexWhere(users, (u: UserRow) => u.userId == userId)
    case None => None
    case Some(i) => Some(users[i])
  }

  /** `getUserByNickname`: the first user with that nickname, or `None` for null. */
  function FindUserByNickname(users: seq<UserRow>, nickname: JsString): (r: Option<UserRow>)
    ensures r.None? <==> forall i :: 0 <= i < |users| ==> users[i].nickname != nickname
    ensures r.Some? ==> r.value in users && r.value.nickname == nickname
  {
    match IndexWhere(users, (u: UserRow) => u.nickname == nickname)
    case None => None
    case Some(i) => Some(users[i])
  }

  /** `getUserProfileController`: the user's email, nickname and image, with the
      default image name standing in for an empty or missing one. */
  function GetUserProfileController(users: seq<UserRow>, userId: Value, defaultImage: JsString): (r: Option<Profile>)
    ensures r.None? <==> forall i :: 0 <= i < |users| ==> users[i].userId != userId
    ensures r.Some? ==> var user := FindUser(users, userId).value;
      && r.value.email == user.email && r.value.nickname == user.nickname
      && (Present(user.profileImage) ==> r.value.profileImage == user.profileImage.value)
      && (!Present(user.profileImage) ==> r.value.profileImage == defaultImage)
    ensures r.Some? && defaultImage != [] ==> r.value.profileImage != []
  {
    match FindUser(users, userId)
    case None => None
    case Some(user) =>
      Some(Profile(user.email, user.nickname,
                   if Present(user.profileImage) then user.profileImage.value else defaultImage))
  }

  /** `editProfileController`: an invalid nickname is rejected before the store is
      read. The image changes only when the form says so, to the uploaded file or else
      the default; the previous file is then deleted unless it is the default. A
      previous image that is null makes building its path throw. The nickname is
      stored as sent, untrimmed. */
  method EditProfileController(userId: Value, nickname: JsString, isProfileImageChanged: Option<JsString>,
                               uploadedFile: Option<JsString>, previousImageName: Option<JsString>,
                               defaultImage: JsString, failing: set<Call>)
    returns (response: Response, calls: seq<Call>)
    ensures !ValidateNickname(nickname) ==> response == Respond(400) && calls == []
    ensures ValidateNickname(nickname) && isProfileImageChanged != Some(TRUE_TEXT) ==>
      && calls == [EditProfile(userId, nickname, previousImageName)]
      && response == (if calls[0] in failing then Forward else Respond(200))
    ensures ValidateNickname(nickname) && isProfileImageChanged == Some(TRUE_TEXT) && previousImageName.None? ==>
      response == Forward && calls == []
    ensures ValidateNickname(nickname) && isProfileImageChanged == Some(TRUE_TEXT) && previousImageName.Some? ==>
      var edit := EditProfile(userId, nickname, Some(if uploadedFile.Some? then uploadedFile.value else defaultImage));
      && (previousImageName.value == defaultImage ==> calls == [edit])
      && (previousImageName.value != defaultImage ==> calls == [DeleteImage(previousImageName.value), edit])
      && response == (if edit in failing then Forward else Respond(200))
  {
    if !ValidateNickname(nickname) {
      return Respond(400), [];
    }
    var profileImageName := previousImageName;
    var cleanup := [];
    if isProfileImageChanged == Some(TRUE_TEXT) {
      profileImageName := Some(if uploadedFile.Some? then uploadedFile.value else defaultImage);
      if previousImageName != Some(defaultImage) {
        if previousImageName.None? {
          // path.join rejects a null segment
          return Forward, [];
        }
        cleanup := [DeleteImage(previousImageName.value)];
      }
    }
    var edit := EditProfile(userId, nickname, profileImageName);
    calls := cleanup + [edit];
    response := if edit in failing then Forward else Respond(200);
  }

  /** `changePasswordController`: an invalid new password, or one the comparison
      finds equal to the stored one, is rejected and the password is not changed. */
  method ChangePasswordController(userId: Value, newPassword: JsString, hashedNewPassword: JsString,
                                  users: seq<UserRow>, isPasswordSame: (JsString, JsString) -> bool,
                                  failing: set<Call>)
    returns (response: Response, calls: seq<Call>)
    ensures !ValidatePassword(newPassword) ==> response == Respond(400) && calls == []
    ensures ValidatePassword(newPassword) && FindUser(users, userId).None? ==> response == Forward && calls == []
    ensures ValidatePassword(newPassword) && FindUser(users, userId).Some?
            && isPasswordSame(newPassword, FindUser(users, userId).value.password) ==>
      response == Respond(400) && calls == []
    ensures calls != [] <==>
      && ValidatePassword(newPassword) && FindUser(users, userId).Some?
      && !isPasswordSame(newPassword, FindUser(users, userId).value.password)
    ensures calls != [] ==>
      && calls == [ChangePassword(userId, hashedNewPassword)]
      && response == (if calls[0] in failing then Forward else Respond(200))
  {
    calls := [];
    if !ValidatePassword(newPassword) {
      return Respond(400), calls;
    }
    var user := FindUser(users, userId);
    if user.None? {
      return Forward, calls;
    }
    if isPasswordSame(newPassword, user.value.password) {
      return Respond(400), calls;
    }
    var change := ChangePassword(userId, hashedNewPassword);
    calls := calls + [change];
    if change in failing {
      return Forward, calls;
    }
    response := Respond(200);
  }

  /** `checkNicknameController`: a nickname is a duplicate when some user has it,
      except that the signed-in user's own current nickname never is. */
  method CheckNicknameController(nickname: JsString, sessionUserId: Option<Value>, users: seq<UserRow>)
    returns (response: Response, isDuplicate: bool)
    ensures response == Respond(200) || response == Forward
    ensures response == Forward <==>
      sessionUserId.Some? && Truthy(sessionUserId.value) && FindUser(users, sessionUserId.value).None?
    ensures response == Respond(200) ==>
      (isDuplicate <==>
        && (exists i :: 0 <= i < |users| && users[i].nickname == nickname)
        && !(sessionUserId.Some? && Truthy(sessionUserId.value)
             && FindUser(users, sessionUserId.value).value.nickname == nickname))
  {
    var user := FindUserByNickname(users, nickname);
    isDuplicate := user.Some?;
    if sessionUserId.Some? && Truthy(sessionUserId.value) {
      var me := FindUser(users, sessionUserId.value);
      if me.None? {
        return Forward, isDuplicate;
      }
      if me.value.nickname == nickname {
        isDuplicate := false;
      }
    }
    response := Respond(200);
  }

  /** `deleteAccountController`: the user's likes, comments, posts and profile are
      deleted in that order, each awaited, and only then is the session destroyed; a
      failure to destroy it is answered with 500. */
  method DeleteAccountController(userId: Value, failing: set<Call>)
    returns (response: Response, calls: seq<Call>)
    ensures var cascade := [DeleteLikesByUserId(userId), DeleteCommentsByUserId(userId),
                            DeletePostsByUserId(userId), DeleteUserProfileByUserId(userId)];
      && (NoneFail(cascade, failing) ==>
            && calls == cascade + [DestroySession]
            && response == (if DestroySession in failing then Respond(500) else Respond(200)))
      && (!NoneFail(cascade, failing) ==>
            calls == Attempted(cascade, failing) && response == Forward)
    ensures DestroySession in calls ==> calls[|calls| - 1] == DestroySession
  {
    // awaited one after another: the first that throws ends the handler
    var cascade := [DeleteLikesByUserId(userId), DeleteCommentsByUserId(userId),
                    DeletePostsByUserId(userId), DeleteUserProfileByUserId(userId)];
    if DeleteLikesByUserId(userId) in failing {
      AttemptedStopsAtFirstFailure(cascade, failing, 0);
      return Forward, cascade[..1];
    }
    if DeleteCommentsByUserId(userId) in failing {
      AttemptedStopsAtFirstFailure(cascade, failing, 1);
      return Forward, cascade[..2];
    }
    if DeletePostsByUserId(userId) in failing {
      AttemptedStopsAtFirstFailure(cascade, failing, 2);
      return Forward, cascade[..3];
    }
    if DeleteUserProfileByUserId(userId) in failing {
      AttemptedStopsAtFirstFailure(cascade, failing, 3);
      return Forward, cascade;
    }
    calls := cascade + [DestroySession];
    response := if DestroySession in failing then Respond(500) else Respond(200);
  }
}
