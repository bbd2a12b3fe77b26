/** What a request handler does, seen from outside: the response it sends and the
    calls it makes to the store, the file storage and the session, in order. The store
    functions behind the calls are not part of this model; which awaited calls throw
    is given by a set `failing`. */
module Effects {
  import opened Wrappers
  import opened JsText
  import opened JsValues

  /** A response with a status, or an error handed to the error middleware (`next`). */
  datatype Response = Respond(status: int) | Forward

  datatype Call =
    | IncreaseViewCount(postId: JsString)
    | CreatePost(postId: JsString, title: JsString, content: JsString, postImage: Option<JsString>, postAuthorId: Value)
    | EditPost(postId: JsString, title: JsString, content: JsString, postImage: Option<JsString>)
    | DeletePost(postId: JsString)
    | DeleteCommentsByPostId(postId: JsString)
    | DeleteLikesByPostId(postId: JsString)
    | CreateComment(postId: JsString, commentId: JsString, commentAuthorId: Value, content: JsString)
    | EditComment(postId: JsString, commentId: JsString, content: JsString)
    | DeleteComment(postId: JsString, commentId: JsString)
    | DeleteImage(imageName: JsString)
    | EditProfile(userId: Value, nickname: JsString, profileImage: Option<JsString>)
    | ChangePassword(userId: Value, hashedPassword: JsString)
    | DeleteLikesByUserId(userId: Value)
    | DeleteCommentsByUserId(userId: Value)
    | DeletePostsByUserId(userId: Value)
    | DeleteUserProfileByUserId(userId: Value)
    | DestroySession

  predicate NoneFail(steps: seq<Call>, failing: set<Call>) {
    forall k :: 0 <= k < |steps| ==> steps[k] !in failing
  }

  /** The calls made when `steps` are awaited one after another: all of them, or those
      up to and including the first one that throws. */
  function Attempted(steps: seq<Call>, failing: set<Call>): (done: seq<Call>)
    ensures done <= steps
    ensures forall k :: 0 <= k < |done| - 1 ==> done[k] !in failing
    ensures NoneFail(steps, failing) ==> done == steps
    ensures !NoneFail(steps, failing) ==> done != [] && done[|done| - 1] in failing
  {
    if steps == [] then []
    else if steps[0] in failing then [steps[0]]
    else [steps[0]] + Attempted(steps[1..], failing)
  }

  /** The calls made stop exactly at the first one that throws. */
  lemma {:induction false} AttemptedStopsAtFirstFailure(steps: seq<Call>, failing: set<Call>, k: nat)
    requires k < |steps| && steps[k] in failing
    requires forall j :: 0 <= j < k ==> steps[j] !in failing
    ensures Attempted(steps, failing) == steps[..k + 1]
  {
    if k > 0 {
      AttemptedStopsAtFirstFailure(steps[1..], failing, k - 1);
      assert steps[..k + 1] == [steps[0]] + steps[1..][..k];
    }
  }
}
