/** The decision logic of the post and comment handlers of
    controllers/postController.js. The store is abstract: what its queries answer is
    given as parameters, and its mutations appear only as calls in the returned log. */
module PostController {
  import opened Wrappers
  import opened JsText
  import opened JsValues
  import opened Validation
  import opened Effects

  /** What `getPostByPostId` tells about an existing post. */
  datatype PostRow = PostRow(postAuthorId: Value)

  /** What `getCommentByCommentId` tells about an existing comment. */
  datatype CommentRow = CommentRow(commentAuthorId: Value)

  /** `getPostController`: a malformed id is rejected before any lookup; the view
      counter is increased once per client, which keeps the ids it has viewed and gets
      the extended list back only when the counter was increased. */
  method GetPostController(postId: JsString, postIdIsUuid: bool, viewedPosts: seq<JsString>,
                 post: Option<PostRow>, failing: set<Call>)
    returns (response: Response, calls: seq<Call>, viewedAfter: seq<JsString>)
    ensures !postIdIsUuid ==> response == Respond(400) && calls == [] && viewedAfter == viewedPosts
    ensures postIdIsUuid && post.None? ==> response == Respond(404) && calls == [] && viewedAfter == viewedPosts
    ensures calls == [] || calls == [IncreaseViewCount(postId)]
    ensures calls == [IncreaseViewCount(postId)] <==> postIdIsUuid && post.Some? && postId !in viewedPosts
    ensures viewedAfter == viewedPosts + [postId] <==> calls != [] && IncreaseViewCount(postId) !in failing
    ensures viewedAfter == viewedPosts || viewedAfter == viewedPosts + [postId]
    ensures response == Respond(200) <==>
      postIdIsUuid && post.Some? && (postId in viewedPosts || IncreaseViewCount(postId) !in failing)
    ensures response == Respond(200) ==> postId in viewedAfter
    ensures response == Forward <==> calls != [] && IncreaseViewCount(postId) in failing
  {
    calls, viewedAfter := [], viewedPosts;
    if !postIdIsUuid {
      return Respond(400), calls, viewedAfter;
    }
    if post.None? {
      return Respond(404), calls, viewedAfter;
    }
    if postId !in viewedPosts {
      calls := calls + [IncreaseViewCount(postId)];
      if IncreaseViewCount(postId) in failing {
        return Forward, calls, viewedAfter;
      }
      viewedAfter := viewedAfter + [postId];
    }
    response := Respond(200);
  }

  /** The view counter is increased at most once per client: after a successful
      view, the same request sent with the list that came back increases nothing and
      leaves the list as it is. */
  method ViewCountedOncePerClient(postId: JsString, viewedPosts: seq<JsString>, post: PostRow,
                                  failing: set<Call>)
    returns (firstResponse: Response, increases: seq<Call>, secondResponse: Response, viewedFinally: seq<JsString>)
    ensures firstResponse == Respond(200) ==>
      && secondResponse == Respond(200) && postId in viewedFinally
      && increases == (if postId in viewedPosts then [] else [IncreaseViewCount(postId)])
  {
    var firstCalls, viewedOnce;
    firstResponse, firstCalls, viewedOnce := GetPostController(postId, true, viewedPosts, Some(post), failing);
    var secondCalls;
    secondResponse, secondCalls, viewedFinally := GetPostController(postId, true, viewedOnce, Some(post), failing);
    increases := firstCalls + secondCalls;
  }

  /** Both fields are present and within their limits. */
  predicate PostFieldsValid(title: Option<JsString>, content: Option<JsString>) {
    Present(title) && Present(content) && ValidateTitle(title.value) && ValidatePostContent(content.value)
  }

  /** `createPostController`: a missing or too long title or content is rejected
      before the store is called. */
  method CreatePostController(title: Option<JsString>, content: Option<JsString>, postImage: Option<JsString>,
                    newPostId: JsString, userId: Value, failing: set<Call>)
    returns (response: Response, calls: seq<Call>)
    ensures response == Respond(400) <==> !PostFieldsValid(title, content)
    ensures response == Respond(400) ==> calls == []
    ensures PostFieldsValid(title, content) ==>
      && GetLength(title.value) <= TITLE_MAX && GetLength(content.value) <= CONTENT_MAX
      && calls == [CreatePost(newPostId, title.value, content.value, postImage, userId)]
      && response == (if calls[0] in failing then Forward else Respond(201))
  {
    calls := [];
    if !Present(title) || !Present(content) {
      return Respond(400), calls;
    }
    if !ValidateTitle(title.value) || !ValidatePostContent(content.value) {
      return Respond(400), calls;
    }
    var create := CreatePost(newPostId, title.value, content.value, postImage, userId);
    calls := calls + [create];
    if create in failing {
      return Forward, calls;
    }
    response := Respond(201);
  }

  /** `editPostController`: validation, existence and authorship are checked before
      anything changes. The new image is the uploaded file if there is one, otherwise
      none if the image was deleted, otherwise the previous one; the previous file is
      deleted only when the image was deleted and there was one. */
  method EditPostController(postId: JsString, userId: Value, title: Option<JsString>, content: Option<JsString>,
                  isImageDeleted: Option<JsString>, uploadedFile: Option<JsString>,
                  post: Option<PostRow>, previousImageName: Option<JsString>, failing: set<Call>)
    returns (response: Response, calls: seq<Call>)
    ensures !PostFieldsValid(title, content) ==> response == Respond(400) && calls == []
    ensures PostFieldsValid(title, content) && post.None? ==> response == Respond(404) && calls == []
    ensures PostFieldsValid(title, content) && post.Some? && post.value.postAuthorId != userId ==>
      response == Respond(403) && calls == []
    ensures PostFieldsValid(title, content) && post.Some? && post.value.postAuthorId == userId ==>
      var deleted := isImageDeleted == Some(TRUE_TEXT);
      var newImage := if uploadedFile.Some? then uploadedFile
                      else if deleted then None
                      else previousImageName;
      var edit := EditPost(postId, title.value, content.value, newImage);
      && calls == (if deleted && Present(previousImageName) then [DeleteImage(previousImageName.value)] else []) + [edit]
      && response == (if edit in failing then Forward else Respond(200))
  {
    calls := [];
    if !Present(title) || !Present(content) {
      return Respond(400), calls;
    }
    if !ValidateTitle(title.value) || !ValidatePostContent(content.value) {
      return Respond(400), calls;
    }
    if post.None? {
      return Respond(404), calls;
    }
    if post.value.postAuthorId != userId {
      return Respond(403), calls;
    }
    var postImage := previousImageName;
    if isImageDeleted == Some(TRUE_TEXT) {
      postImage := None;
      if Present(previousImageName) {
        // not awaited: a failure to delete the file does not stop the edit
        calls := calls + [DeleteImage(previousImageName.value)];
      }
    }
    if uploadedFile.Some? {
      postImage := uploadedFile;
    }
    var edit := EditPost(postId, title.value, content.value, postImage);
    calls := calls + [edit];
    if edit in failing {
      return Forward, calls;
    }
    response := Respond(200);
  }

  /** `deletePostController`: only the author may delete. The stored image is deleted
      first (without waiting), then the post, its comments and its likes, in that order,
      each awaited; a missing post makes reading its author throw. */
  method DeletePostController(postId: JsString, userId: Value, post: Option<PostRow>,
                    previousPostImageName: Option<JsString>, failing: set<Call>)
    returns (response: Response, calls: seq<Call>)
    ensures post.None? ==> response == Forward && calls == []
    ensures post.Some? && post.value.postAuthorId != userId ==> response == Respond(403) && calls == []
    ensures post.Some? && post.value.postAuthorId == userId ==>
      var cleanup := if Present(previousPostImageName) then [DeleteImage(previousPostImageName.value)] else [];
      var cascade := [DeletePost(postId), DeleteCommentsByPostId(postId), DeleteLikesByPostId(postId)];
      && calls == cleanup + Attempted(cascade, failing)
      && response == (if NoneFail(cascade, failing) then Respond(200) else Forward)
  {
    calls := [];
    if post.None? {
      return Forward, calls;
    }
    if post.value.postAuthorId != userId {
      return Respond(403), calls;
    }
    var cleanup := if Present(previousPostImageName) then [DeleteImage(previousPostImageName.value)] else [];
    // awaited one after another: the first that throws ends the handler
    var cascade := [DeletePost(postId), DeleteCommentsByPostId(postId), DeleteLikesByPostId(postId)];
    if DeletePost(postId) in failing {
      AttemptedStopsAtFirstFailure(cascade, failing, 0);
      return Forward, cleanup + cascade[..1];
    }
    if DeleteCommentsByPostId(postId) in failing {
      AttemptedStopsAtFirstFailure(cascade, failing, 1);
      return Forward, cleanup + cascade[..2];
    }
    if DeleteLikesByPostId(postId) in failing {
      AttemptedStopsAtFirstFailure(cascade, failing, 2);
      return Forward, cleanup + cascade;
    }
    assert NoneFail(cascade, failing);
    response, calls := Respond(200), cleanup + cascade;
  }

  /** The comment text is neither blank nor longer than the limit. */
  predicate CommentValid(content: JsString) {
    Trim(content) != [] && ValidateComment(content)
  }

  /** `createCommentController`: blank or too long content is rejected before the
      store is called; accepted content has between 1 and 300 characters. */
  method CreateCommentController(postId: JsString, newCommentId: JsString, userId: Value, content: JsString,
                       failing: set<Call>)
    returns (response: Response, calls: seq<Call>)
    ensures response == Respond(400) <==> !CommentValid(content)
    ensures response == Respond(400) ==> calls == []
    ensures CommentValid(content) ==>
      && 1 <= GetLength(content) <= COMMENT_MAX
      && calls == [CreateComment(postId, newCommentId, userId, content)]
      && response == (if calls[0] in failing then Forward else Respond(201))
  {
    calls := [];
    if Trim(content) == [] {
      return Respond(400), calls;
    }
    if !ValidateComment(content) {
      return Respond(400), calls;
    }
    var create := CreateComment(postId, newCommentId, userId, content);
    calls := calls + [create];
    if create in failing {
      return Forward, calls;
    }
    response := Respond(201);
  }

  /** `editCommentController`: content is validated first, then only the comment's
      author may change it; a missing comment makes reading its author throw. */
  method EditCommentController(postId: JsString, commentId: JsString, userId: Value, content: JsString,
                     comment: Option<CommentRow>, failing: set<Call>)
    returns (response: Response, calls: seq<Call>)
    ensures !CommentValid(content) ==> response == Respond(400) && calls == []
    ensures CommentValid(content) && comment.None? ==> response == Forward && calls == []
    ensures CommentValid(content) && comment.Some? && comment.value.commentAuthorId != userId ==>
      response == Respond(403) && calls == []
    ensures calls != [] <==> CommentValid(content) && comment.Some? && comment.value.commentAuthorId == userId
    ensures calls != [] ==>
      && calls == [EditComment(postId, commentId, content)]
      && response == (if calls[0] in failing then Forward else Respond(200))
  {
    calls := [];
    if Trim(content) == [] {
      return Respond(400), calls;
    }
    if !ValidateComment(content) {
      return Respond(400), calls;
    }
    if comment.None? {
      return Forward, calls;
    }
    if comment.value.commentAuthorId != userId {
      return Respond(403), calls;
    }
    var edit := EditComment(postId, commentId, content);
    calls := calls + [edit];
    if edit in failing {
      return Forward, calls;
    }
    response := Respond(200);
  }

  /** `deleteCommentController`: only the comment's author may delete it. */
  method DeleteCommentController(postId: JsString, commentId: JsString, userId: Value,
                       comment: Option<CommentRow>, failing: set<Call>)
    returns (response: Response, calls: seq<Call>)
    ensures comment.None? ==> response == Forward && calls == []
    ensures comment.Some? && comment.value.commentAuthorId != userId ==> response == Respond(403) && calls == []
    ensures calls != [] <==> comment.Some? && comment.value.commentAuthorId == userId
    ensures calls != [] ==>
      && calls == [DeleteComment(postId, commentId)]
      && response == (if calls[0] in failing then Forward else Respond(200))
  {
    calls := [];
    if comment.None? {
      return Forward, calls;
    }
    if comment.value.commentAuthorId != userId {
      return Respond(403), calls;
    }
    var delete := DeleteComment(postId, commentId);
    calls := calls + [delete];
    if delete in failing {
      return Forward, calls;
    }
    response := Respond(200);
  }
}
