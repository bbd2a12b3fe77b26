/** The JSON-file post store of models/postModel.js. Each operation reads the whole
    list of posts, changes it in place and writes it back; the class keeps that list
    as its state, and reading and writing the file are not modelled. */
module PostModel {
  import opened Wrappers
  import opened JsValues
  import opened Records

  const POST_ID: string := "postId"

  datatype PostError = PostNotFound

  /** The id `createPost` gives a new post: one more than the id of the LAST post of
      the list (not the largest), or 1 for an empty list. */
  function NextPostId(posts: seq<Record>): (id: Value)
    ensures posts == [] ==> id == JNum(1)
    ensures posts != [] && HasNumericId(posts[|posts| - 1]) ==> id == JNum(posts[|posts| - 1][POST_ID].n + 1)
    ensures posts != [] && POST_ID in posts[|posts| - 1] && posts[|posts| - 1][POST_ID].JStr? ==>
              id == JStr(posts[|posts| - 1][POST_ID].s + ['1' as int])
    ensures posts != [] && POST_ID !in posts[|posts| - 1] ==> id == JNull
  {
    if posts == [] then JNum(1) else PlusOne(Get(posts[|posts| - 1], POST_ID))
  }

  predicate HasNumericId(r: Record) {
    POST_ID in r && r[POST_ID].JNum?
  }

  /** Every post has a numeric id and ids grow strictly along the list, as they do
      when posts are only created and deleted through this store. */
  predicate AscendingIds(posts: seq<Record>) {
    && (forall i :: 0 <= i < |posts| ==> HasNumericId(posts[i]))
    && (forall i, j :: 0 <= i < j < |posts| ==> posts[i][POST_ID].n < posts[j][POST_ID].n)
  }

  class PostStore {
    var posts: seq<Record>

    constructor (initial: seq<Record>)
      ensures posts == initial
    {
      posts := initial;
    }

    /** `getPostById`: the first post with that id, or an error when there is none. */
    function GetPostById(postId: Value): (r: Result<Record, PostError>)
      reads this
      ensures r.Err? <==> forall i :: 0 <= i < |posts| ==> !Matches(posts[i], POST_ID, postId)
      ensures r.Ok? ==> exists i: nat :: IsFirstMatch(posts, i, POST_ID, postId) && r.value == posts[i]
    {
      match FindIndex(posts, POST_ID, postId)
      case None => Err(PostNotFound)
      case Some(i) => Ok(posts[i])
    }

    /** `createPost`: sets the new post's id, appends it and returns the id. */
    method CreatePost(newPost: Record) returns (postId: Value)
      modifies this
      ensures postId == NextPostId(old(posts))
      ensures posts == old(posts) + [newPost[POST_ID := postId]]
    {
      postId := if |posts| > 0 then PlusOne(Get(posts[|posts| - 1], POST_ID)) else JNum(1);
      var stored := newPost[POST_ID := postId];
      posts := posts + [stored];
    }

    /** `editPost`: merges the edited fields into the first post with that id; an
        unknown id is an error and nothing is written. */
    method EditPost(postId: Value, editedPostData: Patch) returns (r: Outcome<PostError>)
      modifies this
      ensures match FindIndex(old(posts), POST_ID, postId)
        case None => r == Fail(PostNotFound) && posts == old(posts)
        case Some(i) => r == Pass && posts == old(posts)[i := Merge(old(posts)[i], editedPostData)]
    {
      var postIndex := FindIndex(posts, POST_ID, postId);
      if postIndex.None? {
        return Fail(PostNotFound);
      }
      posts := posts[postIndex.value := Merge(posts[postIndex.value], editedPostData)];
      r := Pass;
    }

    /** `deletePost`: removes the first post with that id; an unknown id is an error
        and nothing is written. */
    method DeletePost(postId: Value) returns (r: Outcome<PostError>)
      modifies this
      ensures match FindIndex(old(posts), POST_ID, postId)
        case None => r == Fail(PostNotFound) && posts == old(posts)
        case Some(i) => r == Pass && posts == RemoveAt(old(posts), i)
    {
      var postIndex := FindIndex(posts, POST_ID, postId);
      if postIndex.None? {
        return Fail(PostNotFound);
      }
      posts := RemoveAt(posts, postIndex.value);
      r := Pass;
    }
  }

  /** With ascending ids the id `createPost` picks belongs to no stored post, and the
      list stays ascending once the new post is appended. */
  lemma CreateKeepsIdsAscending(posts: seq<Record>, newPost: Record)
    requires AscendingIds(posts)
    ensures forall i :: 0 <= i < |posts| ==> !Matches(posts[i], POST_ID, NextPostId(posts))
    ensures AscendingIds(posts + [newPost[POST_ID := NextPostId(posts)]])
  {
    var id := NextPostId(posts);
    var after: seq<Record> := posts + [newPost[POST_ID := id]];
    if posts != [] {
      var last := |posts| - 1;
      assert id == JNum(posts[last][POST_ID].n + 1);
      forall i | 0 <= i < |posts|
        ensures posts[i][POST_ID].n < id.n
      {
        if i < last {
          assert posts[i][POST_ID].n < posts[last][POST_ID].n;
        }
      }
    }
    assert forall i :: 0 <= i < |after| ==> HasNumericId(after[i]) by {
      if posts != [] {
        assert id.JNum?;
      }
    }
    forall i, j | 0 <= i < j < |after|
      ensures after[i][POST_ID].n < after[j][POST_ID].n
    {
      if j < |posts| {
        assert after[i] == posts[i] && after[j] == posts[j];
      } else {
        assert after[i] == posts[i];
      }
    }
  }

  /** Deleting a post keeps the remaining ids ascending. */
  lemma DeleteKeepsIdsAscending(posts: seq<Record>, i: nat)
    requires AscendingIds(posts) && i < |posts|
    ensures AscendingIds(RemoveAt(posts, i))
  {
    var after: seq<Record> := RemoveAt(posts, i);
    assert forall a :: 0 <= a < |after| ==> HasNumericId(after[a]) by {
      forall a | 0 <= a < |after|
        ensures HasNumericId(after[a])
      {
        assert after[a] == posts[if a < i then a else a + 1];
      }
    }
    forall a, b | 0 <= a < b < |after|
      ensures after[a][POST_ID].n < after[b][POST_ID].n
    {
      var a' := if a < i then a else a + 1;
      var b' := if b < i then b else b + 1;
      assert after[a] == posts[a'] && after[b] == posts[b'];
    }
  }

  /** An edit that does not supply `postId` keeps the ids ascending. */
  lemma EditKeepsIdsAscending(posts: seq<Record>, i: nat, editedPostData: Patch)
    requires AscendingIds(posts) && i < |posts| && POST_ID !in editedPostData
    ensures AscendingIds(posts[i := Merge(posts[i], editedPostData)])
  {
    var after: seq<Record> := posts[i := Merge(posts[i], editedPostData)];
    assert after[i][POST_ID] == posts[i][POST_ID];
    forall a | 0 <= a < |after|
      ensures after[a][POST_ID] == posts[a][POST_ID]
    {
    }
  }

  /** Ascending ids are unique: no other post carries the id of a stored post, so
      the post `getPostById` finds is the only one with that id. */
  lemma AscendingIdsAreUnique(posts: seq<Record>, i: nat)
    requires AscendingIds(posts) && i < |posts|
    ensures forall j :: 0 <= j < |posts| && j != i ==> !Matches(posts[j], POST_ID, posts[i][POST_ID])
  {
    forall j | 0 <= j < |posts| && j != i
      ensures posts[j][POST_ID] != posts[i][POST_ID]
    {
      if j < i {
        assert posts[j][POST_ID].n < posts[i][POST_ID].n;
      } else {
        assert posts[i][POST_ID].n < posts[j][POST_ID].n;
      }
    }
  }

  /** A string id is concatenated, not incremented: after a post whose id is the
      string "7", `createPost` picks the string "71". */
  lemma NextPostIdAfterStringId()
    ensures NextPostId([map[POST_ID := JStr(['7' as int])]]) == JStr(['7' as int, '1' as int])
  {
  }

  /** An edit whose patch holds `postId: undefined` removes the id from the stored
      post, so the ids no longer ascend. */
  lemma EditWithUndefinedIdDropsIt(post: Record)
    requires HasNumericId(post)
    ensures !AscendingIds([Merge(post, map[POST_ID := None])])
  {
    var patch: Patch := map[POST_ID := None];
    assert POST_ID !in Merge(post, patch);
    assert !HasNumericId([Merge(post, patch)][0]);
  }

  /** Without the ascending order the new id can collide: after posts with ids 2
      and 1, `createPost` picks 2 again. */
  lemma NextPostIdCanCollide()
    ensures var posts := [map[POST_ID := JNum(2)], map[POST_ID := JNum(1)]];
            Matches(posts[0], POST_ID, NextPostId(posts))
  {
  }
}
