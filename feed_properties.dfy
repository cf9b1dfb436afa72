/**
 Properties of the feed handlers that relate several calls or several
 states: unknown ids change nothing, toggles undo themselves, the like
 counters stay consistent, identifiers stay unique when the clock supplies a
 fresh value, and the profile's own-post counter moves only with new posts.
 */
module FeedProperties {
  import opened Text
  import opened Seqs
  import opened Feed

  // ------------------------------------------------------ unknown ids

  lemma LikePostUnknownIsNoOp(s: State, postId: int)
    requires forall i :: 0 <= i < |s.posts| ==> s.posts[i].id != postId
    ensures HandleLikePost(s, postId) == s
  {
    assert HandleLikePost(s, postId).posts == s.posts;
  }

  /** A post id that matches nothing, or a comment id that matches no comment
      of the matching posts, leaves the state as it was. */
  lemma LikeCommentUnknownIsNoOp(s: State, postId: int, commentId: int)
    requires forall i, j :: 0 <= i < |s.posts| && s.posts[i].id == postId && 0 <= j < |s.posts[i].comments| ==>
      s.posts[i].comments[j].id != commentId
    ensures HandleLikeComment(s, postId, commentId) == s
  {
    var t := HandleLikeComment(s, postId, commentId);
    forall i | 0 <= i < |s.posts| ensures t.posts[i] == s.posts[i] {
      if s.posts[i].id == postId {
        assert t.posts[i].comments == s.posts[i].comments;
      }
    }
    assert t.posts == s.posts;
  }

  lemma ToggleCommentsUnknownIsNoOp(s: State, postId: int)
    requires forall i :: 0 <= i < |s.posts| ==> s.posts[i].id != postId
    ensures HandleToggleComments(s, postId) == s
  {
    assert HandleToggleComments(s, postId).posts == s.posts;
  }

  /** With an unknown post id and a non-blank draft, adding a comment leaves
      every post as it was but still clears that draft. */
  lemma AddCommentUnknownPostOnlyClearsDraft(s: State, postId: int, now: int)
    requires forall i :: 0 <= i < |s.posts| ==> s.posts[i].id != postId
    ensures HandleAddComment(s, postId, now) ==
      if postId in s.newComment && !IsBlank(s.newComment[postId]) then s.(newComment := s.newComment[postId := ""]) else s
  {
    var t := HandleAddComment(s, postId, now);
    if postId in s.newComment && !IsBlank(s.newComment[postId]) {
      assert t.posts == s.posts;
    }
  }

  // ---------------------------------------------------------- involutions

  /** Liking twice restores the state, for the counter as well as the flag. */
  lemma LikePostTwice(s: State, postId: int)
    ensures HandleLikePost(HandleLikePost(s, postId), postId) == s
  {
    var t := HandleLikePost(HandleLikePost(s, postId), postId);
    assert t.posts == s.posts;
  }

  lemma LikeCommentTwice(s: State, postId: int, commentId: int)
    ensures HandleLikeComment(HandleLikeComment(s, postId, commentId), postId, commentId) == s
  {
    var m := HandleLikeComment(s, postId, commentId);
    var t := HandleLikeComment(m, postId, commentId);
    forall i | 0 <= i < |s.posts| ensures t.posts[i] == s.posts[i] {
      if s.posts[i].id == postId {
        assert t.posts[i].comments == s.posts[i].comments;
      }
    }
    assert t.posts == s.posts;
  }

  lemma ToggleCommentsTwice(s: State, postId: int)
    ensures HandleToggleComments(HandleToggleComments(s, postId), postId) == s
  {
    var t := HandleToggleComments(HandleToggleComments(s, postId), postId);
    assert t.posts == s.posts;
  }

  // ------------------------------------------------ counter consistency

  predicate CommentOk(c: Comment)
  {
    LikeCountOk(c.likes, c.liked)
  }

  predicate PostOk(p: Post)
  {
    LikeCountOk(p.likes, p.liked) && forall j :: 0 <= j < |p.comments| ==> CommentOk(p.comments[j])
  }

  /** Every post and every comment of the feed has a consistent like counter. */
  predicate FeedOk(ps: seq<Post>)
  {
    forall i :: 0 <= i < |ps| ==> PostOk(ps[i])
  }

  lemma LikePostKeepsFeedOk(s: State, postId: int)
    requires FeedOk(s.posts)
    ensures FeedOk(HandleLikePost(s, postId).posts)
  {
    var t := HandleLikePost(s, postId);
    forall i | 0 <= i < |t.posts| ensures PostOk(t.posts[i]) {
      if s.posts[i].id == postId {
        LikeCountOkIffBase(s.posts[i].likes, s.posts[i].liked);
        LikeCountOkIffBase(t.posts[i].likes, t.posts[i].liked);
      }
    }
  }

  lemma LikeCommentKeepsFeedOk(s: State, postId: int, commentId: int)
    requires FeedOk(s.posts)
    ensures FeedOk(HandleLikeComment(s, postId, commentId).posts)
  {
    var t := HandleLikeComment(s, postId, commentId);
    forall i | 0 <= i < |t.posts| ensures PostOk(t.posts[i]) {
      assert PostOk(s.posts[i]);
      forall j | 0 <= j < |t.posts[i].comments| ensures CommentOk(t.posts[i].comments[j]) {
        var c, d := s.posts[i].comments[j], t.posts[i].comments[j];
        assert CommentOk(c);
        if s.posts[i].id == postId && c.id == commentId {
          LikeCountOkIffBase(c.likes, c.liked);
          LikeCountOkIffBase(d.likes, d.liked);
        }
      }
    }
  }

  lemma ToggleCommentsKeepsFeedOk(s: State, postId: int)
    requires FeedOk(s.posts)
    ensures FeedOk(HandleToggleComments(s, postId).posts)
  {
  }

  lemma AddCommentKeepsFeedOk(s: State, postId: int, now: int)
    requires FeedOk(s.posts)
    ensures FeedOk(HandleAddComment(s, postId, now).posts)
  {
    var t := HandleAddComment(s, postId, now);
    forall i | 0 <= i < |t.posts| ensures PostOk(t.posts[i]) {
      if t != s && s.posts[i].id == postId {
        var cs, ds := s.posts[i].comments, t.posts[i].comments;
        assert PostOk(s.posts[i]);
        forall j | 0 <= j < |ds| ensures CommentOk(ds[j]) {
          if j < |cs| {
            assert ds[j] == ds[..|cs|][j];
          }
        }
      }
    }
  }

  lemma AddPostKeepsFeedOk(s: State, now: int)
    requires FeedOk(s.posts)
    ensures FeedOk(HandleAddPost(s, now).posts)
  {
    var t := HandleAddPost(s, now);
    forall i | 0 <= i < |t.posts| ensures PostOk(t.posts[i]) {
      if t != s && i > 0 {
        assert t.posts[i] == t.posts[1..][i - 1];
      }
    }
  }

  // ------------------------------------------------------- identifiers

  /** No two posts share an id. */
  predicate UniquePostIds(ps: seq<Post>)
  {
    forall i, j :: 0 <= i < j < |ps| ==> ps[i].id != ps[j].id
  }

  /** No two comments of one post share an id. */
  predicate UniqueCommentIds(p: Post)
  {
    forall i, j :: 0 <= i < j < |p.comments| ==> p.comments[i].id != p.comments[j].id
  }

  /** The toggles and comment additions keep every post's id in its place. */
  lemma HandlersKeepPostIds(s: State, postId: int, commentId: int, now: int)
    ensures forall t :: t in {HandleLikePost(s, postId), HandleLikeComment(s, postId, commentId),
                              HandleToggleComments(s, postId), HandleAddComment(s, postId, now)} ==>
      |t.posts| == |s.posts| && forall i :: 0 <= i < |s.posts| ==> t.posts[i].id == s.posts[i].id
  {
  }

  /** When the clock value is not already a post id, a new post keeps the
      ids unique. */
  lemma AddPostFreshIdKeepsUnique(s: State, now: int)
    requires UniquePostIds(s.posts)
    requires forall i :: 0 <= i < |s.posts| ==> s.posts[i].id != now
    ensures UniquePostIds(HandleAddPost(s, now).posts)
  {
    var t := HandleAddPost(s, now);
    if t != s {
      forall i, j | 0 <= i < j < |t.posts| ensures t.posts[i].id != t.posts[j].id {
        assert t.posts[j] == s.posts[j - 1];
        if i > 0 {
          assert t.posts[i] == s.posts[i - 1];
        }
      }
    }
  }

  /** The ids come from the clock and nothing checks them: a clock value
      equal to an existing post id yields two posts with that id. */
  lemma AddPostClockCollision(s: State, now: int, k: int)
    requires !IsBlank(s.newPostText)
    requires 0 <= k < |s.posts| && s.posts[k].id == now
    ensures !UniquePostIds(HandleAddPost(s, now).posts)
  {
    var t := HandleAddPost(s, now);
    assert t.posts[k + 1] == s.posts[k];
    assert t.posts[0].id == t.posts[k + 1].id;
  }

  /** When the clock value is not already a comment id of the target post, a
      new comment keeps that post's comment ids unique. */
  lemma AddCommentFreshIdKeepsUnique(s: State, postId: int, now: int)
    requires forall i :: 0 <= i < |s.posts| ==> UniqueCommentIds(s.posts[i])
    requires forall i, j :: 0 <= i < |s.posts| && s.posts[i].id == postId && 0 <= j < |s.posts[i].comments| ==>
      s.posts[i].comments[j].id != now
    ensures var t := HandleAddComment(s, postId, now);
      forall i :: 0 <= i < |t.posts| ==> UniqueCommentIds(t.posts[i])
  {
    var t := HandleAddComment(s, postId, now);
    forall i | 0 <= i < |t.posts| ensures UniqueCommentIds(t.posts[i]) {
      if t != s && s.posts[i].id == postId {
        var cs, ds := s.posts[i].comments, t.posts[i].comments;
        forall a, b | 0 <= a < b < |ds| ensures ds[a].id != ds[b].id {
          assert ds[a] == ds[..|cs|][a];
          if b < |cs| {
            assert ds[b] == ds[..|cs|][b];
          }
        }
      }
    }
  }

  // ------------------------------------------------------- own posts

  /** A new post by the current user raises the profile's post counter by
      exactly one; a blank draft leaves it alone. */
  lemma AddPostOwnCount(s: State, now: int)
    ensures OwnPostCount(HandleAddPost(s, now).posts) ==
      if IsBlank(s.newPostText) then OwnPostCount(s.posts) else OwnPostCount(s.posts) + 1
  {
    var t := HandleAddPost(s, now);
    if !IsBlank(s.newPostText) {
      assert t.posts == [t.posts[0]] + s.posts;
      FilterCons(IsOwnPost, t.posts[0], s.posts);
    }
  }

  /** Toggling likes or the comment panel and adding comments never changes
      the profile's post counter, because no post changes its author. */
  lemma LikePostKeepsOwnCount(s: State, postId: int)
    ensures OwnPostCount(HandleLikePost(s, postId).posts) == OwnPostCount(s.posts)
  {
    FilterLengthPointwise(IsOwnPost, HandleLikePost(s, postId).posts, s.posts);
  }

  lemma LikeCommentKeepsOwnCount(s: State, postId: int, commentId: int)
    ensures OwnPostCount(HandleLikeComment(s, postId, commentId).posts) == OwnPostCount(s.posts)
  {
    FilterLengthPointwise(IsOwnPost, HandleLikeComment(s, postId, commentId).posts, s.posts);
  }

  lemma ToggleCommentsKeepsOwnCount(s: State, postId: int)
    ensures OwnPostCount(HandleToggleComments(s, postId).posts) == OwnPostCount(s.posts)
  {
    FilterLengthPointwise(IsOwnPost, HandleToggleComments(s, postId).posts, s.posts);
  }

  lemma AddCommentKeepsOwnCount(s: State, postId: int, now: int)
    ensures OwnPostCount(HandleAddComment(s, postId, now).posts) == OwnPostCount(s.posts)
  {
    var ps := HandleAddComment(s, postId, now).posts;
    assert |ps| == |s.posts|;
    assert forall i :: 0 <= i < |ps| ==> IsOwnPost(ps[i]) == IsOwnPost(s.posts[i]);
    FilterLengthPointwise(IsOwnPost, ps, s.posts);
  }

  // ------------------------------------------------------------- gate

  /** After logging out, logging in succeeds exactly for non-empty email and
      password; logging out always ends the session. */
  lemma AuthAfterLogout(s: State)
    ensures HandleAuth(Logout(s)).isAuthed <==> s.form.email != "" && s.form.password != ""
    ensures !Logout(HandleAuth(s)).isAuthed
  {
  }

  /** The gate does not trim: a single space as email and as password logs in. */
  lemma AuthAcceptsSpaces(s: State)
    requires s.form.email == " " && s.form.password == " "
    ensures HandleAuth(s).isAuthed
    ensures IsBlank(s.form.email)
  {
    assert s.form.email[0] == ' ';
  }

  // ------------------------------------------------------ blank drafts

  /** Drafts that are empty or made of spaces add no post. */
  lemma AddPostIgnoresSpaces(s: State, now: int)
    requires s.newPostText == "" || s.newPostText == "   "
    ensures HandleAddPost(s, now) == s
  {
    assert s.newPostText == "" || s.newPostText[..] == [' ', ' ', ' '];
  }

  /** A draft with a visible character adds a post. */
  lemma AddPostAcceptsText(s: State, now: int)
    requires s.newPostText == " hello "
    ensures |HandleAddPost(s, now).posts| == |s.posts| + 1
    ensures HandleAddPost(s, now).posts[0].text == " hello "
  {
    assert !IsBlank(s.newPostText) by {
      assert s.newPostText[1] == 'h';
    }
  }
}
