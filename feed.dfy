/**
 The in-memory feed store of the single-page social demo: the records it
 holds and the event handlers that replace the whole state with a new value.
 Every handler is a total function from the old state to the new one; an
 unknown id or a blank draft makes it return the old state (or, for a
 comment, only clear the draft).
 */
module Feed {
  import opened Text
  import opened Seqs

  datatype User = User(id: int, name: string, username: string, bio: string, followers: int, following: int)

  datatype Comment = Comment(id: int, userId: int, userName: string, text: string, likes: int, liked: bool)

  datatype Post = Post(
    id: int, userId: int, userName: string, userUsername: string, text: string, time: string,
    likes: int, liked: bool, comments: seq<Comment>, showComments: bool)

  /** The login / registration form fields. */
  datatype AuthForm = AuthForm(name: string, email: string, password: string)

  /** Everything the handlers read or write. `newComment` is the per-post
      comment draft; a post id with no entry has no draft. */
  datatype State = State(
    isAuthed: bool, currentUser: User, posts: seq<Post>, newPostText: string,
    newComment: map<int, string>, searchQuery: string, form: AuthForm)

  // ---------------------------------------------------------------- likes

  /** The count a like counter would show without the viewer's own like. */
  function BaseLikes(likes: int, liked: bool): int
  {
    if liked then likes - 1 else likes
  }

  /** The toggle rule shared by posts and comments, on the pair (likes, liked). */
  function FlipLike(likes: int, liked: bool): (r: (int, bool))
    ensures r.1 == !liked
    ensures BaseLikes(r.0, r.1) == BaseLikes(likes, liked)
  {
    (if liked then likes - 1 else likes + 1, !liked)
  }

  /** A counter/flag pair is consistent: never negative, and at least one
      when the viewer's own like is set. */
  predicate LikeCountOk(likes: int, liked: bool)
  {
    likes >= 0 && (liked ==> likes >= 1)
  }

  /** Consistency is the same as a non-negative base count, which toggling
      keeps; so toggling keeps consistency. */
  lemma LikeCountOkIffBase(likes: int, liked: bool)
    ensures LikeCountOk(likes, liked) <==> BaseLikes(likes, liked) >= 0
    ensures var r := FlipLike(likes, liked); LikeCountOk(r.0, r.1) <==> LikeCountOk(likes, liked)
  {
  }

  /** `q` is `p` with its like toggled and nothing else touched. */
  predicate PostLikeToggled(p: Post, q: Post)
  {
    q.liked == !p.liked && BaseLikes(q.likes, q.liked) == BaseLikes(p.likes, p.liked)
    && q == p.(likes := q.likes, liked := q.liked)
  }

  /** `d` is `c` with its like toggled and nothing else touched. */
  predicate CommentLikeToggled(c: Comment, d: Comment)
  {
    d.liked == !c.liked && BaseLikes(d.likes, d.liked) == BaseLikes(c.likes, c.liked)
    && d == c.(likes := d.likes, liked := d.liked)
  }

  function ToggleLikeOfPost(p: Post): Post
  {
    var r := FlipLike(p.likes, p.liked);
    p.(likes := r.0, liked := r.1)
  }

  function ToggleLikeOfComment(c: Comment): Comment
  {
    var r := FlipLike(c.likes, c.liked);
    c.(likes := r.0, liked := r.1)
  }

  /** `handleLikePost`: every post with the given id has its like toggled;
      all other posts, their order and the rest of the state stay as they were. */
  function HandleLikePost(s: State, postId: int): (t: State)
    ensures t == s.(posts := t.posts)
    ensures |t.posts| == |s.posts|
    ensures forall i :: 0 <= i < |s.posts| && s.posts[i].id == postId ==> PostLikeToggled(s.posts[i], t.posts[i])
    ensures forall i :: 0 <= i < |s.posts| && s.posts[i].id != postId ==> t.posts[i] == s.posts[i]
  {
    s.(posts := seq(|s.posts|, i requires 0 <= i < |s.posts| =>
      if s.posts[i].id == postId then ToggleLikeOfPost(s.posts[i]) else s.posts[i]))
  }

  /** The comments of `p` after toggling the like of every comment with the given id. */
  function ToggleLikeIn(cs: seq<Comment>, commentId: int): seq<Comment>
  {
    seq(|cs|, j requires 0 <= j < |cs| =>
      if cs[j].id == commentId then ToggleLikeOfComment(cs[j]) else cs[j])
  }

  /** `handleLikeComment`: inside the posts with id `postId`, every comment
      with id `commentId` has its like toggled. Posts keep their number,
      their order, every field other than `comments`, and the length of
      their comment sequence; other posts and other comments are untouched. */
  function HandleLikeComment(s: State, postId: int, commentId: int): (t: State)
    ensures t == s.(posts := t.posts)
    ensures |t.posts| == |s.posts|
    ensures forall i :: 0 <= i < |s.posts| ==>
      t.posts[i] == s.posts[i].(comments := t.posts[i].comments)
      && |t.posts[i].comments| == |s.posts[i].comments|
    ensures forall i :: 0 <= i < |s.posts| && s.posts[i].id != postId ==> t.posts[i] == s.posts[i]
    ensures forall i, j :: 0 <= i < |s.posts| && s.posts[i].id == postId && 0 <= j < |s.posts[i].comments| ==>
      if s.posts[i].comments[j].id == commentId
      then CommentLikeToggled(s.posts[i].comments[j], t.posts[i].comments[j])
      else t.posts[i].comments[j] == s.posts[i].comments[j]
  {
    s.(posts := seq(|s.posts|, i requires 0 <= i < |s.posts| =>
      if s.posts[i].id == postId
      then s.posts[i].(comments := ToggleLikeIn(s.posts[i].comments, commentId))
      else s.posts[i]))
  }

  /** `handleToggleComments`: every post with the given id has its comment
      panel flag negated and nothing else changes. */
  function HandleToggleComments(s: State, postId: int): (t: State)
    ensures t == s.(posts := t.posts)
    ensures |t.posts| == |s.posts|
    ensures forall i :: 0 <= i < |s.posts| && s.posts[i].id == postId ==>
      t.posts[i] == s.posts[i].(showComments := !s.posts[i].showComments)
    ensures forall i :: 0 <= i < |s.posts| && s.posts[i].id != postId ==> t.posts[i] == s.posts[i]
  {
    s.(posts := seq(|s.posts|, i requires 0 <= i < |s.posts| =>
      if s.posts[i].id == postId then s.posts[i].(showComments := !s.posts[i].showComments) else s.posts[i]))
  }

  // ------------------------------------------------------- new content

  /** The comment `handleAddComment` appends: written by user 0 under the
      current user's name, carrying the draft as typed, with no likes. */
  function DraftComment(s: State, now: int, text: string): Comment
  {
    Comment(now, 0, s.currentUser.name, text, 0, false)
  }

  /** `handleAddComment`: a missing or blank draft changes nothing. Otherwise
      the draft, untrimmed, is appended to the comments of every post with
      that id (the model gives them all the one clock value `now`), the earlier
      comments stay in front, other posts are untouched, and the draft is
      reset to the empty string, even when no post has that id. */
  function HandleAddComment(s: State, postId: int, now: int): (t: State)
    ensures postId !in s.newComment || IsBlank(s.newComment[postId]) ==> t == s
    ensures postId in s.newComment && !IsBlank(s.newComment[postId]) ==>
      t == s.(posts := t.posts, newComment := s.newComment[postId := ""])
      && |t.posts| == |s.posts|
      && (forall i :: 0 <= i < |s.posts| && s.posts[i].id != postId ==> t.posts[i] == s.posts[i])
      && (forall i :: 0 <= i < |s.posts| && s.posts[i].id == postId ==>
            t.posts[i] == s.posts[i].(comments := t.posts[i].comments)
            && |t.posts[i].comments| == |s.posts[i].comments| + 1
            && t.posts[i].comments[..|s.posts[i].comments|] == s.posts[i].comments
            && t.posts[i].comments[|s.posts[i].comments|] == DraftComment(s, now, s.newComment[postId]))
  {
    if postId !in s.newComment || IsBlank(s.newComment[postId]) then s
    else
      var c := DraftComment(s, now, s.newComment[postId]);
      s.(posts := seq(|s.posts|, i requires 0 <= i < |s.posts| =>
           if s.posts[i].id == postId then s.posts[i].(comments := s.posts[i].comments + [c]) else s.posts[i]),
         newComment := s.newComment[postId := ""])
  }

  /** The post `handleAddPost` creates from the draft text. */
  function DraftPost(s: State, now: int): Post
  {
    Post(now, 0, s.currentUser.name, s.currentUser.username, s.newPostText, "только что", 0, false, [], false)
  }

  /** `handleAddPost`: a blank draft changes nothing. Otherwise a new post by
      user 0 with the untrimmed draft text, no likes, no comments and a
      closed comment panel goes in front of the old posts, and the draft is
      cleared. */
  function HandleAddPost(s: State, now: int): (t: State)
    ensures IsBlank(s.newPostText) ==> t == s
    ensures !IsBlank(s.newPostText) ==>
      t == s.(posts := t.posts, newPostText := "")
      && |t.posts| == |s.posts| + 1
      && t.posts[1..] == s.posts
      && var p := t.posts[0];
         p.id == now && p.userId == 0 && p.userName == s.currentUser.name
         && p.userUsername == s.currentUser.username && p.text == s.newPostText
         && p.time == "только что"
         && p.likes == 0 && !p.liked && p.comments == [] && !p.showComments
  {
    if IsBlank(s.newPostText) then s
    else s.(posts := [DraftPost(s, now)] + s.posts, newPostText := "")
  }

  // ---------------------------------------------------------- the gate

  /** `handleAuth`: non-empty email and password (no trimming) log in;
      otherwise the flag is kept. Nothing else changes. */
  function HandleAuth(s: State): (t: State)
    ensures t == s.(isAuthed := t.isAuthed)
    ensures t.isAuthed <==> s.isAuthed || (s.form.email != "" && s.form.password != "")
  {
    if s.form.email == "" || s.form.password == "" then s else s.(isAuthed := true)
  }

  /** The two logout buttons: `setIsAuthed(false)`. */
  function Logout(s: State): (t: State)
    ensures !t.isAuthed && t == s.(isAuthed := t.isAuthed)
  {
    s.(isAuthed := false)
  }

  // -------------------------------------------------------- own posts

  predicate IsOwnPost(p: Post)
  {
    p.userId == 0
  }

  /** `posts.filter(p => p.userId === 0)`, shown on the profile page. */
  function OwnPosts(ps: seq<Post>): (r: seq<Post>)
    ensures forall p :: p in r <==> p in ps && p.userId == 0
    ensures forall p :: multiset(r)[p] == if p.userId == 0 then multiset(ps)[p] else 0
    ensures IsSubsequence(r, ps)
  {
    FilterIsSubsequence(IsOwnPost, ps);
    Filter(IsOwnPost, ps)
  }

  /** The profile's post counter: the number of positions of the feed that
      hold a post by user 0. */
  function OwnPostCount(ps: seq<Post>): (n: nat)
    ensures n == |set i | 0 <= i < |ps| && ps[i].userId == 0|
    ensures n <= |ps|
    ensures n == 0 <==> forall i :: 0 <= i < |ps| ==> ps[i].userId != 0
    ensures (forall i :: 0 <= i < |ps| ==> ps[i].userId == 0) ==> n == |ps|
  {
    OwnPostsCount(ps);
    if forall i :: 0 <= i < |ps| ==> ps[i].userId == 0 then FilterAll(IsOwnPost, ps); |OwnPosts(ps)|
    else |OwnPosts(ps)|
  }

  /** The profile page lists one post for each position of the feed that
      holds a post by user 0. */
  lemma OwnPostsCount(ps: seq<Post>)
    ensures |OwnPosts(ps)| == |set i | 0 <= i < |ps| && ps[i].userId == 0|
  {
    var own: Post -> bool := IsOwnPost;
    FilterCount(own, ps);
    assert PositionsWhere(own, ps) == set i | 0 <= i < |ps| && ps[i].userId == 0;
    assert OwnPosts(ps) == Filter(own, ps);
  }
}
