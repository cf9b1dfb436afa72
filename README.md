# Feed store of the social demo page, in Dafny

The page `src/pages/Index.tsx` keeps its whole feed in React state. It holds
the posts with their comments, the post draft, a per-post comment draft, the
search query, the login form and the login flag. Each event handler computes
a new value from the old one and hands it to a setter. This project models
those handlers as total functions from `State` to `State`, and proves what
they promise:

- the like counters always move in step with the like flags;
- the toggles undo themselves;
- an unknown id changes nothing;
- blank drafts are ignored;
- new posts go in front, and new comments go at the end;
- the user search is an order-preserving, case-insensitive filter.

Modules:

- `Text` (text.dfy): JavaScript `trim`, with the exact ECMAScript whitespace set. It also has `toLowerCase` (ASCII and basic Cyrillic letters) and `includes`, with its meaning stated as "occurs at some position".
- `Seqs` (seqs.dfy): `Array.prototype.filter` and the subsequence relation.
- `Feed` (feed.dfy): the `User`, `Comment` and `Post` records, the `State`, and one function per handler.
- `FeedProperties` (feed_properties.dfy): the properties that relate several calls or states.
- `Search` (search.dfy): `filteredUsers`.
- `Seed` (seed.dfy): the demo users, the current user, the initial posts and the initial state, with facts about them.

The clock read `Date.now()` becomes the parameter `now` of `HandleAddComment`
and `HandleAddPost`. The user directory becomes the parameter `users` of
`FilteredUsers` (the page passes `DEMO_USERS`, `Seed.DemoUsers` here).

Points of the code the model keeps as written:

- A new comment records `userId: 0` literally and copies only `currentUser.name` (line 129).
- A non-blank comment draft is reset to `""` even when no post has that id (line 134), so `AddCommentUnknownPostOnlyClearsDraft` states that case as "no post changes, the draft is cleared".
- Ids come from `Date.now()` and are never checked (lines 129, 140). Uniqueness is proved only for a fresh `now`, and `AddPostClockCollision` shows the duplicate a repeated clock value produces.
- The file has no dialog, chat or profile-editing handlers; `MESSAGES` (lines 77-81) is a constant no handler touches.

## Model

| member | source | states |
|---|---|---|
| Text.TrimStart | src/pages/Index.tsx:124 | the result is the longest suffix of the input that does not start with JavaScript whitespace; everything dropped is whitespace |
| Text.TrimEnd | src/pages/Index.tsx:138 | the result is the longest prefix of the input that does not end with JavaScript whitespace; everything dropped is whitespace |
| Text.Trim | src/pages/Index.tsx:124 | `s.trim()` is no longer than `s`, has no whitespace at either end, and is empty exactly when every character of `s` is whitespace |
| Text.TrimBothEnds | src/pages/Index.tsx:138 | trimming the start and then the end leaves no whitespace at either end, and nothing exactly when the input is all whitespace |
| Text.IsBlank | src/pages/Index.tsx:124 | `!s.trim()` holds exactly when every character of `s` is whitespace, so `""` is blank (used at lines 124 and 138) |
| Text.LowerChar | src/pages/Index.tsx:148-149 | the lowered character is never a capital and everything else is kept; A-Z and U+0410-U+042F (А-Я) become the letter 0x20 above, U+0400-U+040F (Ѐ-Џ) the letter 0x50 above, so ASCII capitals become ASCII small letters |
| Text.Lower | src/pages/Index.tsx:148-149 | `toLowerCase` keeps the length and lowers each character in place by `LowerChar`, so no capital is left, every capital changes and every other character is kept |
| Text.LowerIdempotent | src/pages/Index.tsx:148-149 | lowering twice is lowering once |
| Text.ContainsStep | src/pages/Index.tsx:148 | a string occurs in `h` exactly when it is a prefix of `h` or occurs in the rest of `h` |
| Text.Includes | src/pages/Index.tsx:148-149 | `h.includes(n)` is true exactly when `n` occurs at some position of `h` |
| Text.IncludesEmpty | src/pages/Index.tsx:148 | every string includes the empty string |
| Text.IncludesFirstChar | src/pages/Index.tsx:148 | whatever a string includes starts with one of its characters |
| Seqs.Filter | src/pages/Index.tsx:147 | the result is no longer than the input, holds exactly the input elements that satisfy the predicate, and holds each kept value as many times as the input does |
| Seqs.FilterIsSubsequence | src/pages/Index.tsx:147 | `filter` keeps input order: its result is a subsequence of the input |
| Seqs.FilterAll | src/pages/Index.tsx:147 | if every element satisfies the predicate, `filter` returns the input unchanged |
| Seqs.FilterCons | src/pages/Index.tsx:401 | filtering with one element in front adds that element in front exactly when it is kept |
| Seqs.FilterLengthPointwise | src/pages/Index.tsx:401 | sequences that agree position by position on the predicate keep equally many elements |
| Seqs.FilterSnoc | src/pages/Index.tsx:401 | filtering with one element at the back adds that element at the back exactly when it is kept |
| Seqs.FilterCount | src/pages/Index.tsx:401 | `filter` keeps as many elements as there are input positions whose element satisfies the predicate |
| Feed.FlipLike | src/pages/Index.tsx:101 | the flag is negated and the count without the viewer's own like is unchanged, so the count moves by one towards the flag |
| Feed.LikeCountOkIffBase | src/pages/Index.tsx:110 | `likes >= 0 && (liked ==> likes >= 1)` is the same as a non-negative base count, and a toggle keeps it |
| Feed.HandleLikePost | src/pages/Index.tsx:99-103 | posts with the id have their like toggled and no other field changed; the other posts, the order, the length and the rest of the state are unchanged |
| Feed.HandleLikeComment | src/pages/Index.tsx:105-114 | inside posts with the post id, comments with the comment id have their like toggled. Every post keeps all fields but `comments` and its number of comments; other posts and other comments are unchanged |
| Feed.HandleToggleComments | src/pages/Index.tsx:116-120 | posts with the id have only `showComments` negated; all else is unchanged |
| Feed.HandleAddComment | src/pages/Index.tsx:122-135 | a missing or blank draft leaves the state unchanged. Otherwise each post with the id gets one comment at the end: id `now`, user 0, the current user's name, the untrimmed draft, 0 likes, not liked. Old comments stay as a prefix, other posts are unchanged, and the draft becomes `""` |
| Feed.HandleAddPost | src/pages/Index.tsx:137-145 | a blank draft leaves the state unchanged. Otherwise a post goes in front of the old posts: id `now`, user 0, the current user's name and username, the untrimmed text, time label "только что", 0 likes, not liked, no comments, panel closed. The draft becomes `""` |
| Feed.HandleAuth | src/pages/Index.tsx:94-97 | the flag becomes true exactly when it was true or both email and password are non-empty (no trimming); nothing else changes |
| Feed.Logout | src/pages/Index.tsx:261 | both logout buttons (also line 539) clear the flag and change nothing else |
| Feed.OwnPosts | src/pages/Index.tsx:401 | the profile's posts are exactly the posts of user 0, each as many times as in the feed, in feed order |
| Feed.OwnPostCount | src/pages/Index.tsx:401 | the profile counter is the number of feed positions holding a post by user 0; so it is at most the feed length, zero exactly when user 0 has no post, and the feed length when every post is by user 0 |
| Feed.OwnPostsCount | src/pages/Index.tsx:401 | the profile lists one post per feed position holding a post by user 0 |
| FeedProperties.LikePostUnknownIsNoOp | src/pages/Index.tsx:99-103 | liking an id no post has leaves the state equal to before |
| FeedProperties.LikeCommentUnknownIsNoOp | src/pages/Index.tsx:105-114 | an unknown post id, or a comment id absent from the matching posts, leaves the state equal to before |
| FeedProperties.ToggleCommentsUnknownIsNoOp | src/pages/Index.tsx:116-120 | toggling the panel of an unknown id leaves the state equal to before |
| FeedProperties.AddCommentUnknownPostOnlyClearsDraft | src/pages/Index.tsx:122-135 | adding a comment to an unknown post changes no post; it only resets a non-blank draft |
| FeedProperties.LikePostTwice | src/pages/Index.tsx:99-103 | liking a post twice gives back the original state |
| FeedProperties.LikeCommentTwice | src/pages/Index.tsx:105-114 | liking a comment twice gives back the original state |
| FeedProperties.ToggleCommentsTwice | src/pages/Index.tsx:116-120 | toggling the panel twice gives back the original state |
| FeedProperties.LikePostKeepsFeedOk | src/pages/Index.tsx:101 | liking a post keeps every counter of the feed consistent |
| FeedProperties.LikeCommentKeepsFeedOk | src/pages/Index.tsx:110 | liking a comment keeps every counter of the feed consistent |
| FeedProperties.ToggleCommentsKeepsFeedOk | src/pages/Index.tsx:116-120 | toggling a panel keeps every counter of the feed consistent |
| FeedProperties.AddCommentKeepsFeedOk | src/pages/Index.tsx:122-135 | adding a comment keeps every counter of the feed consistent |
| FeedProperties.AddPostKeepsFeedOk | src/pages/Index.tsx:137-145 | adding a post keeps every counter of the feed consistent |
| FeedProperties.HandlersKeepPostIds | src/pages/Index.tsx:99-135 | the toggles and comment additions keep the number and the ids of the posts, position by position |
| FeedProperties.AddPostFreshIdKeepsUnique | src/pages/Index.tsx:139-143 | with unique post ids and a clock value that is no post id, adding a post keeps the ids unique |
| FeedProperties.AddPostClockCollision | src/pages/Index.tsx:140 | a clock value equal to an existing post id yields two posts with that id |
| FeedProperties.AddCommentFreshIdKeepsUnique | src/pages/Index.tsx:128-129 | with unique comment ids in each post and a clock value that is no comment id of the target post, comment ids stay unique in each post |
| FeedProperties.AddPostOwnCount | src/pages/Index.tsx:401 | adding a post raises the profile's post count by exactly one, and a blank draft leaves it |
| FeedProperties.LikePostKeepsOwnCount | src/pages/Index.tsx:401 | liking a post does not change the profile's post count |
| FeedProperties.LikeCommentKeepsOwnCount | src/pages/Index.tsx:401 | liking a comment does not change the profile's post count |
| FeedProperties.ToggleCommentsKeepsOwnCount | src/pages/Index.tsx:401 | toggling a panel does not change the profile's post count |
| FeedProperties.AddCommentKeepsOwnCount | src/pages/Index.tsx:401 | adding a comment does not change the profile's post count |
| FeedProperties.AuthAfterLogout | src/pages/Index.tsx:94-97 | after a logout, login succeeds exactly for non-empty email and password; a logout after login always ends the session |
| FeedProperties.AuthAcceptsSpaces | src/pages/Index.tsx:95 | a single space as email and as password logs in, although it is blank after trimming |
| FeedProperties.AddPostIgnoresSpaces | src/pages/Index.tsx:138 | drafts `""` and `"   "` leave the state unchanged |
| FeedProperties.AddPostAcceptsText | src/pages/Index.tsx:137-145 | the draft `" hello "` adds one post carrying that text untrimmed |
| Search.FilteredUsers | src/pages/Index.tsx:147-150 | the result is an order-preserving subsequence of the directory, and holds each user exactly as many times as the directory does when the lowered query occurs in the lowered name or username, and never otherwise |
| Search.Matches | src/pages/Index.tsx:148-149 | the filter callback holds exactly when the lowered query occurs in the lowered name or the lowered username |
| Search.EmptyQueryListsEveryone | src/pages/Index.tsx:147-150 | the empty query returns the whole directory in order |
| Search.SearchIgnoresQueryCase | src/pages/Index.tsx:148-149 | queries that lower to the same string give the same result |
| Seed.InitialFeedOk | src/pages/Index.tsx:42-92 | about the constants `DemoUsers`, `CurrentUser`, `InitialPosts` and `InitialState`, which transcribe lines 42-46, 87, 48-75 and 84-92: the seed feed has consistent counters, unique post ids and unique comment ids per post. No post is by user 0, and the page starts logged out |
| Seed.SearchEmptyListsAll | src/pages/Index.tsx:42-46 | the initial empty query lists all three demo users in order |
| Seed.SearchMaria | src/pages/Index.tsx:42-46 | "maria" and "MARIA" both find exactly the user Мария Сова |

## Left out

- Rendering, styling and navigation: the JSX, the `page` enum with `setPage`, and the `authMode` login/register switch. These are presentation.
- The input `onChange` setters for the post draft, the comment drafts, the search query and the form (lines 281, 360, 480 and the form inputs). Each replaces one field with the typed value. In the model these fields are simply part of `State`.
- `Date.now()` is a clock read, so it becomes the parameter `now`. The time label of a new post is the constant `"только что"`.
- HandleAddComment: at line 129 `Date.now()` is called inside the `map` callback, so when several posts share the id the source reads the clock once per matching post and the new comments may get different ids. The model gives all of them the one value `now`.
- React's batching and closure semantics: handlers are applied one at a time, each to the state the previous one produced.
- JavaScript numbers are modelled as unbounded integers, with no floating point or precision limits.
- The avatar-initials expression and `toLocaleString` (lines 298, 334, 445, 491, 496) are display formatting.
- `MESSAGES`, the follow button and the settings entries have no handlers, so no behaviour is invented for them.
- The components `Icon`, `Avatar`, `Button`, `Input`, `Textarea` and `Separator` from `@/components/ui` are not part of this model.
- LowerChar: covers only ASCII A-Z and the Cyrillic capitals U+0400-U+042F, which include every letter in the demo data. Other letters, such as Latin-1, Greek or extended Cyrillic, stay unchanged here, although `toLowerCase` would lower them. Its special cases that change the string length (such as U+0130) are not modelled either.
