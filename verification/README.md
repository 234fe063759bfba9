# ConnectSphere posts: a Dafny model

ConnectSphere is a small social feed. The server keeps posts in a document
store. It lets anyone list all posts or one author's posts, newest first. A
signed-in user can create a post, with an optional image upload. The author
may edit or delete their own post. Any signed-in user can like or unlike any
post. The browser client keeps a working copy of the list in a state
container. It narrows the list by a search text on the feed page, shows each
post as a card with edit, delete and like controls, and offers a composer for
new posts.

The model has one Dafny module per source file:

- `Types` holds the user and the post view sent to clients (types.ts).
- `PostController` is the post service. `PostStore` is a class whose field
  `posts` is a map from post id to stored document, and whose methods change
  it as the handlers do.
- `PostRoutes` holds the routes, the `protect` guard, the image-upload filter
  (`checkFileType` over `path.extname`) and the stored-file naming rule.
- `AppContext` is the client container. `AppProvider` is a class with the
  signed-in user, the post list, the loading flag, the search text and the
  stored token. A ghost log `calls` records every request sent to the server.
- `FeedPage` is the search filter and the empty-feed notice.
- `PostCard` covers ownership, the heart and like label, and the edit, delete
  and like handlers.
- `CreatePostForm` is the composer: the draft, the chosen image, the preview
  and the submit handler.
- The helper modules `Seqs`, `Text` and `NewestFirst` hold JavaScript's
  `filter`, `toLowerCase`, `includes` and `trim`, decimal rendering of
  numbers, and the newest-first ordering. Server and client share that ordering.

Nothing outside the model's state is built in. Every input from outside comes
in as a parameter:

- the server's answer to each client call (`Fetch<T>`: a value or an error);
- the store's fresh id, its listing order and the clock;
- the identity that `protect` resolved;
- the answer to the confirmation dialog.

Alerts come back as return values.

## Model

| member | source | states |
|---|---|---|
| NewestFirst.Sort | contexts/AppContext.tsx:35 | the result is ordered by creation time, newest first, and is a permutation of the input |
| NewestFirst.SortSortedIsIdentity | contexts/AppContext.tsx:35 | re-sorting a list the server already sent newest first changes nothing, because the sort is stable |
| NewestFirst.SortMembers | backend/controllers/postController.js:21 | sorting keeps exactly the same entries |
| NewestFirst.FilterKeepsSorted | pages/FeedPage.tsx:9-11 | removing entries from a newest-first list leaves it newest first |
| NewestFirst.FilterSort | contexts/AppContext.tsx:35 | filtering a sorted list equals sorting the filtered list: the sort is stable, so entries of equal time keep their relative order |
| Text.TrimEmptyIff | components/CreatePostForm.tsx:36 | `trim()` gives the empty string exactly when every character is white space |
| Text.NatToStringRoundTrip | backend/routes/postRoutes.js:22 | the decimal rendering of a number reads back as that number |
| PostController.FormatPostRoundTrip | backend/controllers/postController.js:5-15 | the view copies every stored field unchanged and adds only the id and the author's name |
| PostController.Without | backend/controllers/postController.js:119 | unliking keeps exactly the likers other than the caller |
| PostController.ToggleFlipsOnlyCaller | backend/controllers/postController.js:114-123 | a toggle flips the caller's like and no one else's |
| PostController.WithoutAbsent | backend/controllers/postController.js:119 | removing a user who has not liked changes nothing |
| PostController.WithoutAppended | backend/controllers/postController.js:119-122 | removing a user right after appending them removes the appended entry too |
| PostController.WithoutPresentLength | backend/controllers/postController.js:119 | on a list without duplicates, unliking removes exactly one entry |
| PostController.ToggleKeepsNoDup | backend/controllers/postController.js:115-123 | a toggle keeps a like list free of duplicates |
| PostController.ToggleCount | backend/controllers/postController.js:115-123 | on a list without duplicates, a toggle changes the like count by exactly one, down if liked, up if not |
| PostController.ToggleTwiceSameMembers | backend/controllers/postController.js:115-123 | two toggles by one user give back the same set of likers |
| PostController.ToggleTwiceFromUnliked | backend/controllers/postController.js:115-123 | like then unlike gives back exactly the original list |
| PostController.ByAuthor | backend/controllers/postController.js:29 | the author query selects exactly the ids of that author's posts, without repeats |
| PostController.ListingFacts | backend/controllers/postController.js:21-22 | the sorted listing holds every listed post once, each as its formatted document, newest first |
| PostController.PostStore.GetPosts | backend/controllers/postController.js:20-23 | 200 with every stored post exactly once, formatted, newest first |
| PostController.PostStore.GetPostsByUser | backend/controllers/postController.js:28-31 | 200 with exactly that author's posts, each once, formatted, newest first |
| PostController.RowsByAuthor | backend/controllers/postController.js:29 | the rows of one author's posts are the full rows restricted to that author, in the same order |
| PostController.ByUserIsFilteredListing | backend/controllers/postController.js:20-31 | one author's listing is exactly the full listing restricted to that author, in the same order |
| PostController.PostStore.CreatePost | backend/controllers/postController.js:36-56 | a falsy text gives 400 and stores nothing; otherwise one new post by the caller, with `/uploads/<file>` exactly when a file was stored, no likes, and 201 with its view |
| PostController.PostStore.UpdatePost | backend/controllers/postController.js:61-80 | 400 for a missing post and 401 for a non-author, both with the store unchanged; otherwise only that post's text changes, and only to a truthy new text |
| PostController.PostStore.DeletePost | backend/controllers/postController.js:85-101 | the same 400 and 401 checks; otherwise exactly that post is removed and the reply names its id |
| PostController.PostStore.ToggleLike | backend/controllers/postController.js:106-129 | 404 for a missing post; otherwise only that post's like list is toggled for the caller |
| PostRoutes.Ext | backend/routes/postRoutes.js:29 | the extension is a slash-free suffix of the path that starts with its only dot; it is shorter than the basename when present, and empty only for `..` or a basename with no dot after its first character |
| PostRoutes.ExtFromLastDot | backend/routes/postRoutes.js:29 | when the basename's last dot is not its first character, the extension is the basename from that dot on (so `a.tar.png` gives `.png`) |
| PostRoutes.EmptyExtensionRejected | backend/routes/postRoutes.js:27-37 | a file without an extension is never admitted |
| PostRoutes.UpperCaseExtensionAdmitted | backend/routes/postRoutes.js:29 | the extension is lower-cased before the test, so `photo.PNG` with `image/png` passes |
| PostRoutes.UpperCaseMimeTypeRejected | backend/routes/postRoutes.js:30 | the MIME type is not lower-cased, so `image/PNG` is refused |
| PostRoutes.UnanchoredMatch | backend/routes/postRoutes.js:28-30 | the pattern is unanchored, so `scan.xpngx` with `text/x-png-notes` passes |
| PostRoutes.AdmittedName | backend/routes/postRoutes.js:27-33 | a dot-free stem with one extension is admitted whenever the lower-cased extension and the MIME type both contain `png` |
| PostRoutes.StoredFilenameKeepsExtension | backend/routes/postRoutes.js:19-23 | the stored name keeps the upload's extension, so it passes the filter exactly when the upload did |
| PostRoutes.StoredFilenameShape | backend/routes/postRoutes.js:19-23 | the stored name starts with the field name and a dash and ends with the upload's extension |
| PostRoutes.StoredFilenameHasNoSlash | backend/routes/postRoutes.js:22 | the stored name is a single path segment |
| PostRoutes.UploadUrlKeepsExtension | backend/controllers/postController.js:48-50 | the image URL recorded on a post ends in the upload's own extension |
| PostRoutes.Dispatch | backend/routes/postRoutes.js:46-52 | guarded routes without an identity are refused; with an identity every request except a create with a refused image reaches its handler; the list routes return exactly `getPosts`' and `getPostsByUser`'s reply and leave the store alone; create, update, delete and like give their handler's reply and new store, stated against the store before the request (400/401/404 with nothing changed, otherwise the one post added, re-texted, removed or toggled); a refused image leaves the store unchanged; a created post's URL keeps the upload's extension |
| AppContext.ReplaceByIdPatches | contexts/AppContext.tsx:79-81 | patching by id keeps length and order; entries with that id become the server's post and every other entry stays in place |
| AppContext.ReplaceAbsentId | contexts/AppContext.tsx:79-81 | patching an id the list does not hold changes nothing |
| AppContext.ReplaceByIdKeepsIds | contexts/AppContext.tsx:79-81 | patching with a post of the same id keeps ids distinct, and doing it twice is the same as once |
| AppContext.RemoveByIdKeepsOthers | contexts/AppContext.tsx:86 | removal keeps exactly the posts with another id, in their order |
| AppContext.RemoveAfterReplace | contexts/AppContext.tsx:77-87 | deleting a post after updating it leaves the same list as deleting it alone |
| AppContext.AppProvider.constructor | contexts/AppContext.tsx:27-30 | no user, no posts, loading, empty search, and the token from earlier visits |
| AppContext.AppProvider.SetSearchQuery | contexts/AppContext.tsx:30 | the search text becomes the query |
| AppContext.AppProvider.FetchPosts | contexts/AppContext.tsx:32-40 | on success the list becomes the fetched posts newest first; on failure the list is kept and the error is swallowed |
| AppContext.AppProvider.Initialize | contexts/AppContext.tsx:42-50 | without a non-empty token: no request and no user; a rejected token is dropped; a resolved user gets a refetch; loading ends off |
| AppContext.AppProvider.Login | contexts/AppContext.tsx:52-56 | a failure changes nothing; success sets the user, stores a non-empty token and refetches |
| AppContext.AppProvider.Signup | contexts/AppContext.tsx:58-63 | a failure changes nothing; success sets the user, stores a non-empty token and empties the list without a fetch |
| AppContext.AppProvider.Logout | contexts/AppContext.tsx:65-69 | clears the token, the user and the list |
| AppContext.AppProvider.CreatePost | contexts/AppContext.tsx:71-75 | with no user it is refused and nothing is sent; otherwise the text is sent as given, and a success triggers a full refetch |
| AppContext.AppProvider.UpdatePost | contexts/AppContext.tsx:77-82 | on success, entries with that id become the server's post; on failure the list is kept |
| AppContext.AppProvider.DeletePost | contexts/AppContext.tsx:84-87 | on success, entries with that id are removed; on failure the list is kept |
| AppContext.AppProvider.ToggleLike | contexts/AppContext.tsx:89-94 | on success, entries with that id become the server's post; on failure the list is kept |
| AppContext.AppProvider.GetPostsByUser | contexts/AppContext.tsx:100-103 | returns the author's posts newest first, as a permutation of what the server sent; the shared list is not touched |
| FeedPage.FilteredPostsAreTheMatches | pages/FeedPage.tsx:9-11 | the feed shows exactly the posts whose lower-cased text includes the lower-cased query, in list order |
| FeedPage.EmptyQueryShowsAll | pages/FeedPage.tsx:9-11 | an empty search shows the whole list |
| FeedPage.QueryCaseIgnored | pages/FeedPage.tsx:10 | a query and its lower-cased form select the same posts |
| FeedPage.SearchIdempotent | pages/FeedPage.tsx:9-11 | searching the shown posts again with the same query changes nothing |
| FeedPage.SearchKeepsNewestFirst | pages/FeedPage.tsx:9-11 | the shown posts of a newest-first list are newest first |
| FeedPage.Notice | pages/FeedPage.tsx:20-27 | a notice appears exactly when nothing is shown; it is the no-match notice, naming the query, exactly when there is a query |
| FeedPage.NoPostsYetMeansEmptyList | pages/FeedPage.tsx:20-27 | "no posts yet" appears exactly when there is no search and the list is empty |
| PostCard.LikeLabel | components/PostCard.tsx:118 | "Like" exactly for zero likes; otherwise it is the count's decimal digits followed by " Like" for one and " Likes" for more; it ends in "s" exactly for more than one |
| PostCard.LikeLabelInjective | components/PostCard.tsx:118 | two different counts never show the same label |
| PostCard.OwnerIsStoredAuthor | components/PostCard.tsx:19 | the edit and delete controls appear exactly for a signed-in user who is the stored post's author, the one caller the server's 401 check lets through; never when signed out |
| PostCard.LikedIsStoredLiker | components/PostCard.tsx:20 | the heart is filled exactly for a signed-in user among the stored post's likers |
| PostCard.HeartFollowsToggle | components/PostCard.tsx:20 | once the server has applied a user's toggle, the heart shown to that user is the opposite of before |
| PostCard.PostCardState.constructor | components/PostCard.tsx:14-16 | the editor is closed, the draft is the post's text, and no delete is pending |
| PostCard.PostCardState.ToggleEditor | components/PostCard.tsx:80-84 | only the author can open or close the editor |
| PostCard.PostCardState.EditText | components/PostCard.tsx:96 | the draft becomes the typed text |
| PostCard.PostCardState.CancelEdit | components/PostCard.tsx:101 | closes the editor |
| PostCard.PostCardState.Remount | App.tsx:21-62 | a change of the container's state mounts the card anew with the list's current entry for its id: editor closed, draft equal to that entry's text, no delete pending |
| PostCard.PostCardState.HandleUpdate | components/PostCard.tsx:39-52 | an edit whose trimmed draft equals the trimmed text of the card's post closes the editor without a request; otherwise the untrimmed draft is sent, the editor closes on success, and a failure alerts and keeps it open |
| PostCard.PostCardState.HandleDelete | components/PostCard.tsx:26-37 | only the author, and only after confirming, sends the delete; a failure alerts; the button is usable again afterwards |
| PostCard.PostCardState.HandleLike | components/PostCard.tsx:22-24 | sends the toggle; the list is patched on success and a failure is not reported |
| CreatePostForm.CreatePostFormState.constructor | components/CreatePostForm.tsx:7-10 | empty draft, no image, no preview, not submitting |
| CreatePostForm.CreatePostFormState.SubmitEnabled | components/CreatePostForm.tsx:91 | the Post button is enabled exactly when nothing is in flight and the draft has a non-space character |
| CreatePostForm.CreatePostFormState.EditText | components/CreatePostForm.tsx:62 | the draft becomes the typed text |
| CreatePostForm.CreatePostFormState.ChooseImage | components/CreatePostForm.tsx:14-17 | the first chosen file, if any, becomes the image |
| CreatePostForm.CreatePostFormState.PreviewLoaded | components/CreatePostForm.tsx:18-22 | the file reader's data URL becomes the preview |
| CreatePostForm.CreatePostFormState.RemoveImage | components/CreatePostForm.tsx:26-32 | forgets the image and its preview and changes nothing else |
| CreatePostForm.CreatePostFormState.HandleSubmit | components/CreatePostForm.tsx:34-51 | a blank draft alerts and changes nothing; otherwise the untrimmed draft and image are sent; the form is cleared only on success, a failure alerts and keeps the draft, and submitting ends off |
| CreatePostForm.CreatePostFormState.Remount | App.tsx:21-62 | a change of the container's state mounts the composer anew: draft, image and preview are gone and nothing is in flight |

## Left out

- Mongoose schema defaults: a new post's empty like list and its creation time (a clock reading passed in) are assumed here. The schema file is not part of this model.
- Document-store order: the order in which the store enumerates documents is the `scan` parameter. Posts with equal creation times keep that order, as a stable sort would. The store does not promise this.
- Author lookup: `populate('user', 'name')` is a total `nameOf` function. A post whose author has been deleted is not modelled.
- Identities: ids are opaque strings. ObjectId casts and `toString()`/`equals` comparisons are plain string equality.
- PostRoutes.Dispatch: every id is taken to be well formed. Mongoose refuses a malformed id with a cast error before the handler's 400/401/404 checks, on the guarded routes and on `GET /user/:userId` alike, and the error middleware answers. So "public routes answer 200" holds only for well-formed ids.
- Clock: timestamps are integers. The client's `new Date(...).getTime()` ordering is taken to agree with them. `Date.now()` in the stored file name is `Dispatch`'s `uploadTime` parameter and the schema's creation time is its `createdAt` parameter: two separate readings.
- `protect`: JWT checking and the user lookup are not modelled. The identity it resolves is the `caller` parameter.
- Error middleware: a refusal by `protect` or the upload filter carries only its message, with no status code. The error middleware that picks one is not part of this model.
- multer: writing to `backend/uploads/`, rejecting unexpected fields and handling several files are not modelled. A file is written before `createPost` checks the text, so a 400 leaves the file behind. The model does not show this.
- PostRoutes.Ext: Node's `path.extname` strips trailing slashes before taking the basename. The model does not, so a name ending in `/` has no extension here.
- Text.Lower: lower-cases ASCII letters only. JavaScript's `toLowerCase` also maps other Unicode letters.
- Client-side server answers: each call's answer is an input. The client model does not derive it from `PostStore`, except in `PostCard.HeartFollowsToggle`. In particular, the refetch after a create is not tied to the stored post.
- Remounts: the shell (App.tsx:21-62) defines its layout and route wrappers inside its own render, so every change of the container's state (posts, user, loading flag, search text) mounts the feed page, its cards and the composer anew, and their local state starts over. The model exposes this as `Remount` on the card and the composer. It does not fire it by itself after each container change. A handler's ensures describe its own updates; when the container changed, a remount follows.
- The preview's remove button (components/CreatePostForm.tsx:70) has no `type` inside the form, so it is a submit button. React commits `removeImage`'s update before the browser's default action. That commit removes the button from the form, so the click only removes the image, as `RemoveImage` states. The model has no DOM and does not show this.
- Concurrency: each handler runs to completion. Overlapping requests, stale React closures and the render between `setIsSubmitting(true)` and the request are not modelled.
- `getUser` (contexts/AppContext.tsx:96-98): passes the server's answer through unchanged and touches no state, so it is left out.
- A rejected token in the middle of a session is not turned into a logout. Only `getCurrentUser` (services/api.ts:59-77) drops the token, and `Initialize` models that. Other calls reject with the server's message.
- AppContext.AppProvider.Initialize: when no user is resolved, the post list is left as it was, whereas `Logout` empties it. The two differ only if `initialize` runs again after posts were loaded.
- Rendering: JSX, routing, links, `timeAgo` (rounded relative times), the loading spinner and the profile and auth pages are not modelled. The file reader's data URL is a parameter. Resetting the hidden file input's value in `removeImage` is DOM state and is not modelled.
- A component rendered outside the provider (`context` null) is not modelled. Every card and form holds a provider.
- PostCard.PostCardState.HandleDelete: `window.confirm` is the `confirmed` parameter. `alert` and the console are the returned message or nothing.
