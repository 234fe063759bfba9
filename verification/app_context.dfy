/**
 * The client state container (contexts/AppContext.tsx): the signed-in
 * user, the working list of posts, the loading flag and the search text,
 * kept in step with the server. Every server call is an input: the value
 * the server answered with, or the error the call was rejected with.
 */
module AppContext {
  import opened Types
  import opened Seqs
  import NewestFirst

  /** What a server call gave back: a value, or the error it was rejected with. */
  datatype Fetch<T> = Ok(value: T) | Failed(error: string)

  /** How a call that yields nothing ends: the promise resolves or rejects. */
  datatype Completion = Resolved | Rejected(error: string)

  /** The answer to login and signup: the user and a bearer token, possibly empty. */
  datatype Session = Session(user: User, token: string)

  /** A file the user picked in the browser. */
  datatype ImageFile = ImageFile(name: string, mimeType: string)

  /** A request sent to the server through the api layer. */
  datatype ApiCall =
    | MeCall
    | LoginCall
    | SignupCall
    | GetPostsCall
    | CreatePostCall(text: string, image: Option<ImageFile>)
    | UpdatePostCall(id: PostId, text: string)
    | DeletePostCall(id: PostId)
    | ToggleLikeCall(id: PostId)
    | GetPostsByUserCall(userId: UserId)

  const NotLoggedIn := "User not logged in"

  /** A stored token counts only when it is a non-empty string. */
  predicate HasToken(t: Option<string>) {
    t.Some? && t.value != ""
  }

  /** `posts.map(p => p.id === id ? updated : p)`. */
  function ReplaceById(posts: seq<PostView>, id: PostId, updated: PostView): (r: seq<PostView>)
    ensures |r| == |posts|
  {
    seq(|posts|, i requires 0 <= i < |posts| => if posts[i].id == id then updated else posts[i])
  }

  /** `posts.filter(p => p.id !== id)`. */
  function RemoveById(posts: seq<PostView>, id: PostId): (r: seq<PostView>) {
    Filter(posts, (p: PostView) => p.id != id)
  }

  /**
   * Patching by id keeps the list's length and order: every entry with that
   * id becomes the server's post, every other entry stays where it was.
   */
  lemma ReplaceByIdPatches(posts: seq<PostView>, id: PostId, updated: PostView)
    ensures forall v :: v in ReplaceById(posts, id, updated) ==> v == updated || (v in posts && v.id != id)
    ensures forall i :: 0 <= i < |posts| && posts[i].id != id ==> ReplaceById(posts, id, updated)[i] == posts[i]
    ensures forall i :: 0 <= i < |posts| && posts[i].id == id ==> ReplaceById(posts, id, updated)[i] == updated
    ensures (exists i :: 0 <= i < |posts| && posts[i].id == id) ==> updated in ReplaceById(posts, id, updated)
  {
    var r := ReplaceById(posts, id, updated);
    forall v | v in r ensures v == updated || (v in posts && v.id != id) {
      var i :| 0 <= i < |r| && r[i] == v;
    }
    if i :| 0 <= i < |posts| && posts[i].id == id {
      assert r[i] == updated;
    }
  }

  /** A post the list does not hold is patched nowhere. */
  lemma ReplaceAbsentId(posts: seq<PostView>, id: PostId, updated: PostView)
    requires forall v :: v in posts ==> v.id != id
    ensures ReplaceById(posts, id, updated) == posts
  {
  }

  /** Patching with a post that keeps its id keeps the ids distinct, and is idempotent. */
  lemma ReplaceByIdKeepsIds(posts: seq<PostView>, id: PostId, updated: PostView)
    requires updated.id == id
    ensures DistinctIds(posts) ==> DistinctIds(ReplaceById(posts, id, updated))
    ensures ReplaceById(ReplaceById(posts, id, updated), id, updated) == ReplaceById(posts, id, updated)
  {
  }

  /** Removing by id keeps exactly the other posts, in their order. */
  lemma RemoveByIdKeepsOthers(posts: seq<PostView>, id: PostId)
    ensures forall v :: v in RemoveById(posts, id) <==> v in posts && v.id != id
    ensures IsSubsequence(RemoveById(posts, id), posts)
  {
    FilterMembers(posts, (p: PostView) => p.id != id);
    FilterIsSubsequence(posts, (p: PostView) => p.id != id);
  }

  /** Deleting after an update leaves the same list as deleting alone. */
  lemma {:induction false} RemoveAfterReplace(posts: seq<PostView>, id: PostId, updated: PostView)
    requires updated.id == id
    ensures RemoveById(ReplaceById(posts, id, updated), id) == RemoveById(posts, id)
  {
    if posts != [] {
      var r := ReplaceById(posts, id, updated);
      RemoveAfterReplace(posts[1..], id, updated);
      assert r[1..] == ReplaceById(posts[1..], id, updated);
      assert r[0].id == posts[0].id;
      assert r[0].id != id ==> r[0] == posts[0];
    }
  }

  class AppProvider {
    var currentUser: Option<User>
    var posts: seq<PostView>
    var isLoading: bool
    var searchQuery: string
    /** The token kept in the browser's local storage under `authToken`. */
    var authToken: Option<string>
    /** Every request sent to the server so far, oldest first. */
    ghost var calls: seq<ApiCall>

    /** A fresh container; the stored token survives from earlier visits. */
    constructor (storedToken: Option<string>)
      ensures currentUser == None && posts == [] && isLoading && searchQuery == ""
      ensures authToken == storedToken && calls == []
    {
      currentUser := None;
      posts := [];
      isLoading := true;
      searchQuery := "";
      authToken := storedToken;
      calls := [];
    }

    method SetSearchQuery(query: string)
      modifies this`searchQuery
      ensures searchQuery == query
    {
      searchQuery := query;
    }

    /**
     * fetchPosts: on success the list becomes the fetched posts newest
     * first; a failure is swallowed and the list stays as it was.
     */
    method FetchPosts(fetched: Fetch<seq<PostView>>)
      modifies this`posts, this`calls
      ensures calls == old(calls) + [GetPostsCall]
      ensures fetched.Ok? ==> posts == NewestFirst.Sort(fetched.value)
      ensures fetched.Ok? ==> NewestFirst.Sorted(posts) && multiset(posts) == multiset(fetched.value)
      ensures fetched.Failed? ==> posts == old(posts)
    {
      calls := calls + [GetPostsCall];
      if fetched.Ok? {
        posts := NewestFirst.Sort(fetched.value);
      }
    }

    /**
     * initialize: resolves the stored token (`me` is the server's answer,
     * None when it rejected the token or could not be reached, which also
     * drops the token); fetches posts only for a resolved user; ends with
     * loading off.
     */
    method Initialize(me: Option<User>, fetched: Fetch<seq<PostView>>)
      modifies this`isLoading, this`currentUser, this`authToken, this`posts, this`calls
      ensures !isLoading
      ensures !HasToken(old(authToken)) ==>
        currentUser == None && authToken == old(authToken) && posts == old(posts) && calls == old(calls)
      ensures HasToken(old(authToken)) ==> currentUser == me
      ensures HasToken(old(authToken)) && me.None? ==>
        authToken == None && posts == old(posts) && calls == old(calls) + [MeCall]
      ensures HasToken(old(authToken)) && me.Some? ==>
        && authToken == old(authToken)
        && calls == old(calls) + [MeCall, GetPostsCall]
        && posts == (if fetched.Ok? then NewestFirst.Sort(fetched.value) else old(posts))
    {
      isLoading := true;
      var user: Option<User> := None;
      if HasToken(authToken) {
        calls := calls + [MeCall];
        if me.None? {
          authToken := None;
        }
        user := me;
      }
      currentUser := user;
      if user.Some? {
        FetchPosts(fetched);
      }
      isLoading := false;
    }

    /**
     * login: a rejected login changes nothing; otherwise the token (when
     * non-empty) is stored, the user is set and the posts are refetched.
     */
    method Login(answer: Fetch<Session>, fetched: Fetch<seq<PostView>>) returns (c: Completion)
      modifies this`currentUser, this`authToken, this`posts, this`calls
      ensures answer.Failed? ==>
        && c == Rejected(answer.error)
        && currentUser == old(currentUser) && authToken == old(authToken) && posts == old(posts)
        && calls == old(calls) + [LoginCall]
      ensures answer.Ok? ==>
        && c == Resolved
        && currentUser == Some(answer.value.user)
        && authToken == (if answer.value.token != "" then Some(answer.value.token) else old(authToken))
        && calls == old(calls) + [LoginCall, GetPostsCall]
        && posts == (if fetched.Ok? then NewestFirst.Sort(fetched.value) else old(posts))
    {
      calls := calls + [LoginCall];
      if answer.Failed? {
        return Rejected(answer.error);
      }
      var session := answer.value;
      if session.token != "" {
        authToken := Some(session.token);
      }
      currentUser := Some(session.user);
      FetchPosts(fetched);
      c := Resolved;
    }

    /**
     * signup: a rejected signup changes nothing; otherwise the token is
     * stored, the user is set and the list is emptied without a fetch.
     */
    method Signup(answer: Fetch<Session>) returns (c: Completion)
      modifies this`currentUser, this`authToken, this`posts, this`calls
      ensures calls == old(calls) + [SignupCall]
      ensures answer.Failed? ==>
        && c == Rejected(answer.error)
        && currentUser == old(currentUser) && authToken == old(authToken) && posts == old(posts)
      ensures answer.Ok? ==>
        && c == Resolved
        && currentUser == Some(answer.value.user)
        && authToken == (if answer.value.token != "" then Some(answer.value.token) else old(authToken))
        && posts == []
    {
      calls := calls + [SignupCall];
      if answer.Failed? {
        return Rejected(answer.error);
      }
      var session := answer.value;
      if session.token != "" {
        authToken := Some(session.token);
      }
      currentUser := Some(session.user);
      posts := [];
      c := Resolved;
    }

    /** logout: forgets the token, the user and the posts, without asking the server. */
    method Logout()
      modifies this`authToken, this`currentUser, this`posts
      ensures authToken == None && currentUser == None && posts == []
    {
      authToken := None;
      currentUser := None;
      posts := [];
    }

    /**
     * createPost: refused locally without a signed-in user; otherwise the
     * text goes to the server as given and, once it is accepted, the whole
     * list is refetched rather than spliced.
     */
    method CreatePost(text: string, image: Option<ImageFile>,
                      answer: Fetch<PostView>, fetched: Fetch<seq<PostView>>) returns (c: Completion)
      modifies this`posts, this`calls
      ensures currentUser.None? ==>
        c == Rejected(NotLoggedIn) && posts == old(posts) && calls == old(calls)
      ensures currentUser.Some? && answer.Failed? ==>
        c == Rejected(answer.error) && posts == old(posts)
        && calls == old(calls) + [CreatePostCall(text, image)]
      ensures currentUser.Some? && answer.Ok? ==>
        && c == Resolved
        && calls == old(calls) + [CreatePostCall(text, image), GetPostsCall]
        && posts == (if fetched.Ok? then NewestFirst.Sort(fetched.value) else old(posts))
    {
      if currentUser.None? {
        return Rejected(NotLoggedIn);
      }
      calls := calls + [CreatePostCall(text, image)];
      if answer.Failed? {
        return Rejected(answer.error);
      }
      FetchPosts(fetched);
      c := Resolved;
    }

    /** updatePost: once the server answers, every entry with that id becomes its post. */
    method UpdatePost(id: PostId, text: string, answer: Fetch<PostView>) returns (c: Completion)
      modifies this`posts, this`calls
      ensures calls == old(calls) + [UpdatePostCall(id, text)]
      ensures answer.Failed? ==> c == Rejected(answer.error) && posts == old(posts)
      ensures answer.Ok? ==> c == Resolved && posts == ReplaceById(old(posts), id, answer.value)
    {
      calls := calls + [UpdatePostCall(id, text)];
      if answer.Failed? {
        return Rejected(answer.error);
      }
      posts := ReplaceById(posts, id, answer.value);
      c := Resolved;
    }

    /** deletePost: once the server confirms, every entry with that id leaves the list. */
    method DeletePost(id: PostId, answer: Completion) returns (c: Completion)
      modifies this`posts, this`calls
      ensures calls == old(calls) + [DeletePostCall(id)]
      ensures c == answer
      ensures answer.Rejected? ==> posts == old(posts)
      ensures answer.Resolved? ==> posts == RemoveById(old(posts), id)
    {
      calls := calls + [DeletePostCall(id)];
      if answer.Rejected? {
        return answer;
      }
      posts := RemoveById(posts, id);
      c := Resolved;
    }

    /** toggleLike: once the server answers, every entry with that id becomes its post. */
    method ToggleLike(id: PostId, answer: Fetch<PostView>) returns (c: Completion)
      modifies this`posts, this`calls
      ensures calls == old(calls) + [ToggleLikeCall(id)]
      ensures answer.Failed? ==> c == Rejected(answer.error) && posts == old(posts)
      ensures answer.Ok? ==> c == Resolved && posts == ReplaceById(old(posts), id, answer.value)
    {
      calls := calls + [ToggleLikeCall(id)];
      if answer.Failed? {
        return Rejected(answer.error);
      }
      posts := ReplaceById(posts, id, answer.value);
      c := Resolved;
    }

    /**
     * getPostsByUser: the profile's own list, newest first; the shared list
     * is left alone.
     */
    method GetPostsByUser(userId: UserId, answer: Fetch<seq<PostView>>) returns (r: Fetch<seq<PostView>>)
      modifies this`calls
      ensures calls == old(calls) + [GetPostsByUserCall(userId)]
      ensures answer.Failed? ==> r == answer
      ensures answer.Ok? ==> r.Ok? && r.value == NewestFirst.Sort(answer.value)
      ensures answer.Ok? ==> NewestFirst.Sorted(r.value) && multiset(r.value) == multiset(answer.value)
    {
      calls := calls + [GetPostsByUserCall(userId)];
      if answer.Failed? {
        return answer;
      }
      r := Ok(NewestFirst.Sort(answer.value));
    }
  }
}
