/**
 * The post service (backend/controllers/postController.js): the rules of
 * creating, listing, editing, deleting and liking posts over the document
 * store, which is modelled as a map from post id to stored document.
 */
module PostController {
  import opened Types
  import opened Seqs
  import NewestFirst

  /** A stored post document: the author is a reference, not a name. */
  datatype StoredPost = StoredPost(
    user: UserId,
    text: string,
    imageUrl: Option<string>,
    createdAt: int,
    likes: seq<UserId>)

  /** The JSON body of a response. */
  datatype Body =
    | PostBody(post: PostView)
    | PostsBody(posts: seq<PostView>)
    | DeletedBody(id: PostId)
    | ErrorBody(message: string)

  /** An HTTP status code together with the body sent. */
  datatype Reply = Reply(status: int, body: Body)

  const NotFound := "Post not found"
  const NotAuthorized := "User not authorized"
  const MissingText := "Please add a text field"

  /**
   * formatPost: the stored document with its author populated. The author's
   * name comes from the user collection, given here as `nameOf`.
   */
  function FormatPost(id: PostId, p: StoredPost, nameOf: UserId -> string): (v: PostView) {
    PostView(id, p.user, nameOf(p.user), p.text, p.imageUrl, p.createdAt, p.likes)
  }

  /** The stored fields a view carries, with the author back as a reference. */
  function Stored(v: PostView): (p: StoredPost) {
    StoredPost(v.userId, v.text, v.imageUrl, v.createdAt, v.likes)
  }

  /**
   * The projection copies every stored field unchanged and adds only the
   * id and the author's name.
   */
  lemma FormatPostRoundTrip(id: PostId, p: StoredPost, nameOf: UserId -> string)
    ensures Stored(FormatPost(id, p, nameOf)) == p
    ensures FormatPost(id, p, nameOf).id == id
    ensures FormatPost(id, p, nameOf).userName == nameOf(p.user)
  {
  }

  /** JavaScript truthiness of an optional string field: present and non-empty. */
  predicate Truthy(text: Option<string>) {
    text.Some? && text.value != ""
  }

  // ---------------------------------------------------------------------
  // Likes

  /** `likes.filter(likeId => !likeId.equals(u))`. */
  function Without(likes: seq<UserId>, u: UserId): (r: seq<UserId>)
    ensures forall v :: v in r <==> v in likes && v != u
  {
    FilterMembers(likes, v => v != u);
    Filter(likes, v => v != u)
  }

  /** The like list after `u` toggles its like: unlike removes every occurrence, like appends. */
  function Toggled(likes: seq<UserId>, u: UserId): (r: seq<UserId>) {
    if u in likes then Without(likes, u) else likes + [u]
  }

  /** A toggle flips the caller's membership and no one else's. */
  lemma ToggleFlipsOnlyCaller(likes: seq<UserId>, u: UserId, v: UserId)
    ensures u in Toggled(likes, u) <==> u !in likes
    ensures v != u ==> (v in Toggled(likes, u) <==> v in likes)
  {
  }

  lemma WithoutAbsent(likes: seq<UserId>, u: UserId)
    requires u !in likes
    ensures Without(likes, u) == likes
  {
    FilterKeepsAll(likes, v => v != u);
  }

  lemma WithoutAppended(likes: seq<UserId>, u: UserId)
    ensures Without(likes + [u], u) == Without(likes, u)
  {
    FilterAppend(likes, [u], v => v != u);
    assert Filter([u], v => v != u) == [];
  }

  /** On a duplicate-free list, unliking removes exactly one entry. */
  lemma WithoutPresentLength(likes: seq<UserId>, u: UserId)
    requires NoDup(likes) && u in likes
    ensures |Without(likes, u)| == |likes| - 1
  {
    var k :| 0 <= k < |likes| && likes[k] == u;
    var a, b := likes[..k], likes[k + 1..];
    assert likes == a + [u] + b;
    assert u !in a && u !in b;
    FilterAppend(a + [u], b, v => v != u);
    FilterAppend(a, [u], v => v != u);
    assert Filter([u], v => v != u) == [];
    WithoutAbsent(a, u);
    WithoutAbsent(b, u);
  }

  /** Toggling keeps a duplicate-free like list duplicate-free. */
  lemma ToggleKeepsNoDup(likes: seq<UserId>, u: UserId)
    requires NoDup(likes)
    ensures NoDup(Toggled(likes, u))
  {
    if u in likes {
      FilterNoDup(likes, v => v != u);
    }
  }

  /** On a duplicate-free list a toggle changes the like count by exactly one. */
  lemma ToggleCount(likes: seq<UserId>, u: UserId)
    requires NoDup(likes)
    ensures |Toggled(likes, u)| == if u in likes then |likes| - 1 else |likes| + 1
  {
    if u in likes {
      WithoutPresentLength(likes, u);
    }
  }

  /** Two toggles by the same user restore who likes the post. */
  lemma ToggleTwiceSameMembers(likes: seq<UserId>, u: UserId)
    ensures forall v :: v in Toggled(Toggled(likes, u), u) <==> v in likes
  {
  }

  /** Liking then unliking gives back exactly the list that was there. */
  lemma ToggleTwiceFromUnliked(likes: seq<UserId>, u: UserId)
    requires u !in likes
    ensures Toggled(Toggled(likes, u), u) == likes
  {
    WithoutAppended(likes, u);
    WithoutAbsent(likes, u);
  }

  // ---------------------------------------------------------------------
  // Listing

  /** `scan` lists every id of the store exactly once, in the store's own order. */
  ghost predicate IsScan(scan: seq<PostId>, posts: map<PostId, StoredPost>) {
    NoDup(scan) && forall id :: id in scan <==> id in posts
  }

  /** Formats each listed document in turn. */
  function Rows(ids: seq<PostId>, posts: map<PostId, StoredPost>, nameOf: UserId -> string): (r: seq<PostView>)
    requires forall id :: id in ids ==> id in posts
    ensures |r| == |ids|
    ensures forall i :: 0 <= i < |ids| ==> r[i] == FormatPost(ids[i], posts[ids[i]], nameOf)
  {
    seq(|ids|, i requires 0 <= i < |ids| => FormatPost(ids[i], posts[ids[i]], nameOf))
  }

  /** `find({ user: u })`: the listed ids whose author is `u`, in the same order. */
  function ByAuthor(ids: seq<PostId>, posts: map<PostId, StoredPost>, u: UserId): (r: seq<PostId>)
    requires forall id :: id in ids ==> id in posts
    ensures forall id :: id in r <==> id in ids && posts[id].user == u
    ensures NoDup(ids) ==> NoDup(r)
  {
    if ids == [] then []
    else
      var rest := ByAuthor(ids[1..], posts, u);
      assert NoDup(ids) ==> ids[0] !in rest;
      (if posts[ids[0]].user == u then [ids[0]] else []) + rest
  }

  /** The test `find({ user: u })` applies, read on a formatted post. */
  function AuthoredBy(u: UserId): (keep: PostView -> bool) {
    (v: PostView) => v.userId == u
  }

  lemma RowsCons(id: PostId, ids: seq<PostId>, posts: map<PostId, StoredPost>, nameOf: UserId -> string)
    requires id in posts && forall x :: x in ids ==> x in posts
    ensures Rows([id] + ids, posts, nameOf) == [FormatPost(id, posts[id], nameOf)] + Rows(ids, posts, nameOf)
  {
    var a := Rows([id] + ids, posts, nameOf);
    var b := [FormatPost(id, posts[id], nameOf)] + Rows(ids, posts, nameOf);
    forall i | 0 <= i < |a| ensures a[i] == b[i] {
      if i > 0 {
        assert ([id] + ids)[i] == ids[i - 1];
      }
    }
  }

  /** Selecting an author's ids and formatting them is formatting all and keeping that author's rows. */
  lemma {:induction false} RowsByAuthor(ids: seq<PostId>, posts: map<PostId, StoredPost>,
                                        nameOf: UserId -> string, u: UserId)
    requires forall id :: id in ids ==> id in posts
    ensures Rows(ByAuthor(ids, posts, u), posts, nameOf) == Filter(Rows(ids, posts, nameOf), AuthoredBy(u))
  {
    if ids != [] {
      var rest := ids[1..];
      assert ids == [ids[0]] + rest;
      RowsByAuthor(rest, posts, nameOf, u);
      RowsCons(ids[0], rest, posts, nameOf);
      FilterCons(FormatPost(ids[0], posts[ids[0]], nameOf), Rows(rest, posts, nameOf), AuthoredBy(u));
      if posts[ids[0]].user == u {
        RowsCons(ids[0], ByAuthor(rest, posts, u), posts, nameOf);
      } else {
        assert ByAuthor(ids, posts, u) == [] + ByAuthor(rest, posts, u);
      }
    }
  }

  /** Every entry is the formatted stored document its id names. */
  predicate Faithful(s: seq<PostView>, posts: map<PostId, StoredPost>, nameOf: UserId -> string) {
    forall v :: v in s ==> v.id in posts && v == FormatPost(v.id, posts[v.id], nameOf)
  }

  /** The rows of distinct ids are distinct, and they are exactly the formatted documents of those ids. */
  lemma RowsFacts(ids: seq<PostId>, posts: map<PostId, StoredPost>, nameOf: UserId -> string)
    requires NoDup(ids) && forall id :: id in ids ==> id in posts
    ensures NoDup(Rows(ids, posts, nameOf))
    ensures Faithful(Rows(ids, posts, nameOf), posts, nameOf)
    ensures forall v :: v in Rows(ids, posts, nameOf) ==> v.id in ids
    ensures forall id :: id in ids ==> FormatPost(id, posts[id], nameOf) in Rows(ids, posts, nameOf)
  {
    var rows := Rows(ids, posts, nameOf);
    forall i, j | 0 <= i < j < |rows| ensures rows[i] != rows[j] {
      assert rows[i].id == ids[i] && rows[j].id == ids[j];
    }
    forall v | v in rows ensures v.id in ids {
      var i :| 0 <= i < |rows| && rows[i] == v;
    }
    forall id | id in ids ensures FormatPost(id, posts[id], nameOf) in rows {
      var i :| 0 <= i < |ids| && ids[i] == id;
      assert rows[i] in rows;
    }
  }

  /** Distinct entries that are each their id's formatted document have distinct ids. */
  lemma FaithfulDistinctIds(s: seq<PostView>, posts: map<PostId, StoredPost>, nameOf: UserId -> string)
    requires Faithful(s, posts, nameOf) && NoDup(s)
    ensures DistinctIds(s)
  {
    forall i, j | 0 <= i < j < |s| ensures s[i].id != s[j].id {
      assert s[i] in s && s[j] in s;
    }
  }

  /** Sorting the formatted rows of distinct ids lists each of them once, newest first. */
  lemma ListingFacts(ids: seq<PostId>, posts: map<PostId, StoredPost>, nameOf: UserId -> string)
    requires NoDup(ids) && forall id :: id in ids ==> id in posts
    ensures var list := NewestFirst.Sort(Rows(ids, posts, nameOf));
      && NewestFirst.Sorted(list)
      && Faithful(list, posts, nameOf)
      && (forall v :: v in list ==> v.id in ids)
      && (forall id :: id in ids ==> FormatPost(id, posts[id], nameOf) in list)
      && DistinctIds(list)
  {
    var rows := Rows(ids, posts, nameOf);
    var list := NewestFirst.Sort(rows);
    RowsFacts(ids, posts, nameOf);
    NewestFirst.SortMembers(rows);
    NewestFirst.PermutationNoDup(list, rows);
    FaithfulDistinctIds(list, posts, nameOf);
  }

  // ---------------------------------------------------------------------
  // The store

  class PostStore {
    var posts: map<PostId, StoredPost>

    /** Every like list is duplicate-free. */
    ghost predicate Valid()
      reads this
    {
      forall id :: id in posts ==> NoDup(posts[id].likes)
    }

    constructor ()
      ensures posts == map[] && Valid()
    {
      posts := map[];
    }

    /** getPosts: every post, formatted, newest first. */
    function GetPosts(scan: seq<PostId>, nameOf: UserId -> string): (r: Reply)
      reads this
      requires IsScan(scan, posts)
      ensures r.status == 200 && r.body.PostsBody?
      ensures NewestFirst.Sorted(r.body.posts)
      ensures Faithful(r.body.posts, posts, nameOf)
      ensures forall id :: id in posts ==> FormatPost(id, posts[id], nameOf) in r.body.posts
      ensures DistinctIds(r.body.posts)
    {
      ListingFacts(scan, posts, nameOf);
      Reply(200, PostsBody(NewestFirst.Sort(Rows(scan, posts, nameOf))))
    }

    /** getPostsByUser: exactly the posts whose author is `userId`, formatted, newest first. */
    function GetPostsByUser(scan: seq<PostId>, userId: UserId, nameOf: UserId -> string): (r: Reply)
      reads this
      requires IsScan(scan, posts)
      ensures r.status == 200 && r.body.PostsBody?
      ensures NewestFirst.Sorted(r.body.posts)
      ensures Faithful(r.body.posts, posts, nameOf)
      ensures forall v :: v in r.body.posts ==> v.userId == userId
      ensures forall id :: id in posts && posts[id].user == userId ==>
        FormatPost(id, posts[id], nameOf) in r.body.posts
      ensures DistinctIds(r.body.posts)
    {
      var ids := ByAuthor(scan, posts, userId);
      ListingFacts(ids, posts, nameOf);
      Reply(200, PostsBody(NewestFirst.Sort(Rows(ids, posts, nameOf))))
    }

    /**
     * createPost: rejects a falsy text with 400 and stores nothing; otherwise
     * stores a new post by the caller (with the uploaded file's URL when a
     * file was stored) and answers 201 with its view.
     */
    method CreatePost(caller: UserId, text: Option<string>, filename: Option<string>,
                      newId: PostId, now: int, nameOf: UserId -> string) returns (r: Reply)
      requires Valid()
      requires newId !in posts
      modifies this
      ensures Valid()
      ensures !Truthy(text) ==> r == Reply(400, ErrorBody(MissingText)) && posts == old(posts)
      ensures Truthy(text) ==>
        && newId in posts
        && posts == old(posts)[newId := posts[newId]]
        && posts[newId].user == caller
        && posts[newId].text == text.value
        && posts[newId].createdAt == now
        && posts[newId].likes == []
        && (posts[newId].imageUrl.Some? <==> filename.Some?)
        && (filename.Some? ==> posts[newId].imageUrl.value == "/uploads/" + filename.value)
        && r == Reply(201, PostBody(FormatPost(newId, posts[newId], nameOf)))
    {
      if !Truthy(text) {
        r := Reply(400, ErrorBody(MissingText));
        return;
      }
      var imageUrl := None;
      if filename.Some? {
        imageUrl := Some("/uploads/" + filename.value);
      }
      var post := StoredPost(caller, text.value, imageUrl, now, []);
      posts := posts[newId := post];
      r := Reply(201, PostBody(FormatPost(newId, post, nameOf)));
    }

    /**
     * updatePost: 400 for a missing post, 401 for a caller who is not the
     * author, both before anything changes; otherwise only the text of that
     * post may change, and only to a truthy new text.
     */
    method UpdatePost(caller: UserId, id: PostId, text: Option<string>,
                      nameOf: UserId -> string) returns (r: Reply)
      requires Valid()
      modifies this
      ensures Valid()
      ensures id !in old(posts) ==> r == Reply(400, ErrorBody(NotFound)) && posts == old(posts)
      ensures id in old(posts) && old(posts)[id].user != caller ==>
        r == Reply(401, ErrorBody(NotAuthorized)) && posts == old(posts)
      ensures id in old(posts) && old(posts)[id].user == caller ==>
        && posts == old(posts)[id := old(posts)[id].(text := if Truthy(text) then text.value else old(posts)[id].text)]
        && r == Reply(200, PostBody(FormatPost(id, posts[id], nameOf)))
    {
      if id !in posts {
        r := Reply(400, ErrorBody(NotFound));
        return;
      }
      var post := posts[id];
      if post.user != caller {
        r := Reply(401, ErrorBody(NotAuthorized));
        return;
      }
      if Truthy(text) {
        post := post.(text := text.value);
      }
      posts := posts[id := post];
      r := Reply(200, PostBody(FormatPost(id, post, nameOf)));
    }

    /**
     * deletePost: the same two checks as updatePost, then exactly that post
     * leaves the store and the reply names its id.
     */
    method DeletePost(caller: UserId, id: PostId) returns (r: Reply)
      requires Valid()
      modifies this
      ensures Valid()
      ensures id !in old(posts) ==> r == Reply(400, ErrorBody(NotFound)) && posts == old(posts)
      ensures id in old(posts) && old(posts)[id].user != caller ==>
        r == Reply(401, ErrorBody(NotAuthorized)) && posts == old(posts)
      ensures id in old(posts) && old(posts)[id].user == caller ==>
        posts == old(posts) - {id} && r == Reply(200, DeletedBody(id))
    {
      if id !in posts {
        r := Reply(400, ErrorBody(NotFound));
        return;
      }
      if posts[id].user != caller {
        r := Reply(401, ErrorBody(NotAuthorized));
        return;
      }
      posts := posts - {id};
      r := Reply(200, DeletedBody(id));
    }

    /**
     * toggleLike: 404 for a missing post; otherwise the caller's like on that
     * post is toggled and nothing else changes. Any caller may like any post.
     */
    method ToggleLike(caller: UserId, id: PostId, nameOf: UserId -> string) returns (r: Reply)
      requires Valid()
      modifies this
      ensures Valid()
      ensures id !in old(posts) ==> r == Reply(404, ErrorBody(NotFound)) && posts == old(posts)
      ensures id in old(posts) ==>
        && posts == old(posts)[id := old(posts)[id].(likes := Toggled(old(posts)[id].likes, caller))]
        && r == Reply(200, PostBody(FormatPost(id, posts[id], nameOf)))
    {
      if id !in posts {
        r := Reply(404, ErrorBody(NotFound));
        return;
      }
      var post := posts[id];
      ToggleKeepsNoDup(post.likes, caller);
      var isLiked := caller in post.likes;
      if isLiked {
        post := post.(likes := Without(post.likes, caller));
      } else {
        post := post.(likes := post.likes + [caller]);
      }
      posts := posts[id := post];
      r := Reply(200, PostBody(FormatPost(id, post, nameOf)));
    }
  }

  /**
   * One author's listing is the full listing with only that author's posts
   * kept, in the same order.
   */
  lemma ByUserIsFilteredListing(store: PostStore, scan: seq<PostId>, u: UserId, nameOf: UserId -> string)
    requires IsScan(scan, store.posts)
    ensures store.GetPostsByUser(scan, u, nameOf).body.posts
         == Filter(store.GetPosts(scan, nameOf).body.posts, AuthoredBy(u))
  {
    RowsByAuthor(scan, store.posts, nameOf, u);
    NewestFirst.FilterSort(Rows(scan, store.posts, nameOf), AuthoredBy(u));
  }
}
