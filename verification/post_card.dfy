/**
 * One post in the feed (components/PostCard.tsx): who may edit and delete
 * it, how its heart and like count are shown, and its edit and delete
 * handlers. The confirmation dialog's answer and the server's answers are
 * inputs; an alert is returned as the message it would show.
 */
module PostCard {
  import opened Types
  import opened Text
  import opened AppContext
  import PostController

  const DeleteFailed := "Failed to delete post."
  const UpdateFailed := "Failed to update post."

  /** The edit and delete buttons are offered only to the post's author. */
  predicate IsOwner(currentUser: Option<User>, post: PostView) {
    currentUser.Some? && currentUser.value.id == post.userId
  }

  /**
   * The edit and delete controls appear exactly for the signed-in user the
   * server lets past its author check: the stored post's author.
   */
  lemma OwnerIsStoredAuthor(currentUser: Option<User>, id: PostId, p: PostController.StoredPost,
                            nameOf: UserId -> string)
    ensures IsOwner(currentUser, PostController.FormatPost(id, p, nameOf))
        <==> currentUser.Some? && currentUser.value.id == p.user
    ensures currentUser.None? ==> !IsOwner(currentUser, PostController.FormatPost(id, p, nameOf))
  {
  }

  /** The heart is filled when the signed-in user is among the likers. */
  predicate IsLiked(currentUser: Option<User>, post: PostView) {
    currentUser.Some? && currentUser.value.id in post.likes
  }

  /** The heart is filled exactly for a signed-in user among the stored likers. */
  lemma LikedIsStoredLiker(currentUser: Option<User>, id: PostId, p: PostController.StoredPost,
                           nameOf: UserId -> string)
    ensures IsLiked(currentUser, PostController.FormatPost(id, p, nameOf))
        <==> currentUser.Some? && currentUser.value.id in p.likes
  {
  }

  /** The text beside the heart for `n` likes. */
  function LikeLabel(n: nat): (r: string)
    ensures r == "Like" <==> n == 0
    ensures n > 0 ==> var digits := NatToString(n);
      && |digits| < |r| && r[..|digits|] == digits
      && r[|digits|..] == (if n == 1 then " Like" else " Likes")
    ensures |r| > 0 && (r[|r| - 1] == 's' <==> n > 1)
  {
    if n > 0 then NatToString(n) + " Like" + (if n > 1 then "s" else "") else "Like"
  }

  /** A run of digits followed by a non-digit is determined by where the digits stop. */
  lemma DigitsPrefixUnique(a: string, x: string, b: string, y: string)
    requires AllDigits(a) && AllDigits(b)
    requires x != [] && !('0' <= x[0] <= '9') && y != [] && !('0' <= y[0] <= '9')
    requires a + x == b + y
    ensures a == b
  {
    assert a == (a + x)[..|a|];
    assert b == (b + y)[..|b|];
  }

  /** Different like counts are never shown with the same label. */
  lemma LikeLabelInjective(m: nat, n: nat)
    ensures LikeLabel(m) == LikeLabel(n) ==> m == n
  {
    if LikeLabel(m) == LikeLabel(n) && m > 0 && n > 0 {
      var sm := " Like" + (if m > 1 then "s" else "");
      var sn := " Like" + (if n > 1 then "s" else "");
      assert LikeLabel(m) == NatToString(m) + sm;
      assert LikeLabel(n) == NatToString(n) + sn;
      DigitsPrefixUnique(NatToString(m), sm, NatToString(n), sn);
      NatToStringInjective(m, n);
    }
  }

  /**
   * Once the server has applied the user's toggle, the heart shown for the
   * returned post is the opposite of the heart before.
   */
  lemma HeartFollowsToggle(u: User, post: PostView, answer: PostView)
    requires answer.likes == PostController.Toggled(post.likes, u.id)
    ensures IsLiked(Some(u), answer) <==> !IsLiked(Some(u), post)
  {
  }

  class PostCardState {
    var post: PostView
    const app: AppProvider
    var isEditing: bool
    var editedText: string
    var isDeleting: bool

    constructor (post: PostView, app: AppProvider)
      ensures this.post == post && this.app == app
      ensures !isEditing && editedText == post.text && !isDeleting
    {
      this.post := post;
      this.app := app;
      isEditing := false;
      editedText := post.text;
      isDeleting := false;
    }

    /**
     * The shell defines its layout and route wrappers inside its own
     * render, so every change of the container's state mounts the feed
     * anew: the card for this id starts over with the list's current entry,
     * the editor closed and the draft reset to that entry's text.
     */
    method Remount(p: PostView)
      requires p.id == post.id
      modifies this
      ensures post == p
      ensures !isEditing && editedText == p.text && !isDeleting
    {
      post := p;
      isEditing := false;
      editedText := p.text;
      isDeleting := false;
    }

    /** The pencil button, shown to the author only, opens or closes the editor. */
    method ToggleEditor()
      requires IsOwner(app.currentUser, post)
      modifies this`isEditing
      ensures isEditing == !old(isEditing)
    {
      isEditing := !isEditing;
    }

    method EditText(text: string)
      modifies this`editedText
      ensures editedText == text
    {
      editedText := text;
    }

    method CancelEdit()
      modifies this`isEditing
      ensures !isEditing
    {
      isEditing := false;
    }

    /**
     * handleUpdate: an edit that only changes surrounding white space closes
     * the editor without asking the server; otherwise the edited text is
     * sent as typed and the editor closes only once the server accepts it.
     */
    method HandleUpdate(answer: Fetch<PostView>) returns (alert: Option<string>)
      requires isEditing
      modifies this`isEditing, app`posts, app`calls
      ensures Trim(editedText) == Trim(post.text) ==>
        && !isEditing && alert == None
        && app.posts == old(app.posts) && app.calls == old(app.calls)
      ensures Trim(editedText) != Trim(post.text) ==>
        && app.calls == old(app.calls) + [UpdatePostCall(post.id, editedText)]
        && (answer.Ok? ==>
              !isEditing && alert == None
              && app.posts == ReplaceById(old(app.posts), post.id, answer.value))
        && (answer.Failed? ==>
              isEditing && alert == Some(UpdateFailed) && app.posts == old(app.posts))
    {
      if Trim(editedText) == Trim(post.text) {
        isEditing := false;
        return None;
      }
      alert := Save(answer);
    }

    /** The part of handleUpdate that asks the server. */
    method Save(answer: Fetch<PostView>) returns (alert: Option<string>)
      requires isEditing
      modifies this`isEditing, app`posts, app`calls
      ensures app.calls == old(app.calls) + [UpdatePostCall(post.id, editedText)]
      ensures answer.Ok? ==>
        !isEditing && alert == None && app.posts == ReplaceById(old(app.posts), post.id, answer.value)
      ensures answer.Failed? ==>
        isEditing && alert == Some(UpdateFailed) && app.posts == old(app.posts)
    {
      var c := app.UpdatePost(post.id, editedText, answer);
      if c.Resolved? {
        isEditing := false;
        alert := None;
      } else {
        alert := Some(UpdateFailed);
      }
    }

    /**
     * handleDelete: the server is asked only when the user confirms; the
     * button is usable again afterwards, whatever the outcome.
     */
    method HandleDelete(confirmed: bool, answer: Completion) returns (alert: Option<string>)
      requires IsOwner(app.currentUser, post) && !isDeleting
      modifies this`isDeleting, app`posts, app`calls
      ensures !isDeleting
      ensures !confirmed ==> alert == None && app.posts == old(app.posts) && app.calls == old(app.calls)
      ensures confirmed ==> app.calls == old(app.calls) + [DeletePostCall(post.id)]
      ensures confirmed && answer.Resolved? ==>
        alert == None && app.posts == RemoveById(old(app.posts), post.id)
      ensures confirmed && answer.Rejected? ==>
        alert == Some(DeleteFailed) && app.posts == old(app.posts)
    {
      isDeleting := true;
      alert := None;
      if confirmed {
        var c := app.DeletePost(post.id, answer);
        if c.Rejected? {
          alert := Some(DeleteFailed);
        }
      }
      isDeleting := false;
    }

    /** handleLike: fire and forget; a rejection is neither awaited nor reported. */
    method HandleLike(answer: Fetch<PostView>)
      modifies app`posts, app`calls
      ensures app.calls == old(app.calls) + [ToggleLikeCall(post.id)]
      ensures answer.Ok? ==> app.posts == ReplaceById(old(app.posts), post.id, answer.value)
      ensures answer.Failed? ==> app.posts == old(app.posts)
    {
      var _ := app.ToggleLike(post.id, answer);
    }
  }
}
