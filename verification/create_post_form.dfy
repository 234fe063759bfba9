/**
 * The composer above the feed (components/CreatePostForm.tsx): the draft
 * text, the chosen image and its preview, the submitting flag, and what
 * submitting does. Alerts are returned as the message they would show.
 */
module CreatePostForm {
  import opened Types
  import opened Text
  import opened AppContext
  import NewestFirst

  const EmptyContent := "Post content cannot be empty."
  const CreateFailed := "Failed to create post. Please try again."

  class CreatePostFormState {
    const app: AppProvider
    var text: string
    var imageFile: Option<ImageFile>
    /** The data URL the file reader produced for the chosen image. */
    var imagePreview: Option<string>
    var isSubmitting: bool

    constructor (app: AppProvider)
      ensures this.app == app
      ensures text == "" && imageFile == None && imagePreview == None && !isSubmitting
    {
      this.app := app;
      text := "";
      imageFile := None;
      imagePreview := None;
      isSubmitting := false;
    }

    /**
     * Every change of the container's state mounts the composer anew (see
     * `PostCard.PostCardState.Remount`): the draft, the image and its
     * preview are gone and nothing is in flight.
     */
    method Remount()
      modifies this
      ensures text == "" && imageFile == None && imagePreview == None && !isSubmitting
    {
      text := "";
      imageFile := None;
      imagePreview := None;
      isSubmitting := false;
    }

    /** The Post button is usable when nothing is in flight and the draft has a non-space character. */
    function SubmitEnabled(): (b: bool)
      reads this
      ensures b <==> !isSubmitting && !AllSpace(text)
    {
      TrimEmptyIff(text);
      !isSubmitting && Trim(text) != []
    }

    method EditText(t: string)
      modifies this`text
      ensures text == t
    {
      text := t;
    }

    /** handleImageChange: the first chosen file, if any, replaces the current one. */
    method ChooseImage(files: seq<ImageFile>)
      modifies this`imageFile
      ensures files != [] ==> imageFile == Some(files[0])
      ensures files == [] ==> imageFile == old(imageFile)
    {
      if files != [] {
        imageFile := Some(files[0]);
      }
    }

    /** The file reader finished: its data URL becomes the preview. */
    method PreviewLoaded(dataUrl: string)
      modifies this`imagePreview
      ensures imagePreview == Some(dataUrl)
    {
      imagePreview := Some(dataUrl);
    }

    /** removeImage: forgets the chosen file and its preview, and nothing else. */
    method RemoveImage()
      modifies this`imageFile, this`imagePreview
      ensures imageFile == None && imagePreview == None
    {
      imageFile := None;
      imagePreview := None;
    }

    /**
     * handleSubmit: a blank draft is refused with an alert and nothing else
     * happens; otherwise the draft goes to the container as typed, and the
     * form is cleared only when the post was created.
     */
    method HandleSubmit(answer: Fetch<PostView>, fetched: Fetch<seq<PostView>>) returns (alert: Option<string>)
      modifies this`text, this`imageFile, this`imagePreview, this`isSubmitting, app`posts, app`calls
      ensures AllSpace(old(text)) ==>
        && alert == Some(EmptyContent)
        && text == old(text) && imageFile == old(imageFile) && imagePreview == old(imagePreview)
        && isSubmitting == old(isSubmitting)
        && app.posts == old(app.posts) && app.calls == old(app.calls)
      ensures !AllSpace(old(text)) ==> !isSubmitting
      ensures !AllSpace(old(text)) && app.currentUser.None? ==>
        && alert == Some(CreateFailed)
        && text == old(text) && imageFile == old(imageFile) && imagePreview == old(imagePreview)
        && app.posts == old(app.posts) && app.calls == old(app.calls)
      ensures !AllSpace(old(text)) && app.currentUser.Some? && answer.Failed? ==>
        && alert == Some(CreateFailed)
        && text == old(text) && imageFile == old(imageFile) && imagePreview == old(imagePreview)
        && app.posts == old(app.posts)
        && app.calls == old(app.calls) + [CreatePostCall(old(text), old(imageFile))]
      ensures !AllSpace(old(text)) && app.currentUser.Some? && answer.Ok? ==>
        && alert == None
        && text == "" && imageFile == None && imagePreview == None
        && app.calls == old(app.calls) + [CreatePostCall(old(text), old(imageFile)), GetPostsCall]
        && app.posts == (if fetched.Ok? then NewestFirst.Sort(fetched.value) else old(app.posts))
    {
      TrimEmptyIff(text);
      if Trim(text) == [] {
        return Some(EmptyContent);
      }
      alert := Send(answer, fetched);
    }

    /** The part of handleSubmit past the blank-draft check. */
    method Send(answer: Fetch<PostView>, fetched: Fetch<seq<PostView>>) returns (alert: Option<string>)
      modifies this`text, this`imageFile, this`imagePreview, this`isSubmitting, app`posts, app`calls
      ensures !isSubmitting
      ensures app.currentUser.None? || answer.Failed? ==>
        && alert == Some(CreateFailed)
        && text == old(text) && imageFile == old(imageFile) && imagePreview == old(imagePreview)
        && app.posts == old(app.posts)
      ensures app.currentUser.None? ==> app.calls == old(app.calls)
      ensures app.currentUser.Some? && answer.Failed? ==>
        app.calls == old(app.calls) + [CreatePostCall(old(text), old(imageFile))]
      ensures app.currentUser.Some? && answer.Ok? ==>
        && alert == None
        && text == "" && imageFile == None && imagePreview == None
        && app.calls == old(app.calls) + [CreatePostCall(old(text), old(imageFile)), GetPostsCall]
        && app.posts == (if fetched.Ok? then NewestFirst.Sort(fetched.value) else old(app.posts))
    {
      isSubmitting := true;
      var c := app.CreatePost(text, imageFile, answer, fetched);
      if c.Resolved? {
        text := "";
        RemoveImage();
        alert := None;
      } else {
        alert := Some(CreateFailed);
      }
      isSubmitting := false;
    }
  }
}
