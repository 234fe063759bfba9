/**
 * The post routes (backend/routes/postRoutes.js): which routes pass the
 * `protect` guard, the upload filter that admits only JPEG and PNG images,
 * and the name an accepted upload is stored under.
 */
module PostRoutes {
  import opened Types
  import opened Text
  import opened PostController

  /** The index of the last `c` among the first `n` characters of `s`, or -1. */
  function LastIndexBefore(s: string, c: char, n: nat): (r: int)
    requires n <= |s|
    ensures -1 <= r < n
    ensures r >= 0 ==> s[r] == c
  {
    if n == 0 then -1
    else if s[n - 1] == c then n - 1
    else LastIndexBefore(s, c, n - 1)
  }

  /** `s.lastIndexOf(c)`. */
  function LastIndexOf(s: string, c: char): (r: int)
    ensures -1 <= r < |s|
    ensures r >= 0 ==> s[r] == c
  {
    LastIndexBefore(s, c, |s|)
  }

  lemma {:induction false} NothingAfterLastBefore(s: string, c: char, n: nat, i: int)
    requires n <= |s| && LastIndexBefore(s, c, n) < i < n
    ensures s[i] != c
  {
    if s[n - 1] != c && i < n - 1 {
      NothingAfterLastBefore(s, c, n - 1, i);
    }
  }

  /** No `c` follows the one `LastIndexOf` finds. */
  lemma NothingAfterLast(s: string, c: char)
    ensures forall i :: LastIndexOf(s, c) < i < |s| ==> s[i] != c
  {
    forall i | LastIndexOf(s, c) < i < |s| ensures s[i] != c {
      NothingAfterLastBefore(s, c, |s|, i);
    }
  }

  /** The last occurrence is where the caller can see it is. */
  lemma LastIndexOfAt(s: string, c: char, k: int)
    requires -1 <= k < |s| && (k >= 0 ==> s[k] == c)
    requires forall i :: k < i < |s| ==> s[i] != c
    ensures LastIndexOf(s, c) == k
  {
    NothingAfterLast(s, c);
  }

  predicate IsSuffix(e: string, s: string) {
    |e| <= |s| && s[|s| - |e|..] == e
  }

  /** A suffix of a suffix is a suffix, and it holds no character the longer one lacks. */
  lemma SuffixOfSuffix(e: string, b: string, s: string, c: char)
    requires IsSuffix(e, b) && IsSuffix(b, s)
    requires forall i :: 0 <= i < |b| ==> b[i] != c
    ensures IsSuffix(e, s)
    ensures forall i :: 0 <= i < |e| ==> e[i] != c
  {
    assert s[|s| - |b|..][|b| - |e|..] == s[|s| - |e|..];
    forall i | 0 <= i < |e| ensures e[i] != c {
      assert e[i] == b[|b| - |e| + i];
    }
  }

  /** What follows the last `/`. */
  function Basename(path: string): (b: string)
    ensures IsSuffix(b, path)
    ensures forall i :: 0 <= i < |b| ==> b[i] != '/'
  {
    NothingAfterLast(path, '/');
    path[LastIndexOf(path, '/') + 1..]
  }

  /**
   * The extension of a basename: from its last dot on; empty when there is
   * no dot, when the only dot comes first, or for `..`.
   */
  function ExtOf(base: string): (e: string)
    ensures IsSuffix(e, base)
    ensures e == [] || e[0] == '.'
    ensures forall i :: 0 < i < |e| ==> e[i] != '.'
    ensures e != [] ==> |e| < |base|
    ensures base == ".." ==> e == []
    ensures e == [] ==> base == ".." || forall i :: 0 < i < |base| ==> base[i] != '.'
  {
    NothingAfterLast(base, '.');
    var dot := LastIndexOf(base, '.');
    if dot <= 0 || base == ".." then ""
    else
      base[dot..]
  }

  /** `path.extname`: the extension of the basename. */
  function Ext(path: string): (e: string)
    ensures IsSuffix(e, path)
    ensures e == [] || e[0] == '.'
    ensures forall i :: 0 < i < |e| ==> e[i] != '.'
    ensures forall i :: 0 <= i < |e| ==> e[i] != '/'
    ensures e != [] ==> |e| < |Basename(path)|
    ensures Basename(path) == ".." ==> e == []
    ensures e == [] ==> Basename(path) == ".." || forall i :: 0 < i < |Basename(path)| ==> Basename(path)[i] != '.'
  {
    var b := Basename(path);
    var e := ExtOf(b);
    SuffixOfSuffix(e, b, path, '/');
    e
  }

  /**
   * The extension runs from the basename's last dot to its end, whenever
   * that dot is not the basename's first character (and the basename is not `..`).
   */
  lemma ExtFromLastDot(path: string, k: int)
    requires var b := Basename(path);
      && b != ".." && 0 < k < |b| && b[k] == '.'
      && forall i :: k < i < |b| ==> b[i] != '.'
    ensures Ext(path) == Basename(path)[k..]
  {
    var b := Basename(path);
    LastIndexOfAt(b, '.', k);
  }

  /** The regular expression `/jpg|jpeg|png/` matches somewhere in `s`. */
  predicate MatchesImageType(s: string) {
    Contains(s, "jpg") || Contains(s, "jpeg") || Contains(s, "png")
  }

  /** checkFileType: the lower-cased extension and the MIME type, as sent, both match. */
  predicate CheckFileType(originalName: string, mimeType: string) {
    MatchesImageType(Lower(Ext(originalName))) && MatchesImageType(mimeType)
  }

  /** A file without an extension is never admitted. */
  lemma EmptyExtensionRejected(originalName: string, mimeType: string)
    requires Ext(originalName) == ""
    ensures !CheckFileType(originalName, mimeType)
  {
    ShortDoesNotContain("", "jpg");
    ShortDoesNotContain("", "jpeg");
    ShortDoesNotContain("", "png");
  }

  /** The extension is compared case-insensitively... */
  lemma UpperCaseExtensionAdmitted()
    ensures CheckFileType("photo.PNG", "image/png")
  {
    assert "photo" + ".PNG" == "photo.PNG";
    assert Lower(".PNG") == ".png";
    assert OccursAt(".png", "png", 1);
    assert OccursAt("image/png", "png", 6);
    AdmittedName("photo", ".PNG", "image/png");
  }

  /** ...but the MIME type is not lower-cased, so an upper-case MIME type is refused. */
  lemma UpperCaseMimeTypeRejected()
    ensures !CheckFileType("photo.png", "image/PNG")
  {
    var m := "image/PNG";
    forall part, i | part in ["jpg", "jpeg", "png"] && 0 <= i <= |m| - |part|
      ensures !OccursAt(m, part, i)
    {
      assert m[i..i + |part|][0] == m[i] != part[0];
    }
    assert !MatchesImageType(m);
  }

  /** The pattern is not anchored: a match anywhere in the text counts. */
  lemma UnanchoredMatch()
    ensures CheckFileType("scan.xpngx", "text/x-png-notes")
  {
    assert "scan" + ".xpngx" == "scan.xpngx";
    assert Lower(".xpngx") == ".xpngx";
    assert OccursAt(".xpngx", "png", 2);
    assert OccursAt("text/x-png-notes", "png", 7);
    AdmittedName("scan", ".xpngx", "text/x-png-notes");
  }

  /**
   * A plain stem, a dot and a tail whose lower-cased form and the MIME type
   * both contain `png` are admitted.
   */
  lemma AdmittedName(stem: string, e: string, mimeType: string)
    requires |stem| > 0 && '.' !in stem && '/' !in stem
    requires |e| > 0 && e[0] == '.' && '.' !in e[1..] && '/' !in e
    requires Contains(Lower(e), "png") && Contains(mimeType, "png")
    ensures CheckFileType(stem + e, mimeType)
  {
    forall i | 0 < i < |e| ensures e[i] != '.' {
      assert e[i] == e[1..][i - 1];
    }
    ExtAfterPlainPrefix(stem, e);
  }

  /** The multer `filename` rule: field name, a dash, the timestamp, the original extension. */
  function StoredFilename(fieldName: string, now: nat, originalName: string): (r: string)
    ensures |r| > |fieldName|
  {
    fieldName + "-" + NatToString(now) + Ext(originalName)
  }

  /** The stored name starts with the field name and a dash and ends with the upload's extension. */
  lemma StoredFilenameShape(fieldName: string, now: nat, originalName: string)
    ensures var r := StoredFilename(fieldName, now, originalName);
      && r[..|fieldName|] == fieldName
      && r[|fieldName|] == '-'
      && IsSuffix(Ext(originalName), r)
  {
    var r := StoredFilename(fieldName, now, originalName);
    var e := Ext(originalName);
    assert r == (fieldName + "-" + NatToString(now)) + e;
  }

  /**
   * As long as the field name holds no dot or slash, the stored name has
   * the same extension as the uploaded one, so it passes the filter exactly
   * when the upload did.
   */
  lemma StoredFilenameKeepsExtension(fieldName: string, now: nat, originalName: string, mimeType: string)
    requires '.' !in fieldName && '/' !in fieldName
    ensures Ext(StoredFilename(fieldName, now, originalName)) == Ext(originalName)
    ensures CheckFileType(StoredFilename(fieldName, now, originalName), mimeType)
        == CheckFileType(originalName, mimeType)
  {
    var prefix := fieldName + "-" + NatToString(now);
    assert StoredFilename(fieldName, now, originalName) == prefix + Ext(originalName);
    assert forall i :: 0 <= i < |prefix| ==> prefix[i] != '.' && prefix[i] != '/';
    ExtAfterPlainPrefix(prefix, Ext(originalName));
  }

  /** No slash: the whole string is its basename. */
  lemma BasenameWithoutSlash(s: string)
    requires forall i :: 0 <= i < |s| ==> s[i] != '/'
    ensures Basename(s) == s
  {
    LastIndexOfAt(s, '/', -1);
  }

  /** Behind a directory ending in a slash, a slash-free name is the basename. */
  lemma BasenameUnderDirectory(dir: string, name: string)
    requires |dir| > 0 && dir[|dir| - 1] == '/'
    requires forall i :: 0 <= i < |name| ==> name[i] != '/'
    ensures Basename(dir + name) == name
  {
    var s := dir + name;
    forall i | |dir| - 1 < i < |s| ensures s[i] != '/' {
      assert s[i] == name[i - |dir|];
    }
    LastIndexOfAt(s, '/', |dir| - 1);
    assert s[|dir|..] == name;
  }

  /** Two slash-free strings make a slash-free string. */
  lemma NoSlashAppend(a: string, b: string)
    requires forall i :: 0 <= i < |a| ==> a[i] != '/'
    requires forall i :: 0 <= i < |b| ==> b[i] != '/'
    ensures forall i :: 0 <= i < |a + b| ==> (a + b)[i] != '/'
  {
    forall i | 0 <= i < |a + b| ensures (a + b)[i] != '/' {
      if i < |a| { assert (a + b)[i] == a[i]; } else { assert (a + b)[i] == b[i - |a|]; }
    }
  }

  /** A name without a dot has no extension. */
  lemma ExtOfDotless(s: string)
    requires forall i :: 0 <= i < |s| ==> s[i] != '.'
    ensures ExtOf(s) == ""
  {
    LastIndexOfAt(s, '.', -1);
  }

  /** A dot-free non-empty stem followed by a dot and dot-free text: the extension is that tail. */
  lemma ExtOfStemAndTail(prefix: string, e: string)
    requires |prefix| > 0 && forall i :: 0 <= i < |prefix| ==> prefix[i] != '.'
    requires e != [] && e[0] == '.'
    requires forall i :: 0 < i < |e| ==> e[i] != '.'
    ensures ExtOf(prefix + e) == e
  {
    var s := prefix + e;
    forall i | |prefix| < i < |s| ensures s[i] != '.' {
      assert s[i] == e[i - |prefix|];
    }
    LastIndexOfAt(s, '.', |prefix|);
    assert s[|prefix|..] == e;
    assert s[0] == prefix[0];
  }

  /**
   * A non-empty prefix free of dots and slashes, followed by something
   * shaped like an extension, has exactly that extension.
   */
  lemma ExtAfterPlainPrefix(prefix: string, e: string)
    requires |prefix| > 0
    requires forall i :: 0 <= i < |prefix| ==> prefix[i] != '.' && prefix[i] != '/'
    requires e == [] || e[0] == '.'
    requires forall i :: 0 < i < |e| ==> e[i] != '.'
    requires forall i :: 0 <= i < |e| ==> e[i] != '/'
    ensures Ext(prefix + e) == e
  {
    NoSlashAppend(prefix, e);
    BasenameWithoutSlash(prefix + e);
    if e == [] {
      assert prefix + e == prefix;
      ExtOfDotless(prefix);
    } else {
      ExtOfStemAndTail(prefix, e);
    }
  }

  // ---------------------------------------------------------------------
  // Routing

  /** A file sent in the `image` field: its client-side name and declared MIME type. */
  datatype Upload = Upload(originalName: string, mimeType: string)

  /** `upload.single('image')`: the form field files arrive in. */
  const ImageField := "image"

  /** The public URL of an upload stored at time `now`. */
  function UploadUrl(now: nat, originalName: string): (url: string) {
    "/uploads/" + StoredFilename(ImageField, now, originalName)
  }

  /** The URL recorded on a post ends in the uploaded file's own extension. */
  lemma UploadUrlKeepsExtension(now: nat, originalName: string)
    ensures Ext(UploadUrl(now, originalName)) == Ext(originalName)
  {
    var name := StoredFilename(ImageField, now, originalName);
    ImageFieldIsPlain();
    UploadUrlBasename(now, originalName);
    StoredFilenameKeepsExtension(ImageField, now, originalName, "");
    assert Ext(UploadUrl(now, originalName)) == ExtOf(name) == Ext(name);
  }

  /** The field name holds neither a dot nor a slash. */
  lemma ImageFieldIsPlain()
    ensures '.' !in ImageField && '/' !in ImageField
  {
  }

  /** The stored name is both the URL's basename and its own. */
  lemma UploadUrlBasename(now: nat, originalName: string)
    ensures var name := StoredFilename(ImageField, now, originalName);
      Basename(UploadUrl(now, originalName)) == name && Basename(name) == name
  {
    var name := StoredFilename(ImageField, now, originalName);
    ImageFieldIsPlain();
    StoredFilenameHasNoSlash(ImageField, now, originalName);
    BasenameUnderDirectory("/uploads/", name);
    BasenameWithoutSlash(name);
  }

  lemma StoredFilenameHasNoSlash(fieldName: string, now: nat, originalName: string)
    requires '/' !in fieldName
    ensures forall i :: 0 <= i < |StoredFilename(fieldName, now, originalName)| ==>
      StoredFilename(fieldName, now, originalName)[i] != '/'
  {
    var name := StoredFilename(fieldName, now, originalName);
    var prefix := fieldName + "-" + NatToString(now);
    var e := Ext(originalName);
    assert name == prefix + e;
    forall i | 0 <= i < |name| ensures name[i] != '/' {
      if i < |prefix| { assert name[i] == prefix[i]; } else { assert name[i] == e[i - |prefix|]; }
    }
  }

  /** The six routes and what each request carries. */
  datatype Request =
    | ListAll
    | ListByUser(userId: UserId)
    | Create(text: Option<string>, file: Option<Upload>)
    | Update(id: PostId, newText: Option<string>)
    | Delete(id: PostId)
    | Like(id: PostId)

  /** The routes that pass through `protect` before their handler. */
  predicate Protected(req: Request) {
    req.Create? || req.Update? || req.Delete? || req.Like?
  }

  /** Refused by a middleware before the handler ran, or answered by the handler. */
  datatype Outcome = Refused(reason: string) | Handled(reply: Reply)

  /**
   * The refusal `protect` answers with. The guard's module is not part of
   * this model, so its exact message is a placeholder.
   */
  const NoToken := "Not authorized"
  const ImagesOnly := "Images only!"

  /**
   * The router: `protect` first on the guarded routes (the caller is the
   * identity it resolved, or none), then on create the upload filter and
   * the storage rule, then the controller. The document store's fresh id,
   * its enumeration order and the two clock readings (`Date.now()` when the
   * upload is named, the schema's timestamp when the post is saved) are
   * parameters.
   */
  method Dispatch(store: PostStore, req: Request, caller: Option<UserId>,
                  scan: seq<PostId>, newId: PostId, uploadTime: nat, createdAt: nat,
                  nameOf: UserId -> string) returns (out: Outcome)
    requires store.Valid()
    requires req.ListAll? || req.ListByUser? ==> IsScan(scan, store.posts)
    requires req.Create? ==> newId !in store.posts
    modifies store
    ensures store.Valid()
    ensures Protected(req) && caller.None? ==> out == Refused(NoToken)
    ensures store.posts != old(store.posts) ==> Protected(req) && caller.Some? && out.Handled?
    ensures !Protected(req) ==> out.Handled? && out.reply.status == 200
    ensures req.Create? && caller.Some? && req.file.Some? ==>
      (!CheckFileType(req.file.value.originalName, req.file.value.mimeType) ==>
        out == Refused(ImagesOnly) && store.posts == old(store.posts))
    ensures caller.Some? && !(req.Create? && req.file.Some?
                              && !CheckFileType(req.file.value.originalName, req.file.value.mimeType)) ==>
      out.Handled?
    ensures req.ListAll? ==>
      store.posts == old(store.posts) && out == Handled(store.GetPosts(scan, nameOf))
    ensures req.ListByUser? ==>
      store.posts == old(store.posts) && out == Handled(store.GetPostsByUser(scan, req.userId, nameOf))
    ensures req.Create? && caller.Some? && out.Handled? ==>
      if !Truthy(req.text) then
        out.reply == Reply(400, ErrorBody(MissingText)) && store.posts == old(store.posts)
      else
        var url := if req.file.Some? then Some(UploadUrl(uploadTime, req.file.value.originalName)) else None;
        && store.posts == old(store.posts)[newId := StoredPost(caller.value, req.text.value, url, createdAt, [])]
        && out.reply == Reply(201, PostBody(FormatPost(newId, store.posts[newId], nameOf)))
    ensures (req.Update? || req.Delete? || req.Like?) && caller.Some? && req.id !in old(store.posts) ==>
      store.posts == old(store.posts)
      && out.reply == Reply(if req.Like? then 404 else 400, ErrorBody(NotFound))
    ensures (req.Update? || req.Delete?) && caller.Some? && req.id in old(store.posts)
            && old(store.posts)[req.id].user != caller.value ==>
      store.posts == old(store.posts) && out.reply == Reply(401, ErrorBody(NotAuthorized))
    ensures req.Update? && caller.Some? && req.id in old(store.posts)
            && old(store.posts)[req.id].user == caller.value ==>
      var p := old(store.posts)[req.id];
      && store.posts == old(store.posts)[req.id := p.(text := if Truthy(req.newText) then req.newText.value else p.text)]
      && out.reply == Reply(200, PostBody(FormatPost(req.id, store.posts[req.id], nameOf)))
    ensures req.Delete? && caller.Some? && req.id in old(store.posts)
            && old(store.posts)[req.id].user == caller.value ==>
      store.posts == old(store.posts) - {req.id} && out.reply == Reply(200, DeletedBody(req.id))
    ensures req.Like? && caller.Some? && req.id in old(store.posts) ==>
      var p := old(store.posts)[req.id];
      && store.posts == old(store.posts)[req.id := p.(likes := Toggled(p.likes, caller.value))]
      && out.reply == Reply(200, PostBody(FormatPost(req.id, store.posts[req.id], nameOf)))
    ensures req.Create? && store.posts != old(store.posts) ==>
        && newId in store.posts
        && (req.file.Some? ==>
            && store.posts[newId].imageUrl.Some?
            && Ext(store.posts[newId].imageUrl.value) == Ext(req.file.value.originalName))
  {
    if Protected(req) && caller.None? {
      out := Refused(NoToken);
      return;
    }
    match req {
      case ListAll =>
        out := Handled(store.GetPosts(scan, nameOf));
      case ListByUser(userId) =>
        out := Handled(store.GetPostsByUser(scan, userId, nameOf));
      case Create(text, file) =>
        var filename := None;
        if file.Some? {
          var f := file.value;
          if !CheckFileType(f.originalName, f.mimeType) {
            out := Refused(ImagesOnly);
            return;
          }
          filename := Some(StoredFilename(ImageField, uploadTime, f.originalName));
          UploadUrlKeepsExtension(uploadTime, f.originalName);
        }
        var reply := store.CreatePost(caller.value, text, filename, newId, createdAt, nameOf);
        out := Handled(reply);
      case Update(id, newText) =>
        var reply := store.UpdatePost(caller.value, id, newText, nameOf);
        out := Handled(reply);
      case Delete(id) =>
        var reply := store.DeletePost(caller.value, id);
        out := Handled(reply);
      case Like(id) =>
        var reply := store.ToggleLike(caller.value, id, nameOf);
        out := Handled(reply);
    }
  }
}
