/**
 * The video upload router: sanitising a title into a file name, and choosing
 * where an uploaded or downloaded video is stored. Copying the file, running
 * `yt-dlp` and `ffmpeg`, transcription and saving the video row are outside
 * this model.
 */
module VideoUpload {
  import opened Wrappers
  import opened Http
  import opened PyStr
  import opened Tables

  /** `UPLOAD_DIR` */
  const UploadDir := "uploads/videos/"

  // ---------------------------------------------------------------------------
  // sanitize_filename
  // ---------------------------------------------------------------------------

  /** The character class `[A-Za-z0-9_\-]` a sanitised title is made of. */
  predicate IsSafeChar(c: char) {
    ('A' <= c <= 'Z') || ('a' <= c <= 'z') || ('0' <= c <= '9') || c == '_' || c == '-'
  }

  predicate AllSafe(s: string) {
    forall i :: 0 <= i < |s| ==> IsSafeChar(s[i])
  }

  /** The length of the maximal run of disallowed characters that starts `s`. */
  function UnsafeRun(s: string): (k: nat)
    ensures k <= |s|
    ensures forall i :: 0 <= i < k ==> !IsSafeChar(s[i])
    ensures k < |s| ==> IsSafeChar(s[k])
  {
    if s == [] || IsSafeChar(s[0]) then 0 else 1 + UnsafeRun(s[1..])
  }

  /**
   * `re.sub(r"[^A-Za-z0-9_\-]+", "_", title)`: every maximal run of
   * disallowed characters becomes a single `_`; allowed characters stay.
   */
  function SanitizeFilename(title: string): (r: string)
    ensures AllSafe(r)
    ensures |r| <= |title|
    decreases |title|
  {
    if title == [] then []
    else if IsSafeChar(title[0]) then [title[0]] + SanitizeFilename(title[1..])
    else "_" + SanitizeFilename(title[UnsafeRun(title)..])
  }

  /** A title made only of allowed characters is returned unchanged. */
  lemma {:induction false} SanitizeSafeTitle(title: string)
    requires AllSafe(title)
    ensures SanitizeFilename(title) == title
  {
    if title != [] {
      SanitizeSafeTitle(title[1..]);
    }
  }

  /** A title is its own sanitisation exactly when all its characters are allowed. */
  lemma SanitizeFixpoint(title: string)
    ensures SanitizeFilename(title) == title <==> AllSafe(title)
  {
    if AllSafe(title) {
      SanitizeSafeTitle(title);
    }
  }

  /** Sanitising twice is sanitising once. */
  lemma SanitizeIdempotent(title: string)
    ensures SanitizeFilename(SanitizeFilename(title)) == SanitizeFilename(title)
  {
    SanitizeSafeTitle(SanitizeFilename(title));
  }

  /** The characters of `s` that are allowed and are not `_`, in order. */
  function Kept(s: string): string
  {
    if s == [] then []
    else (if IsSafeChar(s[0]) && s[0] != '_' then [s[0]] else []) + Kept(s[1..])
  }

  /** The number of occurrences of `c` in `s`. */
  function Count(c: char, s: string): nat
  {
    if s == [] then 0 else (if s[0] == c then 1 else 0) + Count(c, s[1..])
  }

  /** The number of maximal runs of disallowed characters in `s` (counted at their last character). */
  function Runs(s: string): nat
  {
    if s == [] then 0
    else (if !IsSafeChar(s[0]) && (|s| == 1 || IsSafeChar(s[1])) then 1 else 0) + Runs(s[1..])
  }

  lemma {:induction false} SkipUnsafe(s: string, k: nat)
    requires k <= |s|
    requires forall i :: 0 <= i < k ==> !IsSafeChar(s[i])
    ensures Kept(s) == Kept(s[k..])
    ensures Count('_', s) == Count('_', s[k..])
  {
    if k > 0 {
      assert s[1..][k - 1..] == s[k..];
      SkipUnsafe(s[1..], k - 1);
    }
  }

  lemma {:induction false} SkipRun(s: string, k: nat)
    requires 1 <= k <= |s|
    requires forall i :: 0 <= i < k ==> !IsSafeChar(s[i])
    requires k < |s| ==> IsSafeChar(s[k])
    ensures Runs(s) == 1 + Runs(s[k..])
  {
    if k > 1 {
      assert s[1..][k - 1..] == s[k..];
      SkipRun(s[1..], k - 1);
    }
  }

  /** The allowed characters other than `_` survive, in their order, and nothing else is added but `_`. */
  lemma {:induction false} SanitizeKeepsOrder(title: string)
    ensures Kept(SanitizeFilename(title)) == Kept(title)
    decreases |title|
  {
    if title != [] {
      if IsSafeChar(title[0]) {
        SanitizeKeepsOrder(title[1..]);
        assert ([title[0]] + SanitizeFilename(title[1..]))[1..] == SanitizeFilename(title[1..]);
      } else {
        var k := UnsafeRun(title);
        SanitizeKeepsOrder(title[k..]);
        SkipUnsafe(title, k);
        assert ("_" + SanitizeFilename(title[k..]))[1..] == SanitizeFilename(title[k..]);
      }
    }
  }

  /** Each maximal run of disallowed characters contributes exactly one `_`. */
  lemma {:induction false} SanitizeUnderscores(title: string)
    ensures Count('_', SanitizeFilename(title)) == Count('_', title) + Runs(title)
    decreases |title|
  {
    if title != [] {
      if IsSafeChar(title[0]) {
        SanitizeUnderscores(title[1..]);
        assert ([title[0]] + SanitizeFilename(title[1..]))[1..] == SanitizeFilename(title[1..]);
      } else {
        var k := UnsafeRun(title);
        SanitizeUnderscores(title[k..]);
        SkipUnsafe(title, k);
        SkipRun(title, k);
        assert ("_" + SanitizeFilename(title[k..]))[1..] == SanitizeFilename(title[k..]);
      }
    }
  }

  // ---------------------------------------------------------------------------
  // Stored file names
  // ---------------------------------------------------------------------------

  predicate IsHexDigit(c: char) {
    ('0' <= c <= '9') || ('a' <= c <= 'f') || ('A' <= c <= 'F')
  }

  /** The text of `uuid.uuid4()`: hexadecimal digits and hyphens. */
  predicate UuidText(u: Uuid) {
    forall i :: 0 <= i < |u| ==> IsHexDigit(u[i]) || u[i] == '-'
  }

  /** `os.path.splitext(p)[1]` on POSIX: from the last `.` of the last component, unless that component is only dots before it. */
  function Extension(p: string): (ext: string)
    ensures ext == [] || (ext[0] == '.' && '.' !in ext[1..] && '/' !in ext)
    ensures EndsWith(p, ext)
  {
    var sep := RFind(p, '/');
    var dot := RFind(p, '.');
    if dot > sep && exists i :: sep + 1 <= i < dot && p[i] != '.' then
      var ext := p[dot..];
      assert ext[1..] == p[dot + 1..];
      assert '/' !in p[sep + 1..] by {
        if sep == -1 { assert p[sep + 1..] == p; }
      }
      assert '/' !in ext by {
        assert ext == p[sep + 1..][dot - sep - 1..];
      }
      ext
    else ""
  }

  /** `os.path.join(dir, name)` on POSIX. */
  function PathJoin(dir: string, name: string): string
  {
    if StartsWith(name, "/") then name
    else if dir == "" || EndsWith(dir, "/") then dir + name
    else dir + "/" + name
  }

  datatype StoredFile = StoredFile(name: string, path: string)

  /** The file name a video is stored under: sanitised title, `_`, a fresh UUID, then an extension. */
  function StoredName(title: string, uuid: Uuid, ext: string): string
  {
    SanitizeFilename(title) + "_" + uuid + ext
  }

  /**
   * `upload_video` up to the file write: a missing or empty file name is
   * rejected with 400; otherwise the target keeps the upload's extension.
   */
  function UploadVideoTarget(title: string, filename: Option<string>, uuid: Uuid): (r: Result<StoredFile, HttpError>)
    ensures r.Err? <==> filename == None || filename.value == ""
    ensures r.Err? ==> r.error == HttpError(BadRequest, "No file uploaded")
  {
    if filename == None || filename.value == "" then Err(HttpError(BadRequest, "No file uploaded"))
    else
      var name := StoredName(title, uuid, Extension(filename.value));
      Ok(StoredFile(name, PathJoin(UploadDir, name)))
  }

  /** `upload_youtube_video` up to the download: the target is always an `.mp4` file. */
  function YoutubeTarget(title: string, uuid: Uuid): StoredFile
  {
    var name := StoredName(title, uuid, ".mp4");
    StoredFile(name, PathJoin(UploadDir, name))
  }

  /** A stored name splits back into an extension equal to the one it was built with. */
  lemma StoredNameExtension(title: string, uuid: Uuid, ext: string)
    requires UuidText(uuid)
    requires ext == [] || (ext[0] == '.' && '.' !in ext[1..] && '/' !in ext)
    ensures Extension(StoredName(title, uuid, ext)) == ext
    ensures '/' !in StoredName(title, uuid, ext)
  {
    var a := SanitizeFilename(title) + "_" + uuid;
    var p := a + ext;
    assert p == StoredName(title, uuid, ext);
    assert '.' !in a && '/' !in a by {
      forall i | 0 <= i < |a| ensures a[i] != '.' && a[i] != '/' {
        if i < |SanitizeFilename(title)| {
          assert a[i] == SanitizeFilename(title)[i];
        } else if i > |SanitizeFilename(title)| {
          assert a[i] == uuid[i - |SanitizeFilename(title)| - 1];
        }
      }
    }
    assert '/' !in p by {
      forall i | 0 <= i < |p| ensures p[i] != '/' {
        if i < |a| { assert p[i] == a[i]; } else { assert p[i] == ext[i - |a|]; }
      }
    }
    if ext == [] {
      assert p == a;
    } else {
      var dot := RFind(p, '.');
      assert p[|a|] == '.';
      assert p[|a| + 1..] == ext[1..];
      assert dot == |a|;
      assert p[|SanitizeFilename(title)|] == '_';
    }
  }

  /** An uploaded video keeps its extension, and its path stays inside `UPLOAD_DIR`. */
  lemma UploadKeepsExtension(title: string, filename: string, uuid: Uuid)
    requires filename != "" && UuidText(uuid)
    ensures var r := UploadVideoTarget(title, Some(filename), uuid);
      && r.Ok?
      && Extension(r.value.name) == Extension(filename)
      && r.value.path == UploadDir + r.value.name
      && '/' !in r.value.name
  {
    var name := StoredName(title, uuid, Extension(filename));
    StoredNameExtension(title, uuid, Extension(filename));
    JoinUploadDir(name);
  }

  /** A downloaded YouTube video is always stored as `.mp4`, inside `UPLOAD_DIR`. */
  lemma YoutubeIsMp4(title: string, uuid: Uuid)
    requires UuidText(uuid)
    ensures Extension(YoutubeTarget(title, uuid).name) == ".mp4"
    ensures YoutubeTarget(title, uuid).path == UploadDir + YoutubeTarget(title, uuid).name
  {
    StoredNameExtension(title, uuid, ".mp4");
    JoinUploadDir(StoredName(title, uuid, ".mp4"));
  }

  lemma JoinUploadDir(name: string)
    requires '/' !in name
    ensures PathJoin(UploadDir, name) == UploadDir + name
  {
    assert !StartsWith(name, "/") by {
      if name != [] { assert name[0] in name; }
    }
    assert EndsWith(UploadDir, "/");
  }
}
