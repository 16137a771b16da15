/** The video listing: every video with a short preview of its transcript. */
module VideoList {
  import opened Wrappers
  import opened PyStr
  import opened Tables

  /** `VideoPreviewSchema` */
  datatype VideoPreview = VideoPreview(id: string, title: string, transcriptPreview: string)

  /** `(transcript or "")` */
  function TextOf(transcript: Option<string>): string
  {
    if transcript.Some? then transcript.value else ""
  }

  /** At most the first three lines of a transcript. */
  function FirstLines(text: string): (lines: seq<string>)
    ensures |lines| <= 3
    ensures lines <= SplitLines(text)
    ensures |lines| < 3 ==> lines == SplitLines(text)
  {
    var all := SplitLines(text);
    if |all| <= 3 then all else all[..3]
  }

  /** The preview of a transcript: its first three lines joined by spaces, then stripped. */
  function Preview(transcript: Option<string>): string
  {
    Strip(Join(" ", FirstLines(TextOf(transcript))))
  }

  /** A preview is a single line with no white space at either end. */
  lemma PreviewIsTrimmedLine(transcript: Option<string>)
    ensures var p := Preview(transcript);
      && SingleLine(p)
      && (p == [] || (!IsSpace(p[0]) && !IsSpace(p[|p| - 1])))
  {
    var joined := Join(" ", FirstLines(TextOf(transcript)));
    JoinChars(" ", FirstLines(TextOf(transcript)), c => !IsLineBreak(c));
    StripChars(joined, c => !IsLineBreak(c));
  }

  function PreviewOf(v: Video): VideoPreview
  {
    VideoPreview(v.id, v.title, Preview(v.transcript))
  }

  /** `[f(row) for row in rows]`, built one row at a time. */
  function MapRows<A, B>(f: A -> B, rows: seq<A>): (r: seq<B>)
    ensures |r| == |rows|
  {
    if rows == [] then [] else MapRows(f, rows[..|rows| - 1]) + [f(rows[|rows| - 1])]
  }

  lemma {:induction false} MapRowsAt<A, B>(f: A -> B, rows: seq<A>)
    ensures forall i :: 0 <= i < |rows| ==> MapRows(f, rows)[i] == f(rows[i])
  {
    if rows != [] {
      var init := rows[..|rows| - 1];
      MapRowsAt(f, init);
      forall i | 0 <= i < |init| ensures rows[i] == init[i] { }
    }
  }

  /**
   * `list_videos`: one entry per video, in table order, holding the video's
   * id, its title and the preview of its transcript.
   */
  method ListVideos(db: Database) returns (views: seq<VideoPreview>)
    ensures |views| == |db.videos|
    ensures forall i :: 0 <= i < |views| ==>
      views[i] == VideoPreview(db.videos[i].id, db.videos[i].title, Preview(db.videos[i].transcript))
  {
    views := [];
    var i := 0;
    while i < |db.videos|
      invariant 0 <= i <= |db.videos|
      invariant views == MapRows(PreviewOf, db.videos[..i])
    {
      var vid := db.videos[i];
      assert db.videos[..i + 1][..i] == db.videos[..i];
      views := views + [VideoPreview(vid.id, vid.title, Preview(vid.transcript))];
      i := i + 1;
    }
    assert db.videos[..i] == db.videos;
    MapRowsAt(PreviewOf, db.videos);
  }

  /** A video without a transcript, or with an empty one, has an empty preview. */
  lemma PreviewOfNothing()
    ensures Preview(None) == ""
    ensures Preview(Some("")) == ""
  {
  }

  /** A one-line transcript is previewed whole, only stripped. */
  lemma PreviewOneLine(t: string)
    requires t != "" && SingleLine(t)
    ensures Preview(Some(t)) == Strip(t)
  {
    LineEndOfSingle(t);
    assert SplitLines(t) == [t];
  }

  /**
   * For a transcript made of lines, the preview is the first three of them
   * (or all, when there are fewer) joined by spaces and stripped: whatever
   * follows the third line break is ignored.
   */
  lemma PreviewOfLines(lines: seq<string>)
    requires lines != [] && lines[|lines| - 1] != ""
    requires forall k :: 0 <= k < |lines| ==> SingleLine(lines[k])
    ensures Preview(Some(Join("\n", lines))) == Strip(Join(" ", if |lines| <= 3 then lines else lines[..3]))
  {
    SplitLinesJoin(lines);
  }
}
