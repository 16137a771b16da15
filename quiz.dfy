/**
 * The teacher's view of the stored questions of a video: each row with its
 * answer and its kind, either as a JSON body or as a downloadable file.
 */
module Quiz {
  import opened Wrappers
  import opened Http
  import opened PyStr
  import opened JsonValue
  import opened Tables
  import McqsGeneration

  const McqType := "mcq"
  const TrueFalseType := "true_false"

  /** `QuestionResponse`; `options` is JSON `null` for `None`. */
  datatype QuestionView = QuestionView(id: string, question: Json, options: Json, answer: Json, qtype: string)

  /** `MCQResponse` */
  datatype McqListing = McqListing(videoTitle: string, questions: seq<QuestionView>)

  /** The JSON body, or the file offered for download (its name, and the listing it holds). */
  datatype QuizResponse =
    | Listing(listing: McqListing)
    | Download(filename: string, listing: McqListing)

  /** One stored row as shown to the teacher: empty options become `None` and make it a true/false question. */
  function ViewOf(m: Mcq): (v: QuestionView)
    ensures v.id == m.id && v.question == m.question && v.answer == m.answer
    ensures v.qtype == McqType <==> Truthy(m.options)
    ensures v.qtype == TrueFalseType <==> !Truthy(m.options)
    ensures Truthy(m.options) ==> v.options == m.options
    ensures !Truthy(m.options) ==> v.options == JNull
  {
    QuestionView(m.id, m.question,
      if Truthy(m.options) then m.options else JNull,
      m.answer,
      if Truthy(m.options) then McqType else TrueFalseType)
  }

  function Views(rows: seq<Mcq>): (vs: seq<QuestionView>)
    ensures |vs| == |rows|
    ensures forall i :: 0 <= i < |rows| ==> vs[i] == ViewOf(rows[i])
  {
    seq(|rows|, i requires 0 <= i < |rows| => ViewOf(rows[i]))
  }

  /** A moment as `datetime.utcnow()` gives it, to the second. */
  datatype DateTime = DateTime(year: nat, month: nat, day: nat, hour: nat, minute: nat, second: nat)

  predicate ValidDateTime(t: DateTime) {
    1 <= t.year <= 9999 && 1 <= t.month <= 12 && 1 <= t.day <= 31
    && t.hour < 24 && t.minute < 60 && t.second < 60
  }

  /** `strftime('%Y%m%d%H%M%S')` */
  function Stamp(t: DateTime): string
  {
    ZeroPad(t.year, 4) + ZeroPad(t.month, 2) + ZeroPad(t.day, 2)
      + ZeroPad(t.hour, 2) + ZeroPad(t.minute, 2) + ZeroPad(t.second, 2)
  }

  /** For a valid moment the stamp is exactly fourteen digits. */
  lemma StampDigits(t: DateTime)
    requires ValidDateTime(t)
    ensures |Stamp(t)| == 14 && AllDigits(Stamp(t))
  {
    assert Pow10(2) == 100 && Pow10(4) == 10000;
    NatToStringWidth(t.year, 4);
    NatToStringWidth(t.month, 2);
    NatToStringWidth(t.day, 2);
    NatToStringWidth(t.hour, 2);
    NatToStringWidth(t.minute, 2);
    NatToStringWidth(t.second, 2);
    var y, mo, d := ZeroPad(t.year, 4), ZeroPad(t.month, 2), ZeroPad(t.day, 2);
    var h, mi, se := ZeroPad(t.hour, 2), ZeroPad(t.minute, 2), ZeroPad(t.second, 2);
    DigitsConcat(y, mo);
    DigitsConcat(y + mo, d);
    DigitsConcat(y + mo + d, h);
    DigitsConcat(y + mo + d + h, mi);
    DigitsConcat(y + mo + d + h + mi, se);
  }

  /** The name of the downloaded file: the title with spaces as `_`, `_mcqs_`, the stamp, `.json`. */
  function DownloadFilename(videoTitle: string, now: DateTime): string
  {
    ReplaceChar(videoTitle, ' ', '_') + "_mcqs_" + Stamp(now) + ".json"
  }

  function NoMcqsDetail(videoTitle: string): string {
    "No MCQs found for video title '" + videoTitle + "'"
  }

  /** `get_mcqs_by_video_title`; the moment is read only when a download is asked for. */
  function GetMcqsByVideoTitle(mcqs: seq<Mcq>, videoTitle: string, download: bool, now: DateTime)
    : (r: Result<QuizResponse, HttpError>)
    ensures r.Err? <==> forall i :: 0 <= i < |mcqs| ==> mcqs[i].videoTitle != videoTitle
    ensures r.Err? ==> r.error == HttpError(NotFound, NoMcqsDetail(videoTitle))
    ensures r.Ok? ==> r.value.listing == McqListing(videoTitle, Views(FilterBy(mcqs, McqVideoTitle, videoTitle)))
    ensures r.Ok? ==> (r.value.Download? <==> download)
    ensures r.Ok? && download ==> r.value.filename == DownloadFilename(videoTitle, now)
  {
    var rows := FilterBy(mcqs, McqVideoTitle, videoTitle);
    if rows == [] then Err(HttpError(NotFound, NoMcqsDetail(videoTitle)))
    else
      var listing := McqListing(videoTitle, Views(rows));
      if !download then Ok(Listing(listing))
      else Ok(Download(DownloadFilename(videoTitle, now), listing))
  }

  /** Every listed question is one of the video's rows, and every row of the video is listed. */
  lemma ListingIsTheVideosRows(mcqs: seq<Mcq>, videoTitle: string, download: bool, now: DateTime)
    requires GetMcqsByVideoTitle(mcqs, videoTitle, download, now).Ok?
    ensures var qs := GetMcqsByVideoTitle(mcqs, videoTitle, download, now).value.listing.questions;
      && (forall v :: v in qs ==> exists m :: m in mcqs && m.videoTitle == videoTitle && v == ViewOf(m))
      && (forall m :: m in mcqs && m.videoTitle == videoTitle ==> ViewOf(m) in qs)
  {
    var rows := FilterBy(mcqs, McqVideoTitle, videoTitle);
    var qs := Views(rows);
    forall v | v in qs ensures exists m :: m in mcqs && m.videoTitle == videoTitle && v == ViewOf(m) {
      var i :| 0 <= i < |qs| && qs[i] == v;
      assert rows[i] in rows;
    }
    forall m | m in mcqs && m.videoTitle == videoTitle ensures ViewOf(m) in qs {
      var i :| 0 <= i < |rows| && rows[i] == m;
      assert qs[i] == ViewOf(m);
    }
  }

  /** The downloaded file name has no spaces and ends in `.json`, after a fourteen-digit stamp. */
  lemma DownloadFilenameShape(videoTitle: string, now: DateTime)
    requires ValidDateTime(now)
    ensures var f := DownloadFilename(videoTitle, now);
      && ' ' !in f
      && EndsWith(f, ".json")
      && |f| == |videoTitle| + 6 + 14 + 5
  {
    StampDigits(now);
    var f := DownloadFilename(videoTitle, now);
    var name := ReplaceChar(videoTitle, ' ', '_');
    var s := Stamp(now);
    assert ' ' !in name by {
      forall i | 0 <= i < |name| ensures name[i] != ' ' {}
    }
    assert ' ' !in s by {
      forall i | 0 <= i < |s| ensures s[i] != ' ' {
        assert IsDigit(s[i]);
      }
    }
    forall i | 0 <= i < |f| ensures f[i] != ' ' {
      if i < |name| {
        assert f[i] == name[i];
      } else if i < |name| + 6 {
        assert f[i] == "_mcqs_"[i - |name|];
      } else if i < |name| + 6 + |s| {
        assert f[i] == s[i - |name| - 6];
      } else {
        assert f[i] == ".json"[i - |name| - 6 - |s|];
      }
    }
    assert f[|f| - 5..] == ".json";
  }

  /**
   * A stored item is shown as a multiple-choice question exactly when it was
   * typed `"mcq"` and came with non-empty options; every other item is shown
   * as true/false, without options.
   */
  lemma StoredItemKind(item: map<string, Json>, videoTitle: string, id: Uuid, at: int)
    ensures var v := ViewOf(McqsGeneration.RowFor(item, videoTitle, id, at));
      && (v.qtype == McqType <==> Get(item, "type") == JStr("mcq") && Truthy(Get(item, "options")))
      && (v.qtype == TrueFalseType ==> v.options == JNull)
  {
  }
}
