/**
 * Reviewing an uploaded video: approving it generates and stores its
 * questions; the delete action fails before it changes anything.
 */
module VideoApprove {
  import opened Wrappers
  import opened Http
  import opened PyStr
  import opened Tables
  import opened McqsGeneration
  import TakeQuiz
  import Quiz

  const VideoNotFound := "Video not found"
  const TranscriptMissing := "Transcript missing for this video"
  const InvalidReviewAction := "Invalid action. Use 'delete' or 'approve'."
  const GenerationFailedPrefix := "MCQ generation failed: "

  /** `action.lower() == "delete"` */
  predicate IsDelete(action: string) {
    LowerEquals(action, "delete")
  }

  /** `action.lower() == "approve"` */
  predicate IsApprove(action: string) {
    LowerEquals(action, "approve")
  }

  function ApprovedMessage(title: string): string {
    "Video '" + title + "' approved and MCQs generated successfully"
  }

  /**
   * What `generate_and_store_mcqs` does to the `mcqs` table: the rows it
   * adds, or the exception it raises (having added nothing).
   */
  function GenerationOutcome(transcript: string, videoTitle: string, env: Services): (r: Result<seq<Mcq>, GenerationError>)
    ensures r.Ok? ==> ParsedItems(transcript, env).Ok? && |r.value| == |ParsedItems(transcript, env).value|
    ensures r.Ok? ==> forall m :: m in r.value ==> m.videoTitle == videoTitle
    ensures ParsedItems(transcript, env).Err? ==> r == Err(ParsedItems(transcript, env).error)
  {
    match ParsedItems(transcript, env)
    case Err(e) => Err(e)
    case Ok(items) =>
      if StoresAll(items, videoTitle, env) then
        RowsTitled(items, videoTitle, env);
        Ok(Rows(items, videoTitle, env))
      else Err(RuntimeError(StoreFailed))
  }

  /**
   * `review_video`. 404 when no video has the title. `delete` (in any case)
   * fails with 500 before touching a row: the cascade names `MCQ.video_id`,
   * a column the MCQ model does not have. `approve` needs a non-empty
   * transcript (400 otherwise) and turns any generation failure into 500.
   * Any other action is 400.
   */
  method ReviewVideo(db: Database, title: string, action: string, env: Services)
    returns (r: Result<string, HttpError>)
    requires db.Valid() && FreshIds(db.mcqs, env.newId)
    modifies db
    ensures db.Valid()
    ensures db.users == old(db.users) && db.requests == old(db.requests) && db.videos == old(db.videos)
    ensures var i := FirstIndex(old(db.videos), VideoTitle, title);
      if i == |old(db.videos)| then
        r == Err(HttpError(NotFound, VideoNotFound)) && db.mcqs == old(db.mcqs)
      else if IsDelete(action) then
        r == Err(Unhandled) && db.mcqs == old(db.mcqs)
      else if !IsApprove(action) then
        r == Err(HttpError(BadRequest, InvalidReviewAction)) && db.mcqs == old(db.mcqs)
      else
        var transcript := old(db.videos)[i].transcript;
        if transcript == None || transcript.value == "" then
          r == Err(HttpError(BadRequest, TranscriptMissing)) && db.mcqs == old(db.mcqs)
        else
          match GenerationOutcome(transcript.value, title, env)
          case Ok(rows) => r == Ok(ApprovedMessage(title)) && db.mcqs == old(db.mcqs) + rows
          case Err(e) =>
            r == Err(HttpError(InternalServerError, GenerationFailedPrefix + e.message)) && db.mcqs == old(db.mcqs)
  {
    var i := FirstIndex(db.videos, VideoTitle, title);
    if i == |db.videos| {
      return Err(HttpError(NotFound, VideoNotFound));
    }
    var video := db.videos[i];
    if IsDelete(action) {
      // `MCQ.video_id` raises AttributeError before any query runs
      return Err(Unhandled);
    }
    if !IsApprove(action) {
      return Err(HttpError(BadRequest, InvalidReviewAction));
    }
    if video.transcript == None || video.transcript.value == "" {
      return Err(HttpError(BadRequest, TranscriptMissing));
    }
    var generated := GenerateAndStoreMcqs(db, video.transcript.value, video.title, env);
    match generated
    case Ok(_) => r := Ok(ApprovedMessage(title));
    case Err(e) => r := Err(HttpError(InternalServerError, GenerationFailedPrefix + e.message));
  }

  /**
   * After an approval that stored at least one question, the video has a
   * quiz and a question listing.
   */
  lemma ApprovalMakesQuiz(mcqs: seq<Mcq>, transcript: string, title: string, env: Services)
    requires GenerationOutcome(transcript, title, env).Ok?
    requires GenerationOutcome(transcript, title, env).value != []
    ensures var stored := mcqs + GenerationOutcome(transcript, title, env).value;
      && TakeQuiz.GetQuizQuestions(stored, title).Ok?
      && forall download, now :: Quiz.GetMcqsByVideoTitle(stored, title, download, now).Ok?
  {
    var rows := GenerationOutcome(transcript, title, env).value;
    var stored := mcqs + rows;
    assert rows[0] in rows;
    assert stored[|mcqs|] == rows[0];
  }

  /**
   * A transcript that is only white space passes the handler's own check
   * but is refused by generation, so the approval ends in 500 with the
   * generator's message.
   */
  lemma BlankTranscriptFails(transcript: string, title: string, env: Services)
    requires transcript != "" && Strip(transcript) == ""
    ensures GenerationOutcome(transcript, title, env) == Err(ValueError(EmptyTranscript))
  {
  }

  /**
   * A prompt template that cannot be read or rendered stops generation
   * before the model is called and before anything is stored; the approval
   * ends in 500 carrying that exception's own text.
   */
  lemma TemplateFailureFails(transcript: string, title: string, env: Services)
    requires Strip(transcript) != "" && env.templateError.Some?
    ensures GenerationOutcome(transcript, title, env) == Err(TemplateError(env.templateError.value))
  {
  }
}
