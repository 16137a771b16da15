# QuizStream, modelled in Dafny

QuizStream is a FastAPI service. Teachers upload lecture videos. The videos are transcribed, and an LLM turns each transcript into multiple-choice and true/false questions. Students then take quizzes and chat with a video.

This project models the deterministic layer around the hosted services and proves properties about it. That layer covers:

- **Text shaping:**
  - cleaning an LLM reply down to its JSON array;
  - sanitising titles into file names;
  - numbering the chat history and building the chat prompt;
  - the transcript preview.
- **Question presentation:**
  - the teacher's listing and its download name;
  - the student's quiz, with answers hidden.
- **Authentication:**
  - token claims and expiry;
  - the claim check on incoming tokens;
  - the role guard.
- **State changes over the tables:**
  - signup requests and their approval or rejection;
  - deleting a question;
  - video review and question generation;
  - the in-memory chat sessions.

## Design

- **Modules follow the source files.** Shared modules:
  - `Wrappers`: `Option`/`Result`.
  - `Http`: errors with status codes.
  - `JsonValue`: parsed JSON, its truthiness, and `dict.get`.
  - `PyStr`: Python string semantics (`isspace`, `strip`, `splitlines`, `join`, `index`/`rindex`, `upper()`/`lower()` comparisons, `str(int)`, zero padding).
  - `Tables`: the row types and the database.
- **The database session is a `class Database`.** It has one `seq` field per table, and `Valid()` states the key constraints. Handlers that write (`signup`, `manage_user`, `delete_mcq`, `review_video`, `generate_and_store_mcqs`) are methods that modify it. Read-only handlers are functions over the table sequences. A query's `.first()` is `FirstIndex`; its `.all()` is `FilterBy`, in table order.
- **Loops stay loops.** `format_chat_history`, the `list_videos` loop and the row-building loop of `generate_and_store_mcqs` are methods with loops. Each is proved against a specification function.
- **`chat_sessions` is the class `ChatSessions`.** It holds a `map` field that `Ask` updates in place. The `setdefault` happens before the chat call, so a new session exists even when the call fails. The model keeps that order.
- **Outside services are parameters:**
  - the Gemini reply, whether the prompt template loaded, `json.loads`, `uuid.uuid4()` and `datetime.utcnow()`;
  - JWT signing and decoding;
  - bcrypt hashing and checking;
  - vector-store retrieval.
- **Exceptions nothing catches become `Http.Unhandled`** (500). Examples are an `AttributeError`, or a pydantic validation error on a token claim.

## Model

| member | source | states |
|---|---|---|
| Tables.Role.Value | app/models/user.py:10-12 | a role's stored value is `"teacher"` or `"student"` |
| Tables.FirstIndex | app/routers/delete_mcqs.py:44 | `.first()`: the position of the first row with the key, with no earlier row having it, or the table length when no row has it |
| Tables.FilterBy | app/routers/quiz.py:49 | `.all()`: exactly the rows with the key; empty iff no row has it |
| Tables.RemoveUnique | app/routers/delete_mcqs.py:49 | with a unique key, deleting a row keeps the key unique and keeps exactly the rows with a different key |
| Tables.Database.constructor | app/models/user.py:14-34 | a fresh database has empty tables and satisfies the key constraints |
| PyStr.Strip | app/services/mcqs_generation.py:54 | `str.strip()`: a contiguous slice that starts after the leading white space and does not start or end with white space |
| PyStr.StripDropsSpaces | app/services/mcqs_generation.py:54 | everything `strip` removes is white space |
| PyStr.StripIdempotent | app/services/mcqs_generation.py:58 | stripping twice is stripping once |
| PyStr.SplitLinesJoin | app/routers/video_list.py:51 | `splitlines` recovers single lines joined by `"\n"` when the last one is not empty |
| PyStr.NatToStringRoundTrip | app/services/prompt_template.py:43 | `str(n)` is a digit string whose value is `n` |
| PyStr.ReplaceChar | app/routers/quiz.py:72 | `replace` of one character: same length, every occurrence replaced, every other character kept |
| VideoUpload.SanitizeFilename | app/routers/video_upload.py:56 | the result holds only ASCII letters, digits, `_` and `-`, and is never longer than the title |
| VideoUpload.SanitizeFixpoint | app/routers/video_upload.py:56 | a title is returned unchanged iff all its characters are allowed |
| VideoUpload.SanitizeIdempotent | app/routers/video_upload.py:56 | sanitising twice equals sanitising once |
| VideoUpload.SanitizeKeepsOrder | app/routers/video_upload.py:56 | the allowed characters other than `_` survive in their order |
| VideoUpload.SanitizeUnderscores | app/routers/video_upload.py:56 | the output has one `_` more than the title for each maximal run of disallowed characters |
| VideoUpload.Extension | app/routers/video_upload.py:92 | `os.path.splitext(p)[1]`: empty, or a suffix of `p` that starts with its only `.` and holds no `/` |
| VideoUpload.UploadVideoTarget | app/routers/video_upload.py:88-93 | a missing or empty file name is 400 "No file uploaded"; otherwise a target is chosen |
| VideoUpload.StoredNameExtension | app/routers/video_upload.py:92 | a stored name `<sanitised>_<uuid><ext>` has extension `ext` and no `/` |
| VideoUpload.UploadKeepsExtension | app/routers/video_upload.py:88-93 | an upload keeps its file's extension and is stored directly under `uploads/videos/` |
| VideoUpload.YoutubeIsMp4 | app/routers/video_upload.py:137-139 | a YouTube download is stored as `.mp4` directly under `uploads/videos/` |
| McqsGeneration.FenceLength | app/services/mcqs_generation.py:58 | the match of `^```(json)?` (ignoring case) is 7 characters long exactly when `json` in any case follows the fence, and 3 otherwise; it holds no bracket |
| McqsGeneration.BracketSlice | app/services/mcqs_generation.py:63-66 | the slice from the first `[` through the last `]`; empty exactly when that `]` comes before the `[` |
| McqsGeneration.ExtractJson | app/services/mcqs_generation.py:51-52 | an empty reply is returned unchanged |
| McqsGeneration.ExtractJsonInfix | app/services/mcqs_generation.py:51-68 | the result is always a contiguous piece of the reply |
| McqsGeneration.ExtractJsonShape | app/services/mcqs_generation.py:62-68 | the result is empty, bracketed, or the fence-stripped text lacking `[` or `]` |
| McqsGeneration.ExtractJsonUnfenced | app/services/mcqs_generation.py:54-68 | with no opening fence and no `[`, the reply is only stripped; a trailing fence stays |
| McqsGeneration.ExtractJsonFindsArray | app/services/mcqs_generation.py:54-66 | an array with no `[` before it and no `]` after it comes out exactly, whatever fences, tags and chatter surround it |
| McqsGeneration.ExtractJsonFenced | app/services/mcqs_generation.py:57-66 | a reply fenced as ```` ```json ```` … ```` ``` ```` yields exactly the array inside |
| McqsGeneration.StripFencesTagged | app/services/mcqs_generation.py:54-60 | an opening fence tagged `json` in any case, one closing fence and the white space inside them are removed, leaving the content |
| McqsGeneration.ExtractJsonUpperTag | app/services/mcqs_generation.py:54-68 | ```` ```JSON {x} ``` ```` cleans to `{x}` |
| McqsGeneration.ArrayPartReversed | app/services/mcqs_generation.py:63-66 | when every `]` precedes every `[`, the slice is empty |
| McqsGeneration.ParsedItems | app/services/mcqs_generation.py:88-118 | a blank transcript is a ValueError before anything else; a template that fails to load or render raises its own exception; a failed model call is a RuntimeError; a reply that does not parse to a list is a ValueError; the items exist iff none of these happens |
| McqsGeneration.RowFor | app/services/mcqs_generation.py:123-130 | a row copies question and answer and tags the video; options are kept iff the item's type is `"mcq"`, else null |
| McqsGeneration.RowsTitled | app/services/mcqs_generation.py:123-130 | every row the loop adds names the video the questions were generated for |
| McqsGeneration.RowsFacts | app/services/mcqs_generation.py:122-131 | one row per item, each tagged with the title, with ids unique among all stored rows |
| McqsGeneration.StoreItems | app/services/mcqs_generation.py:121-140 | on commit, exactly the item rows are appended and the count is reported; on any failure nothing is stored and RuntimeError is raised |
| McqsGeneration.GenerateAndStoreMcqs | app/services/mcqs_generation.py:71-140 | a parse error stores nothing; otherwise the outcome is that of storing the items; other tables untouched, constraints kept |
| PromptTemplate.Lookup | app/services/prompt_template.py:41-42 | `turn.get(key, "")` |
| PromptTemplate.FormatChatHistory | app/services/prompt_template.py:36-44 | the loop's result is the numbered entries joined by `"\n"`, or "No previous messages." for an empty history |
| PromptTemplate.FormattedHistoryAppend | app/services/prompt_template.py:39-44 | one more turn adds exactly one entry at the end, numbered `n + 1` |
| PromptTemplate.EntryMentions | app/services/prompt_template.py:41-43 | an entry holds both the user text and the reply |
| PromptTemplate.HistoryMentionsTurn | app/services/prompt_template.py:39-44 | every turn's user text and reply appear in the formatted history |
| PromptTemplate.ContextOrDefault | app/services/prompt_template.py:17 | an empty context becomes "No relevant context available." |
| PromptTemplate.PromptContains | app/services/prompt_template.py:4-33 | the prompt holds the quoted title, the context, the formatted history and the triple-quoted question |
| ChatbotRouter.CollectionName | app/services/chatbot.py:136 | the collection name has the title's length and no spaces |
| ChatbotRouter.Exchange | app/routers/chatbot_router.py:31 | the recorded turn maps `user` to the question and `bot` to the reply |
| ChatbotRouter.ChatSessions.constructor | app/routers/chatbot_router.py:11 | no sessions at start |
| ChatbotRouter.ChatSessions.History | app/routers/chatbot_router.py:25 | an unseen session has an empty history |
| ChatbotRouter.ChatSessions.Ask | app/routers/chatbot_router.py:24-33 | the service sees the history from before the turn; a reply is returned unchanged and appended as exactly one turn; a failure appends nothing |
| ChatbotRouter.AskRecordsExchange | app/routers/chatbot_router.py:25-31 | other sessions are unchanged, and the formatted history gains exactly the new numbered entry |
| ChatbotRouter.PromptCarriesHistory | app/services/chatbot.py:154-162 | the prompt for a question carries every earlier turn of its session |
| VideoList.PreviewIsTrimmedLine | app/routers/video_list.py:51-52 | a preview has no line break and no white space at either end |
| VideoList.FirstLines | app/routers/video_list.py:51 | at most three lines, a prefix of `splitlines()` |
| VideoList.ListVideos | app/routers/video_list.py:47-60 | one entry per video, in order, with id, title and the preview of its transcript |
| VideoList.PreviewOfNothing | app/routers/video_list.py:51-52 | a missing or empty transcript has an empty preview |
| VideoList.PreviewOneLine | app/routers/video_list.py:51-52 | a one-line transcript is only stripped |
| VideoList.PreviewOfLines | app/routers/video_list.py:51-52 | the preview is the first three lines (or fewer) joined by spaces and stripped; later lines are ignored |
| Quiz.ViewOf | app/routers/quiz.py:56-65 | id, question and answer are copied; type is `mcq` iff the options are non-empty; empty options become null |
| Quiz.Views | app/routers/quiz.py:56-65 | one view per row, in order |
| Quiz.StampDigits | app/routers/quiz.py:73 | `strftime('%Y%m%d%H%M%S')` of a valid moment is fourteen digits |
| Quiz.GetMcqsByVideoTitle | app/routers/quiz.py:49-74 | 404 iff the video has no rows; otherwise the listing of its rows, a download iff asked, with the download file name |
| Quiz.ListingIsTheVideosRows | app/routers/quiz.py:49-65 | the listing holds exactly the views of the video's rows |
| Quiz.DownloadFilenameShape | app/routers/quiz.py:71-74 | the download name has no spaces, ends in `.json`, and is the title's length plus 25 |
| Quiz.StoredItemKind | app/routers/quiz.py:60-62 | a generated item is listed as `mcq` iff it was typed `"mcq"` with non-empty options; otherwise true/false without options |
| TakeQuiz.AsQuestion | app/routers/take_quiz.py:57-58 | the question is copied; stored options are kept when non-empty, else `["True", "False"]` |
| TakeQuiz.Questions | app/routers/take_quiz.py:55-61 | one question per row, in order |
| TakeQuiz.GetQuizQuestions | app/routers/take_quiz.py:50-61 | 404 iff the video has no rows; otherwise the questions of its rows |
| TakeQuiz.OptionsNeverEmpty | app/routers/take_quiz.py:58 | every offered question has non-empty options |
| TakeQuiz.AnswersHidden | app/routers/take_quiz.py:23-26 | erasing every stored answer leaves the response unchanged |
| TakeQuiz.AnswersDoNotMatter | app/routers/take_quiz.py:55-61 | tables that differ only in answers give the same quiz |
| DeleteMcqs.DeleteMcq | app/routers/delete_mcqs.py:44-52 | 404 and nothing deleted for an unknown id; otherwise exactly the first row with the id is removed |
| DeleteMcqs.DeleteRemovesExactly | app/routers/delete_mcqs.py:44-50 | the id exists iff the call succeeds; with unique ids exactly that row goes and every other row stays |
| DeleteMcqs.MessageNamesId | app/routers/delete_mcqs.py:52 | the confirmation contains the deleted id |
| Auth.ExpiryDelta | app/auth.py:44 | no delta, or a zero one, means 60 minutes; otherwise the given delta |
| Auth.TokenClaims | app/auth.py:43-45 | the signed claims are the caller's plus `exp = now + delta`; the other keys keep their values |
| Auth.TokenCarriesData | app/auth.py:43-46 | a faithful decoder gets back every caller claim and the expiry |
| Auth.GetCurrentUser | app/auth.py:62-75 | a token that does not decode, or lacks `sub` or `role`, is 401; success iff both are strings, giving them as the user |
| Auth.RoleChecker | app/auth.py:88-91 | 403 iff the role is not allowed; otherwise the user unchanged |
| Auth.RequireRoleDecision | app/auth.py:78-93 | a request passes the guard iff its token decodes to string claims with an allowed role; an undecodable token is 401 |
| AuthRouter.Signup | app/routers/auth_router.py:15-32 | 400 and no change when the name is an account or a request; otherwise exactly one pending request with the password's hash is appended; constraints kept |
| AuthRouter.NewNameFree | app/routers/auth_router.py:18-19 | a name the two lookups miss belongs to no account and no request |
| AuthRouter.LoginClaims | app/routers/auth_router.py:42 | the claims are exactly `sub = username` and `role = role.value` |
| AuthRouter.Login | app/routers/auth_router.py:36-45 | a token iff the first account with the name exists and the password checks; else 401; always a bearer token |
| AuthRouter.LoginAuthenticates | app/routers/auth_router.py:41-45 | the login token authenticates as that account, with its role, and expires an hour after login |
| AuthRouter.AccountCanLogin | app/routers/auth_router.py:37-45 | with unique names, an account with a matching password logs in and passes a guard for its role |
| ManageUsers.ViewOf | app/routers/manage_users.py:18-23 | a listed request shows its id, role value, username and name |
| ManageUsers.PendingRequests | app/routers/manage_users.py:14-25 | exactly the requests with status `"pending"` are listed |
| ManageUsers.NewRequestListed | app/routers/manage_users.py:16-25 | a request filed by signup appears at the end of the listing |
| ManageUsers.AccountFor | app/routers/manage_users.py:36-41 | the account copies the request's username, name, hash and role |
| ManageUsers.SelfApprovalGrantsTeacher | app/routers/manage_users.py:28-45 | with no credentials asked for, approving one's own teacher request yields an account whose token passes the teacher guard |
| ManageUsers.GuardedManageUser | app/main.py:36-42 | behind `require_role(["teacher"])`, a caller without a teacher token gets the guard's error and no table changes; any change implies a teacher token |
| ManageUsers.ManageUser | app/routers/manage_users.py:28-51 | 404 for an unknown id; APPROVE (any case) adds the account and removes the request; DECLINE removes it; anything else is 400; errors change nothing; constraints kept |
| ManageUsers.DeclineKeepsValid | app/routers/manage_users.py:46-48 | removing a request keeps ids and names unique and apart |
| ManageUsers.ApproveKeepsValid | app/routers/manage_users.py:34-44 | moving a request into the accounts keeps ids and names unique, and no name is both an account and a request |
| ManageUsers.DecidedRequestNotListed | app/routers/manage_users.py:43-48 | a decided request is no longer listed |
| ManageUsers.ApprovedCanLogin | app/routers/manage_users.py:34-45 | after approval the requester can log in, and the token carries the requested role |
| VideoApprove.GenerationOutcome | app/routers/video_approve.py:91-92 | generation either appends rows tagged with the title, one per item, or raises having stored nothing |
| VideoApprove.ReviewVideo | app/routers/video_approve.py:71-102 | 404 for an unknown title; `delete` fails with 500 before any change; `approve` needs a transcript (400) and turns a generation failure into 500; other actions are 400 |
| VideoApprove.ApprovalMakesQuiz | app/routers/video_approve.py:91-97 | an approval that stored questions makes the quiz and the listing of the video available |
| VideoApprove.BlankTranscriptFails | app/routers/video_approve.py:86-92 | a white-space transcript passes the handler's check but generation refuses it |
| VideoApprove.TemplateFailureFails | app/routers/video_approve.py:91-95 | a prompt template that fails to load or render ends generation with that exception, which the handler turns into a 500 |

## Left out

- Audio extraction, transcription and the legacy upload router (`app/utils/audio_handling.py`, `app/routers/video.py`): ffmpeg, Deepgram and file writes; `video.py` is not mounted.
- Embedding, vector-store retrieval and text splitting (`app/services/chatbot.py`, `app/services/embeddings.py`): foreign calls with float scores. Retrieval and generation are parameters of `ChatService`. Only the collection-name rule and the prompt assembly are modelled.
- The Gemini calls and `json.loads` are parameters of `Services`. Reading and rendering the prompt template is too: `Services` says only whether it raised, and with which text; the template's contents are not modelled, because the prompt only reaches the Gemini parameter. The `raw_text` fallbacks (`output_text`, `str(response)`) are folded into the reply the parameter supplies.
- JWT signing and decoding, and bcrypt hashing and checking, are parameters. Expiry checking during decoding belongs to the decoder.
- `uuid.uuid4()` and `datetime.utcnow()` are parameters. Fresh ids are stated as preconditions. A UUID is its canonical text.
- Copying the uploaded file, running `yt-dlp`, and saving the video row after upload are not modelled, nor are their 500 responses.
- The `/tmp` file write and the `FileResponse` of the quiz download: only the file name and the listing it would hold are modelled.
- Engine and session plumbing (`app/db.py`, `app/utils/get_db.py`), router wiring (`app/main.py`), and the 422 FastAPI returns for a malformed UUID path parameter.
- Response-model validation by pydantic: a stored question or answer that is not a string, or options that are not a list of strings, would fail validation. The model returns the stored JSON values as they are.
- Concurrent requests touching `chat_sessions` or the database: each request is one sequential step.
- JSON numbers are integers; floats are not modelled.
- `format_chat_history(None)` is modelled as the empty history.
- The delete branch of `review_video` cascades through `MCQ.video_id`, but the MCQ model has no such column. The branch therefore raises before any row changes, and the intended deletion is not modelled.
- McqsGeneration.ParsedItems: the ValueError and RuntimeError messages omit the `: {e}` text that the source appends from the underlying exception, because that text comes from code outside the model.
- McqsGeneration.StoreItems: the RuntimeError message omits the database's `: {e}` text; the commit is modelled by the NOT NULL constraints plus an abstract `storageUp` flag.
- VideoApprove.ReviewVideo: the 500 detail carries the modelled generation message, which lacks the `: {e}` suffix.
- Auth.GetCurrentUser: a `sub` or `role` claim that is neither missing, null nor a string is modelled as an unhandled validation error (500). Pydantic versions that coerce numbers to strings would accept it instead. With python-jose as the decoder, a `sub` that is not a string never gets that far: `jwt.decode` rejects it with a claims error, which `decode` reports as `None` and the handler turns into 401. With that decoder, only a non-string `role` leads to the 500.
- ManageUsers.ManageUser: `upper()` is modelled exactly only against targets made of ASCII capitals that contain no pair produced by a one-to-many case mapping (`SS`, `FF`, `FI`, `FL`, `ST`). `APPROVE` and `DECLINE` qualify. The same holds for `lower()` in `VideoApprove.ReviewVideo` against `delete` and `approve`.
- Quiz.Stamp: years below 1000 are padded to four digits. The platform `strftime` may not pad them.

## Findings

| source | as written | input that shows it | evidently intended | confidence | as-written member | corrected member |
|---|---|---|---|---|---|---|
| app/main.py:34 | `manage_users.router` is mounted without a dependency, and `manage_user` takes no token | `POST /users/manage?request_id=<own teacher request>&action=approve` with no `Authorization` header | only a teacher decides signup requests, like the other routers that change data (app/main.py:36-42) | medium, not executed | ManageUsers.SelfApprovalGrantsTeacher | ManageUsers.GuardedManageUser |
