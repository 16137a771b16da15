/**
 * The chatbot endpoint: an in-memory map from session id to the turns of that
 * conversation, and the chat service that answers from retrieved transcript
 * passages. Retrieval from the vector store and the model call are supplied
 * as functions.
 */
module ChatbotRouter {
  import opened Wrappers
  import opened Http
  import opened PyStr
  import opened PromptTemplate

  /**
   * The services `chat_with_video` relies on: the passages the retriever
   * returns for a collection and a query, and the model's reply to a prompt
   * (`None` when the call raises).
   */
  datatype ChatService = ChatService(
    retrieve: (string, string) -> seq<string>,
    generate: string -> Option<string>)

  /** The vector-store collection of a video: its title with spaces replaced by `_`. */
  function CollectionName(videoTitle: string): (name: string)
    ensures |name| == |videoTitle| && ' ' !in name
  {
    ReplaceChar(videoTitle, ' ', '_')
  }

  /** The prompt `chat_with_video` sends: retrieved passages joined by blank lines as the context. */
  function ChatPrompt(svc: ChatService, videoTitle: string, userQuery: string, history: seq<Turn>): string
  {
    var context := Join("\n\n", svc.retrieve(CollectionName(videoTitle), userQuery));
    BuildChatPrompt(videoTitle, context, history, userQuery)
  }

  /** `chat_with_video` */
  function ChatWithVideo(svc: ChatService, videoTitle: string, userQuery: string, history: seq<Turn>): Option<string>
  {
    svc.generate(ChatPrompt(svc, videoTitle, userQuery, history))
  }

  /** The turn appended after a successful reply. */
  function Exchange(userQuery: string, reply: string): (t: Turn)
    ensures Lookup(t, "user") == userQuery && Lookup(t, "bot") == reply
  {
    map["user" := userQuery, "bot" := reply]
  }

  /** `chat_sessions` */
  class ChatSessions {
    var sessions: map<string, seq<Turn>>

    constructor ()
      ensures sessions == map[]
    {
      sessions := map[];
    }

    /** The history of a session, empty when the session is unknown. */
    function History(sessionId: string): (h: seq<Turn>)
      reads this
      ensures sessionId in sessions ==> h == sessions[sessionId]
      ensures sessionId !in sessions ==> h == []
    {
      if sessionId in sessions then sessions[sessionId] else []
    }

    /**
     * `chat_endpoint`: make sure the session exists, answer with the history
     * so far, then record the exchange. When the chat service raises, the
     * request fails with 500 and the session is left existing but unchanged.
     */
    method Ask(svc: ChatService, videoTitle: string, userQuery: string, sessionId: string)
      returns (r: Result<string, HttpError>)
      modifies this
      ensures var before := old(History(sessionId));
        match ChatWithVideo(svc, videoTitle, userQuery, before)
        case None =>
          r == Err(Unhandled) && sessions == old(sessions)[sessionId := before]
        case Some(reply) =>
          r == Ok(reply) && sessions == old(sessions)[sessionId := before + [Exchange(userQuery, reply)]]
    {
      var history := History(sessionId);
      sessions := sessions[sessionId := history];
      var reply := ChatWithVideo(svc, videoTitle, userQuery, history);
      if reply.None? {
        return Err(Unhandled);
      }
      sessions := sessions[sessionId := history + [Exchange(userQuery, reply.value)]];
      r := Ok(reply.value);
    }
  }

  /**
   * Other sessions are untouched by a request, and after a reply the session's
   * formatted history ends with the new exchange, numbered after the earlier ones.
   */
  lemma AskRecordsExchange(before: map<string, seq<Turn>>, sessionId: string, other: string,
                           history: seq<Turn>, userQuery: string, reply: string)
    requires other != sessionId
    ensures var after := before[sessionId := history + [Exchange(userQuery, reply)]];
      && (other in after <==> other in before)
      && (other in before ==> after[other] == before[other])
      && FormattedHistory(after[sessionId]) ==
        if history == [] then Entry(1, Exchange(userQuery, reply))
        else FormattedHistory(history) + "\n" + Entry(|history| + 1, Exchange(userQuery, reply))
  {
    FormattedHistoryAppend(history, Exchange(userQuery, reply));
  }

  /** The prompt for a question carries the whole conversation of its session so far. */
  lemma PromptCarriesHistory(svc: ChatService, videoTitle: string, userQuery: string, history: seq<Turn>, k: nat)
    requires k < |history|
    ensures IsInfix(Lookup(history[k], "user"), ChatPrompt(svc, videoTitle, userQuery, history))
    ensures IsInfix(Lookup(history[k], "bot"), ChatPrompt(svc, videoTitle, userQuery, history))
  {
    var context := Join("\n\n", svc.retrieve(CollectionName(videoTitle), userQuery));
    HistoryMentionsTurn(history, k);
    PromptContains(videoTitle, context, history, userQuery);
    InfixTrans(Lookup(history[k], "user"), FormattedHistory(history), ChatPrompt(svc, videoTitle, userQuery, history));
    InfixTrans(Lookup(history[k], "bot"), FormattedHistory(history), ChatPrompt(svc, videoTitle, userQuery, history));
  }
}
