/**
 * The text handed to the chat model: the conversation so far, numbered turn
 * by turn, and the retrieval-augmented prompt around it.
 */
module PromptTemplate {
  import opened PyStr

  /** One entry of a session history, `{"user": ..., "bot": ...}`. */
  type Turn = map<string, string>

  const NoHistory := "No previous messages."
  const NoContext := "No relevant context available."

  /** `turn.get(key, "")` */
  function Lookup(turn: Turn, key: string): (v: string)
    ensures key in turn ==> v == turn[key]
    ensures key !in turn ==> v == ""
  {
    if key in turn then turn[key] else ""
  }

  /** The lines for turn number `i` (counted from 1). */
  function Entry(i: nat, turn: Turn): string
  {
    NatToString(i) + ". User: " + Lookup(turn, "user") + "\n   Assistant: " + Lookup(turn, "bot")
  }

  /** The entries of a whole history, numbered from 1. */
  function Entries(history: seq<Turn>): (lines: seq<string>)
    ensures |lines| == |history|
    ensures forall k :: 0 <= k < |history| ==> lines[k] == Entry(k + 1, history[k])
  {
    seq(|history|, k requires 0 <= k < |history| => Entry(k + 1, history[k]))
  }

  /** What `format_chat_history` returns. */
  function FormattedHistory(history: seq<Turn>): string
  {
    if history == [] then NoHistory else Join("\n", Entries(history))
  }

  /** `format_chat_history`: collect the numbered entries, then join them with newlines. */
  method FormatChatHistory(history: seq<Turn>) returns (s: string)
    ensures s == FormattedHistory(history)
  {
    if history == [] {
      return NoHistory;
    }
    var lines: seq<string> := [];
    var i := 0;
    while i < |history|
      invariant 0 <= i <= |history|
      invariant lines == Entries(history[..i])
    {
      var u := Lookup(history[i], "user");
      var b := Lookup(history[i], "bot");
      lines := lines + [NatToString(i + 1) + ". User: " + u + "\n   Assistant: " + b];
      i := i + 1;
    }
    assert history[..i] == history;
    s := Join("\n", lines);
  }

  /** One more turn adds exactly one entry at the end, numbered after the others. */
  lemma FormattedHistoryAppend(history: seq<Turn>, turn: Turn)
    ensures FormattedHistory(history + [turn]) ==
      if history == [] then Entry(1, turn)
      else FormattedHistory(history) + "\n" + Entry(|history| + 1, turn)
  {
    var h := history + [turn];
    if history == [] {
      assert Entries(h) == [Entry(1, turn)];
    } else {
      assert Entries(h) == Entries(history) + [Entry(|history| + 1, turn)];
      JoinAppend("\n", Entries(history), Entry(|history| + 1, turn));
    }
  }

  /** Every earlier exchange, user text and reply, appears in the formatted history. */
  lemma HistoryMentionsTurn(history: seq<Turn>, k: nat)
    requires k < |history|
    ensures IsInfix(Lookup(history[k], "user"), FormattedHistory(history))
    ensures IsInfix(Lookup(history[k], "bot"), FormattedHistory(history))
  {
    var e := Entry(k + 1, history[k]);
    JoinPartInfix("\n", Entries(history), k);
    EntryMentions(k + 1, history[k]);
    InfixTrans(Lookup(history[k], "user"), e, FormattedHistory(history));
    InfixTrans(Lookup(history[k], "bot"), e, FormattedHistory(history));
  }

  /** One entry quotes both sides of its turn. */
  lemma EntryMentions(i: nat, turn: Turn)
    ensures IsInfix(Lookup(turn, "user"), Entry(i, turn))
    ensures IsInfix(Lookup(turn, "bot"), Entry(i, turn))
  {
    var u, b := Lookup(turn, "user"), Lookup(turn, "bot");
    var head := NatToString(i) + ". User: ";
    InfixOfConcat(head, u, "\n   Assistant: " + b);
    assert head + u + ("\n   Assistant: " + b) == Entry(i, turn);
    InfixOfSuffix(head + u + "\n   Assistant: ", b);
  }

  /** `context or 'No relevant context available.'` */
  function ContextOrDefault(context: string): (c: string)
    ensures context != "" ==> c == context
    ensures context == "" ==> c == NoContext
  {
    if context == "" then NoContext else context
  }

  const PromptHead := "\nYou are an expert, concise, and helpful tutoring assistant.\n\nVideo title: "
  const ContextHead := "\n\nRelevant context (from the video's transcript / extracted notes):\n---\n"
  const HistoryHead := "\n---\n\nConversation history:\n"
  const QueryHead := "\n\nUser's current question:\n"
  const TripleQuote := "\"\"\""
  const PromptTail := "\n\nInstructions for the assistant:\n"
    + "- Prefer facts from the \"Relevant context\" above. If the answer is not present, say you don't know.\n"
    + "- If you must infer, label it as an inference.\n"
    + "- Keep responses clear and step-by-step when appropriate.\n"
    + "- If the user asks for follow-up steps, give 2\U{2013}4 concise steps.\n\nAnswer now:\n"

  function Quoted(s: string): string { "\"" + s + "\"" }

  function TripleQuoted(s: string): string { TripleQuote + s + TripleQuote }

  /** `build_chat_prompt` */
  function BuildChatPrompt(videoTitle: string, context: string, history: seq<Turn>, userQuery: string): string
  {
    PromptHead + Quoted(videoTitle)
      + (ContextHead + ContextOrDefault(context)
      + (HistoryHead + FormattedHistory(history)
      + (QueryHead + TripleQuoted(userQuery) + PromptTail)))
  }

  /**
   * The prompt quotes the title, carries the retrieved context (or the
   * placeholder), the whole formatted history, and the question between
   * triple quotes.
   */
  lemma PromptContains(videoTitle: string, context: string, history: seq<Turn>, userQuery: string)
    ensures var p := BuildChatPrompt(videoTitle, context, history, userQuery);
      && IsInfix(Quoted(videoTitle), p)
      && IsInfix(ContextOrDefault(context), p)
      && IsInfix(FormattedHistory(history), p)
      && IsInfix(TripleQuoted(userQuery), p)
  {
    var c, h := ContextOrDefault(context), FormattedHistory(history);
    var p := BuildChatPrompt(videoTitle, context, history, userQuery);
    var r3 := QueryHead + TripleQuoted(userQuery) + PromptTail;
    var r2 := HistoryHead + h + r3;
    var r1 := ContextHead + c + r2;
    InfixOfConcat(PromptHead, Quoted(videoTitle), r1);
    InfixOfSuffix(PromptHead + Quoted(videoTitle), r1);
    InfixOfConcat(ContextHead, c, r2);
    InfixTrans(c, r1, p);
    InfixOfSuffix(ContextHead + c, r2);
    InfixTrans(r2, r1, p);
    InfixOfConcat(HistoryHead, h, r3);
    InfixTrans(h, r2, p);
    InfixOfSuffix(HistoryHead + h, r3);
    InfixTrans(r3, r2, p);
    InfixOfConcat(QueryHead, TripleQuoted(userQuery), PromptTail);
    InfixTrans(TripleQuoted(userQuery), r3, p);
  }
}
