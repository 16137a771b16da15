/**
 * Quiz generation: cleaning the model's reply down to its JSON array
 * (`extract_json_from_text`) and storing one MCQ row per parsed item
 * (`generate_and_store_mcqs`). The Gemini call, the outcome of reading and
 * rendering the prompt template, and `json.loads` are supplied from outside
 * as `Services`.
 */
module McqsGeneration {
  import opened Wrappers
  import opened PyStr
  import opened JsonValue
  import opened Tables

  // ---------------------------------------------------------------------------
  // extract_json_from_text
  // ---------------------------------------------------------------------------

  const Fence := "```"

  /** `c` matches the pattern letter `t` of `json` under `re.IGNORECASE` (`s` also matches the long s). */
  predicate MatchesLetter(c: char, t: char)
    requires 'a' <= t <= 'z'
  {
    c == t || c as int == t as int - 32 || (t == 's' && c == '\U{17F}')
  }

  /** `t[i..i + 4]` is `json` in any case, as `re.IGNORECASE` matches it. */
  predicate JsonTag(t: string, i: nat) {
    && i + 4 <= |t|
    && MatchesLetter(t[i], 'j') && MatchesLetter(t[i + 1], 's')
    && MatchesLetter(t[i + 2], 'o') && MatchesLetter(t[i + 3], 'n')
  }

  /** The length of the match of `^```(json)?` in a string that starts with a fence. */
  function FenceLength(t: string): (n: nat)
    requires StartsWith(t, Fence)
    ensures n == 3 || n == 7
    ensures n == 7 <==> JsonTag(t, 3)
    ensures n <= |t|
    ensures forall i :: 0 <= i < n ==> t[i] != '[' && t[i] != ']'
  {
    if JsonTag(t, 3) then 7 else 3
  }

  /** What follows the opening fence: strip, then drop one closing fence and strip again. */
  function AfterOpenFence(rest: string): string
  {
    DropClosingFence(Strip(rest))
  }

  /** `if text.endswith("```"): text = text[:-3].strip()` */
  function DropClosingFence(t2: string): string
  {
    if EndsWith(t2, Fence) then Strip(t2[..|t2| - 3]) else t2
  }

  /**
   * The fence step of `extract_json_from_text`: strip; if a fence opens the
   * text, drop it (with an optional `json` tag) and strip, then drop one
   * closing fence and strip again.
   */
  function StripFences(text: string): string
  {
    var t1 := Strip(text);
    if StartsWith(t1, Fence) then AfterOpenFence(t1[FenceLength(t1)..]) else t1
  }

  /** `t[t.index("[") : t.rindex("]") + 1]`, empty when that `]` comes before the `[`. */
  function BracketSlice(t: string): (r: string)
    requires '[' in t && ']' in t
    ensures r == "" || (r[0] == '[' && r[|r| - 1] == ']')
    ensures r == "" <==> LastIndexOf(t, ']') < IndexOf(t, '[')
    ensures r != "" ==> r == t[IndexOf(t, '[')..LastIndexOf(t, ']') + 1]
  {
    var start := IndexOf(t, '[');
    var end := LastIndexOf(t, ']') + 1;
    if start <= end then
      var r := t[start..end];
      assert r != "" ==> r[0] == t[start] && r[|r| - 1] == t[end - 1];
      r
    else ""
  }

  /** The array step of `extract_json_from_text`: the bracketed part when there is one, else the text as it is. */
  function ArrayPart(t: string): string
  {
    if '[' in t && ']' in t then BracketSlice(t) else t
  }

  /** `extract_json_from_text` */
  function ExtractJson(text: string): (r: string)
    ensures text == "" ==> r == ""
  {
    if text == "" then text else ArrayPart(StripFences(text))
  }

  lemma ArrayPartInfix(t: string)
    ensures IsInfix(ArrayPart(t), t)
  {
    if '[' in t && ']' in t {
      var r := BracketSlice(t);
      if r != "" {
        InfixOfSlice(r, t, IndexOf(t, '['), LastIndexOf(t, ']') + 1);
      } else {
        InfixOfSlice("", t, 0, 0);
      }
    } else {
      InfixOfSlice(t, t, 0, |t|);
    }
  }

  lemma AfterOpenFenceInfix(rest: string)
    ensures IsInfix(AfterOpenFence(rest), rest)
  {
    StripInfix(rest);
    DropClosingFenceInfix(Strip(rest));
    InfixTrans(DropClosingFence(Strip(rest)), Strip(rest), rest);
  }

  lemma DropClosingFenceInfix(t2: string)
    ensures IsInfix(DropClosingFence(t2), t2)
  {
    if EndsWith(t2, Fence) {
      StripPrefixInfix(t2, |t2| - 3);
    } else {
      InfixOfSlice(t2, t2, 0, |t2|);
    }
  }

  lemma StripPrefixInfix(t: string, n: nat)
    requires n <= |t|
    ensures IsInfix(Strip(t[..n]), t)
  {
    InfixOfSlice(t[..n], t, 0, n);
    StripInfix(t[..n]);
    InfixTrans(Strip(t[..n]), t[..n], t);
  }

  lemma StripFencesInfix(text: string)
    ensures IsInfix(StripFences(text), text)
  {
    var t1 := Strip(text);
    StripInfix(text);
    if StartsWith(t1, Fence) {
      var r := AfterOpenFence(t1[FenceLength(t1)..]);
      assert StripFences(text) == r;
      OpenedInfix(t1);
      InfixTrans(r, t1, text);
    } else {
      assert StripFences(text) == t1;
    }
  }

  lemma OpenedInfix(t1: string)
    requires StartsWith(t1, Fence)
    ensures IsInfix(AfterOpenFence(t1[FenceLength(t1)..]), t1)
  {
    var n := FenceLength(t1);
    AfterOpenFenceInfix(t1[n..]);
    InfixOfTail(AfterOpenFence(t1[n..]), t1, n);
  }

  /** The result is always a contiguous piece of the model's reply. */
  lemma ExtractJsonInfix(text: string)
    ensures IsInfix(ExtractJson(text), text)
  {
    if text == "" {
      InfixOfSlice(text, text, 0, 0);
    } else {
      StripFencesInfix(text);
      ArrayPartInfix(StripFences(text));
      InfixTrans(ArrayPart(StripFences(text)), StripFences(text), text);
    }
  }

  /**
   * The result is empty, or is bracketed as a JSON array, or is the cleaned
   * text when that lacks `[` or `]`.
   */
  lemma ExtractJsonShape(text: string)
    ensures var r := ExtractJson(text);
      r == "" || (r[0] == '[' && r[|r| - 1] == ']') || (r == StripFences(text) && ('[' !in r || ']' !in r))
  {
    if text != "" {
      var t := StripFences(text);
      assert ExtractJson(text) == ArrayPart(t);
      ArrayPartShape(t);
    }
  }

  lemma ArrayPartShape(t: string)
    ensures var r := ArrayPart(t);
      r == "" || (r[0] == '[' && r[|r| - 1] == ']') || (r == t && ('[' !in r || ']' !in r))
  {
    if '[' in t && ']' in t {
      var r := BracketSlice(t);
      assert r == "" || (r[0] == '[' && r[|r| - 1] == ']');
    }
  }

  /** Without an opening fence and without a `[`, the reply is only stripped: a closing fence stays. */
  lemma ExtractJsonUnfenced(text: string)
    requires text != "" && !StartsWith(Strip(text), Fence) && '[' !in text
    ensures ExtractJson(text) == Strip(text)
  {
    var t1 := Strip(text);
    StripChars(text, c => c != '[');
    assert '[' !in t1 by {
      assert forall i :: 0 <= i < |t1| ==> t1[i] != '[';
    }
    assert StripFences(text) == t1;
  }

  /** A reply whose every `]` precedes its every `[` gives the empty string, which is not JSON. */
  lemma ArrayPartReversed(a: string, b: string)
    requires ']' in a && '[' !in a && '[' in b && ']' !in b
    ensures ArrayPart(a + b) == ""
  {
    var t := a + b;
    assert ']' in t by { var i :| 0 <= i < |a| && a[i] == ']'; assert t[i] == ']'; }
    assert '[' in t by { var i :| 0 <= i < |b| && b[i] == '['; assert t[|a| + i] == '['; }
    var start, last := IndexOf(t, '['), LastIndexOf(t, ']');
    assert start >= |a|;
    assert last < |a|;
  }

  /** `t = a + body + c` with no `[` in `a` and no `]` in `c`: the bracket slice is `body`. */
  lemma BracketSliceOf(a: string, body: string, c: string)
    requires |body| >= 2 && body[0] == '[' && body[|body| - 1] == ']'
    requires '[' !in a && ']' !in c
    ensures ArrayPart(a + body + c) == body
  {
    var t := a + body + c;
    assert t[|a|] == '[';
    assert t[..|a|] == a;
    IndexOfAt(t, '[', |a|);
    var last := |a| + |body| - 1;
    assert t[last] == ']';
    assert t[last + 1..] == c;
    LastIndexOfAt(t, ']', last);
    assert t[|a|..last + 1] == body;
  }

  /** Within `x`, a slice spanning `x[p..q]` with no `[` before `p` and no `]` from `q` on has that array part. */
  lemma ArrayPartOfSpan(x: string, lo: nat, p: nat, q: nat, hi: nat)
    requires lo <= p && p + 2 <= q <= hi <= |x|
    requires x[p] == '[' && x[q - 1] == ']'
    requires forall i :: 0 <= i < p ==> x[i] != '['
    requires forall i :: q <= i < |x| ==> x[i] != ']'
    ensures ArrayPart(x[lo..hi]) == x[p..q]
  {
    var a, body, c := x[lo..p], x[p..q], x[q..hi];
    SliceSplit(x, lo, p, q, hi);
    assert body[0] == '[' && body[|body| - 1] == ']';
    assert '[' !in a by {
      forall i | 0 <= i < |a| ensures a[i] != '[' {
        assert a[i] == x[lo + i];
      }
    }
    assert ']' !in c by {
      forall i | 0 <= i < |c| ensures c[i] != ']' {
        assert c[i] == x[q + i];
      }
    }
    BracketSliceOf(a, body, c);
  }

  lemma SliceSplit(x: string, i: nat, j: nat, k: nat, l: nat)
    requires i <= j <= k <= l <= |x|
    ensures x[i..l] == x[i..j] + x[j..k] + x[k..l]
  {
  }

  /** Dropping an opening fence and stripping keeps the span `x[p..q]`, which starts with `[`. */
  lemma OpenFenceSpan(x: string, lo: nat, hi: nat, p: nat, q: nat) returns (lo': nat, hi': nat)
    requires lo <= p < q <= hi <= |x|
    requires x[p] == '[' && x[q - 1] == ']'
    requires StartsWith(x[lo..hi], Fence)
    ensures lo <= lo' <= p && q <= hi' <= hi
    ensures Strip(x[lo..hi][FenceLength(x[lo..hi])..]) == x[lo'..hi']
  {
    var t1 := x[lo..hi];
    var n := FenceLength(t1);
    assert t1[p - lo] == '[';
    assert lo + n <= p;
    DropOfSlice(x, lo, hi, n);
    lo', hi' := StripSpan(x, lo + n, hi, p, q);
  }

  lemma DropOfSlice(x: string, lo: nat, hi: nat, n: nat)
    requires lo + n <= hi <= |x|
    ensures x[lo..hi][n..] == x[lo + n..hi]
  {
  }

  /** Dropping a closing fence and stripping keeps the span `x[p..q]`, which ends with `]`. */
  lemma CloseFenceSpan(x: string, lo: nat, hi: nat, p: nat, q: nat) returns (lo': nat, hi': nat)
    requires lo <= p < q <= hi <= |x|
    requires x[p] == '[' && x[q - 1] == ']'
    requires EndsWith(x[lo..hi], Fence)
    ensures lo <= lo' <= p && q <= hi' <= hi
    ensures Strip(x[lo..hi][..hi - lo - 3]) == x[lo'..hi']
  {
    var t2 := x[lo..hi];
    assert t2[q - 1 - lo] == ']';
    assert q <= hi - 3;
    assert t2[..hi - lo - 3] == x[lo..hi - 3];
    lo', hi' := StripSpan(x, lo, hi - 3, p, q);
  }

  /** Cleaning the fences off `x` keeps the span `x[p..q]` that is bracketed as an array. */
  lemma StripFencesSpan(x: string, p: nat, q: nat) returns (lo: nat, hi: nat)
    requires p < q <= |x|
    requires x[p] == '[' && x[q - 1] == ']'
    ensures lo <= p && q <= hi <= |x|
    ensures StripFences(x) == x[lo..hi]
  {
    assert x[0..|x|] == x;
    lo, hi := StripSpan(x, 0, |x|, p, q);
    var t1 := Strip(x);
    if StartsWith(t1, Fence) {
      var lo2, hi2 := OpenFenceSpan(x, lo, hi, p, q);
      var t2 := Strip(t1[FenceLength(t1)..]);
      assert t2 == x[lo2..hi2];
      if EndsWith(t2, Fence) {
        lo, hi := CloseFenceSpan(x, lo2, hi2, p, q);
      } else {
        lo, hi := lo2, hi2;
      }
    }
  }

  /**
   * A JSON array surrounded by chatter — a fence with or without a `json`
   * tag, prose, whitespace — comes out exactly, as long as no `[` precedes it
   * and no `]` follows it.
   */
  lemma ExtractJsonFindsArray(pre: string, body: string, post: string)
    requires |body| >= 2 && body[0] == '[' && body[|body| - 1] == ']'
    requires '[' !in pre && ']' !in post
    ensures ExtractJson(pre + body + post) == body
  {
    var x := pre + body + post;
    var p, q := |pre|, |pre| + |body|;
    assert x[p..q] == body;
    assert x[p] == '[' && x[q - 1] == ']';
    forall i | 0 <= i < p ensures x[i] != '[' {
      assert x[i] == pre[i];
    }
    forall i | q <= i < |x| ensures x[i] != ']' {
      assert x[i] == post[i - q];
    }
    var lo, hi := StripFencesSpan(x, p, q);
    ArrayPartOfSpan(x, lo, p, q, hi);
  }

  /** A reply fenced as ```` ```json ```` … ```` ``` ```` yields exactly the array inside. */
  lemma ExtractJsonFenced(body: string)
    requires |body| >= 2 && body[0] == '[' && body[|body| - 1] == ']'
    ensures ExtractJson("```json\n" + body + "\n```") == body
  {
    ExtractJsonFindsArray("```json\n", body, "\n```");
  }

  /** After the opening fence: white space, the content, white space and one closing fence leave the content. */
  lemma ClosingFenceDropped(sp1: string, body: string, sp2: string)
    requires forall i :: 0 <= i < |sp1| ==> IsSpace(sp1[i])
    requires forall i :: 0 <= i < |sp2| ==> IsSpace(sp2[i])
    requires body != [] && !IsSpace(body[0]) && !IsSpace(body[|body| - 1])
    ensures AfterOpenFence(sp1 + body + sp2 + Fence) == body
  {
    var tail := body + sp2 + Fence;
    LeadingSpaceDropped(sp1, body, sp2);
    TrailingFenceDropped(body, sp2);
    AfterOpenFenceOf(sp1 + body + sp2 + Fence, tail, body);
  }

  lemma LeadingSpaceDropped(sp1: string, body: string, sp2: string)
    requires forall i :: 0 <= i < |sp1| ==> IsSpace(sp1[i])
    requires body != [] && !IsSpace(body[0])
    ensures Strip(sp1 + body + sp2 + Fence) == body + sp2 + Fence
  {
    var tail := body + sp2 + Fence;
    assert sp1 + body + sp2 + Fence == sp1 + tail + [];
    assert tail[0] == body[0] && tail[|tail| - 1] == '`';
    StripPadded(sp1, tail, []);
  }

  lemma TrailingFenceDropped(body: string, sp2: string)
    requires forall i :: 0 <= i < |sp2| ==> IsSpace(sp2[i])
    requires body != [] && !IsSpace(body[0]) && !IsSpace(body[|body| - 1])
    ensures EndsWith(body + sp2 + Fence, Fence)
    ensures Strip((body + sp2 + Fence)[..|body + sp2 + Fence| - 3]) == body
  {
    var tail := body + sp2 + Fence;
    assert tail[|tail| - 3..] == Fence;
    assert tail[..|tail| - 3] == [] + body + sp2;
    StripPadded([], body, sp2);
  }

  lemma AfterOpenFenceOf(rest: string, t2: string, core: string)
    requires Strip(rest) == t2 && EndsWith(t2, Fence) && Strip(t2[..|t2| - 3]) == core
    ensures AfterOpenFence(rest) == core
  {
  }

  /**
   * An opening fence tagged `json` in any case and one closing fence are
   * removed together with the white space inside them.
   */
  lemma StripFencesTagged(tag: string, sp1: string, body: string, sp2: string)
    requires |tag| == 4 && JsonTag(tag, 0)
    requires forall i :: 0 <= i < |sp1| ==> IsSpace(sp1[i])
    requires forall i :: 0 <= i < |sp2| ==> IsSpace(sp2[i])
    requires body != [] && !IsSpace(body[0]) && !IsSpace(body[|body| - 1])
    ensures StripFences(Fence + tag + sp1 + body + sp2 + Fence) == body
    ensures ExtractJson(Fence + tag + sp1 + body + sp2 + Fence) == ArrayPart(body)
  {
    var u := sp1 + body + sp2 + Fence;
    assert Fence + tag + sp1 + body + sp2 + Fence == Fence + tag + u;
    assert u[|u| - 1] == '`';
    OpenTagDropped(tag, u);
    ClosingFenceDropped(sp1, body, sp2);
  }

  /** A fence followed by `json` in any case is dropped as one piece, and the rest is stripped. */
  lemma OpenTagDropped(tag: string, u: string)
    requires |tag| == 4 && JsonTag(tag, 0)
    requires u != [] && !IsSpace(u[|u| - 1])
    ensures StripFences(Fence + tag + u) == AfterOpenFence(u)
  {
    var x := Fence + tag + u;
    assert x[0] == '`' && x[|x| - 1] == u[|u| - 1];
    StripUnpadded(x);
    assert x[..3] == Fence;
    forall i | 0 <= i < 4 ensures x[3 + i] == tag[i] {
    }
    assert FenceLength(x) == 7;
    DropPrefix(Fence + tag, u);
  }

  /** ```` ```JSON {x} ``` ```` cleans to `{x}`: the tag is matched whatever its case. */
  lemma ExtractJsonUpperTag()
    ensures ExtractJson("```JSON {x} ```") == "{x}"
  {
    UpperTagPieces();
    StripFencesTagged("JSON", " ", "{x}", " ");
    assert '[' !in "{x}";
  }

  lemma UpperTagPieces()
    ensures "```JSON {x} ```" == Fence + "JSON" + " " + "{x}" + " " + Fence
    ensures |"JSON"| == 4 && JsonTag("JSON", 0)
  {
  }

  // ---------------------------------------------------------------------------
  // generate_and_store_mcqs
  // ---------------------------------------------------------------------------

  /** The exception `generate_and_store_mcqs` raises. */
  datatype GenerationError =
    | ValueError(message: string)
    | RuntimeError(message: string)
      /** Whatever reading or rendering the prompt template raised; nothing in the function catches it. */
    | TemplateError(message: string)

  const EmptyTranscript := "Transcript is empty. Cannot generate MCQs."
  const ApiFailed := "Gemini API call failed"
  const InvalidJson := "Gemini response is not valid JSON"
  const StoreFailed := "Failed to store MCQs"

  /**
   * What the code depends on from outside: the exception raised while
   * loading and rendering the `mcq_generator` template (`None` when both
   * succeed), the model's reply text (`None` when the call raised), `json.loads` (`None` when it raised), the values
   * `uuid.uuid4()` and `datetime.utcnow()` give for the i-th item, and
   * whether the database is able to commit.
   */
  datatype Services = Services(
    templateError: Option<string>,
    reply: Option<string>,
    parse: string -> Option<Json>,
    newId: nat -> Uuid,
    clock: nat -> int,
    storageUp: bool)

  /**
   * The steps of `generate_and_store_mcqs` before anything is stored: the
   * transcript check, the template, the Gemini call and parsing its reply.
   * The result is the parsed list of items, or the exception raised.
   */
  function ParsedItems(transcript: string, env: Services): (r: Result<seq<Json>, GenerationError>)
    ensures Strip(transcript) == "" ==> r == Err(ValueError(EmptyTranscript))
    ensures Strip(transcript) != "" && env.templateError.Some? ==> r == Err(TemplateError(env.templateError.value))
    ensures Strip(transcript) != "" && env.templateError.None? && env.reply.None? ==> r == Err(RuntimeError(ApiFailed))
    ensures Strip(transcript) != "" && env.templateError.None? && env.reply.Some?
      && !(env.parse(ExtractJson(env.reply.value)).Some? && env.parse(ExtractJson(env.reply.value)).value.JArr?)
      ==> r == Err(ValueError(InvalidJson))
    ensures r.Ok? <==>
      && Strip(transcript) != ""
      && env.templateError.None?
      && env.reply.Some?
      && env.parse(ExtractJson(env.reply.value)).Some?
      && env.parse(ExtractJson(env.reply.value)).value.JArr?
    ensures r.Ok? ==> JArr(r.value) == env.parse(ExtractJson(env.reply.value)).value
  {
    if Strip(transcript) == "" then Err(ValueError(EmptyTranscript))
    else if env.templateError.Some? then Err(TemplateError(env.templateError.value))
    else if env.reply.None? then Err(RuntimeError(ApiFailed))
    else
      match env.parse(ExtractJson(env.reply.value))
      case Some(JArr(items)) => Ok(items)
      case _ => Err(ValueError(InvalidJson))
  }

  /** The `MCQ(...)` built in the storing loop for one item; only an item typed `"mcq"` keeps its options. */
  function RowFor(item: map<string, Json>, videoTitle: string, id: Uuid, at: int): (m: Mcq)
    ensures m.id == id && m.videoTitle == videoTitle && m.createdAt == at
    ensures m.question == Get(item, "question") && m.answer == Get(item, "answer")
    ensures Get(item, "type") == JStr("mcq") ==> m.options == Get(item, "options")
    ensures Get(item, "type") != JStr("mcq") ==> m.options == JNull
  {
    Mcq(id, videoTitle, Get(item, "question"),
        if Get(item, "type") == JStr("mcq") then Get(item, "options") else JNull,
        Get(item, "answer"), at)
  }

  predicate AllObjects(items: seq<Json>) {
    forall i :: 0 <= i < |items| ==> items[i].JObj?
  }

  /** The rows the loop adds, one per item, in order. */
  function Rows(items: seq<Json>, videoTitle: string, env: Services): (rows: seq<Mcq>)
    requires AllObjects(items)
  {
    seq(|items|, i requires 0 <= i < |items| => RowFor(items[i].fields, videoTitle, env.newId(i), env.clock(i)))
  }

  /** The NOT NULL constraints of `question` and `answer`. */
  predicate Storable(m: Mcq) {
    m.question != JNull && m.answer != JNull
  }

  /** The commit succeeds: every item is an object (`item.get` works) and every row satisfies the schema. */
  predicate StoresAll(items: seq<Json>, videoTitle: string, env: Services) {
    && AllObjects(items)
    && env.storageUp
    && forall i :: 0 <= i < |items| ==> Storable(Rows(items, videoTitle, env)[i])
  }

  function StoredMessage(count: nat): string {
    NatToString(count) + " questions stored successfully"
  }

  /** The i-th `uuid.uuid4()` differs from every other draw and from every stored MCQ id. */
  ghost predicate FreshIds(mcqs: seq<Mcq>, newId: nat -> Uuid) {
    && (forall i: nat, j: nat :: i != j ==> newId(i) != newId(j))
    && (forall i: nat, k :: 0 <= k < |mcqs| ==> newId(i) != mcqs[k].id)
  }

  /** Every row the loop adds carries the title of the video it was generated for. */
  lemma RowsTitled(items: seq<Json>, videoTitle: string, env: Services)
    requires AllObjects(items)
    ensures forall m :: m in Rows(items, videoTitle, env) ==> m.videoTitle == videoTitle
  {
    var rows := Rows(items, videoTitle, env);
    forall m | m in rows ensures m.videoTitle == videoTitle {
      var k :| 0 <= k < |rows| && rows[k] == m;
      assert rows[k] == RowFor(items[k].fields, videoTitle, env.newId(k), env.clock(k));
    }
  }

  /** One row per item, each tagged with the video title, fresh and distinct ids. */
  lemma RowsFacts(items: seq<Json>, videoTitle: string, env: Services, mcqs: seq<Mcq>)
    requires AllObjects(items) && FreshIds(mcqs, env.newId) && UniqueBy(mcqs, McqId)
    ensures |Rows(items, videoTitle, env)| == |items|
    ensures forall m :: m in Rows(items, videoTitle, env) ==> m.videoTitle == videoTitle
    ensures UniqueBy(mcqs + Rows(items, videoTitle, env), McqId)
  {
    RowsTitled(items, videoTitle, env);
    var rows := Rows(items, videoTitle, env);
    var all := mcqs + rows;
    forall a, b | 0 <= a < b < |all| ensures McqId(all[a]) != McqId(all[b]) {
      if b < |mcqs| {
      } else if a < |mcqs| {
        assert all[b].id == env.newId(b - |mcqs|);
      } else {
        assert all[a].id == env.newId(a - |mcqs|) && all[b].id == env.newId(b - |mcqs|);
      }
    }
  }

  /**
   * The storing step of `generate_and_store_mcqs`: add one row per item, then commit all of them; on any
   * failure roll back, so that nothing is stored.
   */
  method StoreItems(db: Database, items: seq<Json>, videoTitle: string, env: Services)
    returns (r: Result<string, GenerationError>)
    requires db.Valid() && FreshIds(db.mcqs, env.newId)
    modifies db
    ensures db.Valid()
    ensures db.users == old(db.users) && db.requests == old(db.requests) && db.videos == old(db.videos)
    ensures StoresAll(items, videoTitle, env) ==>
      r == Ok(StoredMessage(|items|)) && db.mcqs == old(db.mcqs) + Rows(items, videoTitle, env)
    ensures !StoresAll(items, videoTitle, env) ==>
      r == Err(RuntimeError(StoreFailed)) && db.mcqs == old(db.mcqs)
  {
    var pending: seq<Mcq> := [];
    var i := 0;
    while i < |items|
      invariant 0 <= i <= |items|
      invariant forall k :: 0 <= k < i ==> items[k].JObj?
      invariant |pending| == i
      invariant forall k :: 0 <= k < i ==>
        pending[k] == RowFor(items[k].fields, videoTitle, env.newId(k), env.clock(k))
    {
      if !items[i].JObj? {
        // `item.get` raises AttributeError: the session is rolled back
        return Err(RuntimeError(StoreFailed));
      }
      pending := pending + [RowFor(items[i].fields, videoTitle, env.newId(i), env.clock(i))];
      i := i + 1;
    }
    assert pending == Rows(items, videoTitle, env);
    if env.storageUp && forall k :: 0 <= k < |pending| ==> Storable(pending[k]) {
      RowsFacts(items, videoTitle, env, db.mcqs);
      db.mcqs := db.mcqs + pending;
      r := Ok(StoredMessage(|items|));
    } else {
      r := Err(RuntimeError(StoreFailed));
    }
  }

  /** `generate_and_store_mcqs`: validate the transcript and the reply, then store the items. */
  method GenerateAndStoreMcqs(db: Database, transcript: string, videoTitle: string, env: Services)
    returns (r: Result<string, GenerationError>)
    requires db.Valid() && FreshIds(db.mcqs, env.newId)
    modifies db
    ensures db.Valid()
    ensures db.users == old(db.users) && db.requests == old(db.requests) && db.videos == old(db.videos)
    ensures match ParsedItems(transcript, env)
      case Err(e) => r == Err(e) && db.mcqs == old(db.mcqs)
      case Ok(items) =>
        if StoresAll(items, videoTitle, env) then
          r == Ok(StoredMessage(|items|)) && db.mcqs == old(db.mcqs) + Rows(items, videoTitle, env)
        else
          r == Err(RuntimeError(StoreFailed)) && db.mcqs == old(db.mcqs)
  {
    var parsed := ParsedItems(transcript, env);
    if parsed.Err? {
      return Err(parsed.error);
    }
    r := StoreItems(db, parsed.value, videoTitle, env);
  }
}
