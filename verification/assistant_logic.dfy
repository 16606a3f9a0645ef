/**
 * The conversation core of the assistant: the bounded message history, the
 * THINKING/RESPONSE parsing of a language-model reply and its error replies, the
 * numbered history summary, the engagement analysis, the session manager, the
 * keyword extractor and the thinking formatter.
 *
 * The HTTP call to the model server and the prompt text it sends are not modelled:
 * the server's answer is a parameter (`ModelReply`).
 */
module AssistantLogic {
  import opened Wrappers
  import opened Text
  import opened Sorting

  // ---------------------------------------------------------------------------
  // History
  // ---------------------------------------------------------------------------

  datatype Message = Message(role: string, content: string)

  /** The history keeps at most this many messages. */
  const HistoryLimit: nat := 20

  /** Python `s[-n:]` for `n > 0`: the last `n` elements, or all of them. */
  function LastN<T>(s: seq<T>, n: nat): (r: seq<T>)
    ensures |r| == if |s| <= n then |s| else n
    ensures forall k :: 0 <= k < |r| ==> r[k] == s[|s| - |r| + k]
  {
    if |s| > n then s[|s| - n..] else s
  }

  lemma {:induction false} LastNAppend<T>(a: seq<T>, b: seq<T>, n: nat)
    ensures LastN(LastN(a, n) + b, n) == LastN(a + b, n)
  {
    var l := LastN(a, n) + b;
    var m := LastN(l, n);
    var w := LastN(a + b, n);
    assert |m| == |w|;
    forall k | 0 <= k < |m| ensures m[k] == w[k] {
      var p := |l| - |m| + k;
      if p < |LastN(a, n)| {
        assert l[p] == LastN(a, n)[p];
      } else {
        assert l[p] == b[p - |LastN(a, n)|];
      }
    }
  }

  /** `add_to_history`: appends the message and keeps the newest `HistoryLimit`. */
  function AddToHistory(h: seq<Message>, role: string, content: string): (r: seq<Message>)
    ensures |r| == if |h| < HistoryLimit then |h| + 1 else HistoryLimit
    ensures r[|r| - 1] == Message(role, content)
    ensures r[..|r| - 1] == LastN(h, |r| - 1)
  {
    var grown := h + [Message(role, content)];
    if |grown| > HistoryLimit then grown[|grown| - HistoryLimit..] else grown
  }

  lemma AddIsNewest(h: seq<Message>, role: string, content: string)
    ensures AddToHistory(h, role, content) == LastN(h + [Message(role, content)], HistoryLimit)
  {
  }

  lemma AppendFirst<T>(a: seq<T>, b: seq<T>)
    requires b != []
    ensures a + [b[0]] + b[1..] == a + b
  {
    assert b == [b[0]] + b[1..];
  }

  /** Adds the messages one after another. */
  function AddAll(h: seq<Message>, ms: seq<Message>): seq<Message>
    decreases |ms|
  {
    if ms == [] then h else AddAll(AddToHistory(h, ms[0].role, ms[0].content), ms[1..])
  }

  /** However many messages are added, the history is the newest `HistoryLimit` of all. */
  lemma {:induction false} AddAllKeepsNewest(h: seq<Message>, ms: seq<Message>)
    requires |h| <= HistoryLimit
    ensures AddAll(h, ms) == LastN(h + ms, HistoryLimit)
    decreases |ms|
  {
    if ms == [] {
      assert h + ms == h;
    } else {
      var m := ms[0];
      var h1 := AddToHistory(h, m.role, m.content);
      AddIsNewest(h, m.role, m.content);
      assert m == Message(m.role, m.content);
      AddAllKeepsNewest(h1, ms[1..]);
      LastNAppend(h + [m], ms[1..], HistoryLimit);
      AppendFirst(h, ms);
    }
  }

  /** `clear_history`. */
  function ClearHistory(h: seq<Message>): (r: seq<Message>)
    ensures |r| == 0
  {
    []
  }

  // ---------------------------------------------------------------------------
  // Reply parsing
  // ---------------------------------------------------------------------------

  const ThinkingHeader := "THINKING:"
  const ResponseHeader := "RESPONSE:"
  const CodeFence := "```"
  const NoStructureNotice := "No structured thinking provided - model may need prompting adjustment"

  datatype Parsed = Parsed(thinking: string, response: string)

  /** Strip, drop every code fence, strip again. */
  function Clean(s: string): (r: string)
    ensures Trimmed(r)
  {
    Strip(RemoveAll(Strip(s), CodeFence))
  }

  /** Text free of both headers and of code fences, with no whitespace at either end. */
  predicate Plain(s: string) {
    && !Contains(s, ThinkingHeader) && !Contains(s, ResponseHeader) && !Contains(s, CodeFence)
    && Trimmed(s)
  }

  lemma CleanPlain(s: string)
    requires Plain(s)
    ensures Clean(s) == s
  {
    StripTrimmed(s);
    StripTrimmed(s);
  }

  /** The split of a model reply into its reasoning and its answer. */
  function ParseReply(full: string): (p: Parsed)
    ensures !(Contains(full, ThinkingHeader) && Contains(full, ResponseHeader)) ==>
              p == Parsed(NoStructureNotice, full)
    ensures Contains(full, ThinkingHeader) && Contains(full, ResponseHeader) ==>
              && |Split(full, ThinkingHeader)| >= 2 && |Split(full, ResponseHeader)| >= 2
              && p.thinking == Clean(Split(Split(full, ThinkingHeader)[1], ResponseHeader)[0])
              && p.response == Clean(Split(full, ResponseHeader)[1])
    ensures Contains(full, ThinkingHeader) && Contains(full, ResponseHeader) ==>
              Trimmed(p.thinking) && Trimmed(p.response)
  {
    if Contains(full, ThinkingHeader) && Contains(full, ResponseHeader) then
      Parsed(Clean(BeforeFirst(Second(full, ThinkingHeader), ResponseHeader)),
             Clean(Second(full, ResponseHeader)))
    else
      Parsed(NoStructureNotice, full)
  }

  /** With both headers present, both splits have a second part: the parser's
      "Failed to parse thinking section" fallback can never be taken. */
  lemma StructuredReplySplits(full: string)
    requires Contains(full, ThinkingHeader) && Contains(full, ResponseHeader)
    ensures |Split(full, ThinkingHeader)| >= 2 && |Split(full, ResponseHeader)| >= 2
  {
  }

  /** A reply laid out the way the prompt asks. */
  function Formatted(thinking: string, response: string): string {
    ThinkingHeader + "\n" + thinking + "\n" + ResponseHeader + "\n" + response
  }

  /** Neither header occurs inside the other. */
  lemma HeadersApart()
    ensures !Occurs(ResponseHeader, ThinkingHeader) && !Occurs(ThinkingHeader, ResponseHeader)
  {
    assert ResponseHeader[0..|ResponseHeader|] == ResponseHeader;
    assert ThinkingHeader[0..|ThinkingHeader|] == ThinkingHeader;
    assert ResponseHeader != ThinkingHeader by {
      assert ResponseHeader[0] != ThinkingHeader[0];
    }
  }

  /** In a formatted reply, everything after the first THINKING: carries no further one. */
  lemma {:induction false} FormattedAfterThinking(t: string, r: string)
    requires Plain(t) && Plain(r)
    ensures Contains(Formatted(t, r), ThinkingHeader)
    ensures Second(Formatted(t, r), ThinkingHeader) == "\n" + t + "\n" + ResponseHeader + "\n" + r
  {
    var tail := "\n" + t + "\n" + ResponseHeader + "\n" + r;
    assert Formatted(t, r) == ThinkingHeader + tail;
    FormattedTailLacksThinking(t, r);
    SecondAfterLeadingSep(ThinkingHeader, tail);
  }

  /** After the THINKING: header, a formatted reply holds no further THINKING:. */
  lemma FormattedTailLacksThinking(t: string, r: string)
    requires Plain(t) && Plain(r)
    ensures !Occurs("\n" + t + "\n" + ResponseHeader + "\n" + r, ThinkingHeader)
  {
    var nl := '\n';
    assert nl !in ThinkingHeader;
    HeadersApart();
    var lead := "\n" + t;
    var trail := "\n" + r;
    NoOccurrenceAfterChar(nl, t, ThinkingHeader);
    NoOccurrenceAround(ResponseHeader, nl, r, ThinkingHeader);
    assert ResponseHeader + trail == ResponseHeader + [nl] + r;
    NoOccurrenceAround(lead, nl, ResponseHeader + trail, ThinkingHeader);
    assert "\n" + t + "\n" + ResponseHeader + "\n" + r == lead + [nl] + (ResponseHeader + trail);
  }

  /** In a formatted reply, the text between the first THINKING: and the next RESPONSE:
      is the thinking section with the line breaks around it. */
  lemma {:induction false} FormattedThinkingRaw(t: string, r: string)
    requires Plain(t) && Plain(r)
    ensures Contains(Formatted(t, r), ThinkingHeader)
    ensures BeforeFirst(Second(Formatted(t, r), ThinkingHeader), ResponseHeader) == "\n" + t + "\n"
  {
    FormattedAfterThinking(t, r);
    ThinkingSectionEnds(t, r);
  }

  /** The thinking section, lacking RESPONSE:, ends at the line break before the header. */
  lemma ThinkingSectionEnds(t: string, r: string)
    requires !Contains(t, ResponseHeader)
    ensures BeforeFirst("\n" + t + "\n" + ResponseHeader + "\n" + r, ResponseHeader) == "\n" + t + "\n"
  {
    var nl := '\n';
    assert nl !in ResponseHeader;
    var lead := [nl] + t;
    NoOccurrenceAfterChar(nl, t, ResponseHeader);
    BeforeFirstAfterChar(lead, nl, ResponseHeader, "\n" + r);
    assert lead + [nl] + ResponseHeader + ("\n" + r) == "\n" + t + "\n" + ResponseHeader + "\n" + r;
    assert lead + [nl] == "\n" + t + "\n";
  }

  /** In a formatted reply, the text after the first RESPONSE: is the response section
      after a line break. */
  lemma {:induction false} FormattedResponseRaw(t: string, r: string)
    requires Plain(t) && Plain(r)
    ensures Contains(Formatted(t, r), ResponseHeader)
    ensures Second(Formatted(t, r), ResponseHeader) == "\n" + r
  {
    var full := Formatted(t, r);
    var nl := '\n';
    assert nl !in ResponseHeader;
    HeadersApart();
    assert !Occurs("", ResponseHeader);
    var head := ThinkingHeader + [nl] + t;
    var trail := "\n" + r;
    NoOccurrenceAround(ThinkingHeader, nl, t, ResponseHeader);
    assert full == head + [nl] + ResponseHeader + trail;
    FirstOccurrenceAfter(head, nl, ResponseHeader, trail);
    assert full[|head| + 1 + |ResponseHeader|..] == trail;
    NoOccurrenceAfterChar(nl, r, ResponseHeader);
    assert FindFirst(trail, ResponseHeader).None?;
  }

  /** Parsing a reply laid out as the prompt asks recovers both sections exactly. */
  lemma ParseFormatted(t: string, r: string)
    requires Plain(t) && Plain(r)
    ensures ParseReply(Formatted(t, r)) == Parsed(t, r)
  {
    FormattedThinkingRaw(t, r);
    FormattedResponseRaw(t, r);
    StripSurroundingSpace('\n', t, '\n');
    assert ['\n'] + t + ['\n'] == "\n" + t + "\n";
    CleanPlain(t);
    StripLeadingSpace('\n', r);
    assert ['\n'] + r == "\n" + r;
    CleanPlain(r);
  }

  // ---------------------------------------------------------------------------
  // One exchange with the model server
  // ---------------------------------------------------------------------------

  /** What the request to the model server produced. */
  datatype ModelReply =
    | Replied(text: string)          // a JSON body with a "response" field
    | RequestFailed(detail: string)  // connection error, timeout or an HTTP error status
    | InvalidJson(detail: string)    // the body is not JSON
    | OtherFailure(detail: string)   // anything else, such as a body without "response"

  /** The handler a failure reaches. With the `requests>=2.31` the installer pins,
      `response.json()` on a body that is not JSON raises `requests.exceptions.JSONDecodeError`,
      a subclass of both `RequestException` and `json.JSONDecodeError`; the
      `RequestException` clause comes first, so it catches that error too and the
      `json.JSONDecodeError` clause is never reached. */
  function Handler(reply: ModelReply): (prefix: string)
    requires !reply.Replied?
    ensures reply.OtherFailure? <==> prefix == "Unexpected error: "
    ensures !reply.OtherFailure? <==> prefix == "Connection error to Ollama: "
  {
    match reply
    case RequestFailed(_) => "Connection error to Ollama: "
    case InvalidJson(_) => "Connection error to Ollama: "
    case OtherFailure(_) => "Unexpected error: "
  }

  datatype Turn = Turn(history: seq<Message>, thinking: string, response: string)

  function ErrorText(reply: ModelReply): (e: string)
    requires !reply.Replied?
    ensures StartsWith(e, Handler(reply))
    ensures !StartsWith(e, "Invalid JSON response from Ollama: ")
  {
    var e := Handler(reply) + reply.detail;
    assert e[..|Handler(reply)|] == Handler(reply);
    assert e[0] == Handler(reply)[0] != 'I';
    var invalid := "Invalid JSON response from Ollama: ";
    assert |invalid| <= |e| ==> e[..|invalid|][0] == e[0] != invalid[0];
    e
  }

  /** `query_ollama_with_thinking`: on a reply, records the exchange and returns the
      parsed sections; on a failure, returns the error text twice and keeps the history. */
  function Query(h: seq<Message>, text: string, reply: ModelReply): (t: Turn)
    ensures reply.Replied? ==> Parsed(t.thinking, t.response) == ParseReply(reply.text)
    ensures reply.Replied? ==>
              && |t.history| == (if |h| + 2 <= HistoryLimit then |h| + 2 else HistoryLimit)
              && t.history[|t.history| - 2] == Message("user", text)
              && t.history[|t.history| - 1] == Message("assistant", t.response)
              && t.history[..|t.history| - 2] == LastN(h, |t.history| - 2)
    ensures !reply.Replied? ==> t.history == h && t.thinking == t.response
    ensures reply.RequestFailed? ==> StartsWith(t.response, "Connection error to Ollama: ")
    ensures reply.InvalidJson? ==> StartsWith(t.response, "Connection error to Ollama: ")
    ensures !reply.Replied? ==> !StartsWith(t.response, "Invalid JSON response from Ollama: ")
    ensures reply.OtherFailure? ==> StartsWith(t.response, "Unexpected error: ")
  {
    match reply
    case Replied(full) =>
      var p := ParseReply(full);
      var h1 := AddToHistory(h, "user", text);
      var h2 := AddToHistory(h1, "assistant", p.response);
      AddRecordsBoth(h, text, p.response);
      Turn(h2, p.thinking, p.response)
    case _ =>
      var e := ErrorText(reply);
      Turn(h, e, e)
  }

  lemma AddRecordsBoth(h: seq<Message>, user: string, answer: string)
    ensures AddToHistory(AddToHistory(h, "user", user), "assistant", answer)
            == LastN(h + [Message("user", user), Message("assistant", answer)], HistoryLimit)
  {
    var h1 := AddToHistory(h, "user", user);
    AddIsNewest(h, "user", user);
    AddIsNewest(h1, "assistant", answer);
    LastNAppend(h + [Message("user", user)], [Message("assistant", answer)], HistoryLimit);
    assert h + [Message("user", user)] + [Message("assistant", answer)]
        == h + [Message("user", user), Message("assistant", answer)];
  }

  // ---------------------------------------------------------------------------
  // Conversation summary
  // ---------------------------------------------------------------------------

  const NoHistoryText := "No conversation history"
  const SummaryWindow: nat := 10
  const SummaryContentLimit: nat := 100

  /** Python `s[:n]`. */
  function Prefix(s: string, n: nat): (r: string)
    ensures |r| == if |s| <= n then |s| else n
    ensures r == s[..|r|]
  {
    if |s| <= n then s else s[..n]
  }

  function RoleMark(role: string): char {
    if role == "user" then '\U{1F464}' else '\U{1F916}'
  }

  /** One numbered summary line: number, role mark, the first 100 characters, an ellipsis. */
  function SummaryLine(i: nat, m: Message): string {
    Decimal(i) + ". " + [RoleMark(m.role)] + " " + Prefix(m.content, SummaryContentLimit) + "..."
  }

  /** The summary lines of `ms`, numbered from `first`. */
  function SummaryLines(ms: seq<Message>, first: nat): (ls: seq<string>)
    ensures |ls| == |ms|
    ensures forall k :: 0 <= k < |ms| ==> ls[k] == SummaryLine(first + k, ms[k])
  {
    if ms == [] then [] else [SummaryLine(first, ms[0])] + SummaryLines(ms[1..], first + 1)
  }

  lemma JoinHead(parts: seq<string>, sep: string)
    requires |parts| >= 1 && |parts[0]| >= 1
    ensures |Join(parts, sep)| >= 1 && Join(parts, sep)[0] == parts[0][0]
  {
  }

  /** `get_conversation_summary`. */
  function Summary(h: seq<Message>): (r: string)
    ensures r == NoHistoryText <==> h == []
  {
    if h == [] then NoHistoryText
    else
      var lines := SummaryLines(LastN(h, SummaryWindow), 1);
      assert Decimal(1) == "1";
      JoinHead(lines, "\n");
      assert Join(lines, "\n")[0] == '1';
      Join(lines, "\n")
  }

  /** A summary line has no line break when the message has none in its first 100 characters. */
  lemma SummaryLineSingle(i: nat, m: Message)
    requires '\n' !in m.content
    ensures '\n' !in SummaryLine(i, m)
  {
    var d := Decimal(i);
    assert '\n' !in d by {
      forall k | 0 <= k < |d| ensures d[k] != '\n' {
      }
    }
    var p := Prefix(m.content, SummaryContentLimit);
    assert '\n' !in p by {
      forall k | 0 <= k < |p| ensures p[k] != '\n' {
        assert p[k] == m.content[k];
      }
    }
  }

  /** For messages without line breaks, the summary has one line per message among the
      last ten, numbered from 1 in history order. */
  lemma SummaryHasOneLinePerMessage(h: seq<Message>)
    requires h != []
    requires forall k :: 0 <= k < |h| ==> '\n' !in h[k].content
    ensures |Split(Summary(h), "\n")| == if |h| < SummaryWindow then |h| else SummaryWindow
    ensures Split(Summary(h), "\n") == SummaryLines(LastN(h, SummaryWindow), 1)
  {
    var recent := LastN(h, SummaryWindow);
    var lines := SummaryLines(recent, 1);
    forall k | 0 <= k < |lines| ensures '\n' !in lines[k] {
      SummaryLineSingle(1 + k, recent[k]);
    }
    SplitJoinChar(lines, '\n');
  }

  // ---------------------------------------------------------------------------
  // Engagement analysis
  // ---------------------------------------------------------------------------

  datatype Engagement = Low | Medium | High

  function EngagementName(e: Engagement): string {
    match e
    case Low => "low"
    case Medium => "medium"
    case High => "high"
  }

  function Rank(e: Engagement): nat {
    match e
    case Low => 0
    case Medium => 1
    case High => 2
  }

  /** Number of messages with the given role. */
  function RoleCount(h: seq<Message>, role: string): (n: nat)
    ensures n <= |h|
    ensures |h| == 1 ==> (n == 1 <==> h[0].role == role) && n <= 1
  {
    if h == [] then 0 else RoleCount(h[..|h| - 1], role) + (if h[|h| - 1].role == role then 1 else 0)
  }

  /** Total content length of the messages with the given role. */
  function RoleLength(h: seq<Message>, role: string): nat {
    if h == [] then 0
    else RoleLength(h[..|h| - 1], role) + (if h[|h| - 1].role == role then |h[|h| - 1].content| else 0)
  }

  /** `avg` is the mean of `count` values summing to `total`; 0 when there are none. */
  predicate IsAverage(avg: real, total: nat, count: nat) {
    && (count > 0 ==> avg * count as real == total as real)
    && (count == 0 ==> avg == 0.0)
  }

  function Average(total: nat, count: nat): (avg: real)
    ensures IsAverage(avg, total, count)
  {
    if count > 0 then total as real / count as real else 0.0
  }

  /** `analyze_conversation_sentiment`: a fixed neutral answer for an empty history,
      otherwise the user message count, average lengths and an engagement level. */
  datatype Analysis =
    | Neutral
    | Measured(totalExchanges: nat, avgUserLength: real, avgAssistantLength: real, engagement: Engagement)

  function EngagementFor(users: nat): Engagement {
    if users > 5 then High else if users > 2 then Medium else Low
  }

  function Analyze(h: seq<Message>): (a: Analysis)
    ensures a.Neutral? <==> h == []
    ensures a.Measured? ==> a.totalExchanges == RoleCount(h, "user") && a.totalExchanges <= |h|
    ensures a.Measured? ==> IsAverage(a.avgUserLength, RoleLength(h, "user"), RoleCount(h, "user"))
    ensures a.Measured? ==> IsAverage(a.avgAssistantLength, RoleLength(h, "assistant"), RoleCount(h, "assistant"))
    ensures a.Measured? ==> (a.engagement == High <==> a.totalExchanges > 5)
    ensures a.Measured? ==> (a.engagement == Low <==> a.totalExchanges <= 2)
  {
    if h == [] then Neutral
    else
      var users := RoleCount(h, "user");
      var assistants := RoleCount(h, "assistant");
      var userAvg := Average(RoleLength(h, "user"), users);
      var assistantAvg := Average(RoleLength(h, "assistant"), assistants);
      Measured(users, userAvg, assistantAvg, EngagementFor(users))
  }

  /** The engagement the analysis reports; the empty-history answer says "low". */
  function EngagementOf(a: Analysis): Engagement {
    if a.Neutral? then Low else a.engagement
  }

  /** While the history is below its limit, recording a message never lowers engagement. */
  lemma EngagementNeverFallsBelowLimit(h: seq<Message>, role: string, content: string)
    requires |h| < HistoryLimit
    ensures Rank(EngagementOf(Analyze(AddToHistory(h, role, content))))
            >= Rank(EngagementOf(Analyze(h)))
  {
    var h1 := AddToHistory(h, role, content);
    assert h1 == h + [Message(role, content)];
    assert h1[..|h1| - 1] == h;
  }

  /** At the limit it can: the user message that falls out of the window takes the
      engagement down with it. */
  lemma EngagementCanFallAtLimit()
    ensures var h := [Message("user", "a"), Message("user", "b"), Message("user", "c")]
                     + seq(17, k => Message("assistant", "x"));
            && Analyze(h).engagement == Medium
            && Analyze(AddToHistory(h, "assistant", "y")).engagement == Low
  {
    ThreeUsersAtLimit();
    TwoUsersAfterAdd();
  }

  /** The witness history: three user turns followed by seventeen replies, twenty in all. */
  lemma ThreeUsersAtLimit()
    ensures var h := [Message("user", "a"), Message("user", "b"), Message("user", "c")]
                     + seq(17, k => Message("assistant", "x"));
            |h| == HistoryLimit && RoleCount(h, "user") == 3
  {
    var replies := seq(17, k => Message("assistant", "x"));
    UserCountOfAssistants(replies);
    RoleCountAppend([Message("user", "a"), Message("user", "b"), Message("user", "c")], replies, "user");
  }

  /** Adding one more reply to the witness pushes the first user turn out of the window. */
  lemma TwoUsersAfterAdd()
    ensures var h := [Message("user", "a"), Message("user", "b"), Message("user", "c")]
                     + seq(17, k => Message("assistant", "x"));
            RoleCount(AddToHistory(h, "assistant", "y"), "user") == 2
  {
    var replies := seq(17, k => Message("assistant", "x"));
    var h := [Message("user", "a"), Message("user", "b"), Message("user", "c")] + replies;
    var tail := replies + [Message("assistant", "y")];
    var h1 := AddToHistory(h, "assistant", "y");
    assert h1 == [Message("user", "b"), Message("user", "c")] + tail;
    UserCountOfAssistants(tail);
    RoleCountAppend([Message("user", "b"), Message("user", "c")], tail, "user");
  }

  /** Messages are counted one by one: the count over two histories in a row is the sum of
      their counts. */
  lemma {:induction false} RoleCountAppend(a: seq<Message>, b: seq<Message>, role: string)
    ensures RoleCount(a + b, role) == RoleCount(a, role) + RoleCount(b, role)
    decreases |b|
  {
    if b != [] {
      assert (a + b)[..|a + b| - 1] == a + b[..|b| - 1];
      RoleCountAppend(a, b[..|b| - 1], role);
    } else {
      assert a + b == a;
    }
  }

  lemma {:induction false} UserCountOfAssistants(ms: seq<Message>)
    requires forall k :: 0 <= k < |ms| ==> ms[k].role == "assistant"
    ensures RoleCount(ms, "user") == 0
    decreases |ms|
  {
    if ms != [] {
      UserCountOfAssistants(ms[..|ms| - 1]);
    }
  }

  // ---------------------------------------------------------------------------
  // Sessions
  // ---------------------------------------------------------------------------

  /** `ConversationManager`: one assistant (represented by its history) per session id,
      and the id of the current session, which need not exist yet. */
  datatype Conversations = Conversations(sessions: map<string, seq<Message>>, current: string)

  const DefaultSession := "default"
  const NewConversations := Conversations(map[], DefaultSession)

  /** `create_session`: a fresh assistant under `id`, replacing any existing one. */
  function CreateSession(c: Conversations, id: string): (r: Conversations)
    ensures r.sessions.Keys == c.sessions.Keys + {id}
    ensures r.sessions[id] == [] && r.current == c.current
    ensures forall other :: other in c.sessions && other != id ==> r.sessions[other] == c.sessions[other]
  {
    c.(sessions := c.sessions[id := []])
  }

  /** `get_session`: the named (default: current) session, created empty if missing.
      Returns the manager afterwards and the id it resolved to. */
  function GetSession(c: Conversations, id: Option<string>): (r: (Conversations, string))
    ensures r.1 == id.GetOr(c.current)
    ensures r.1 in r.0.sessions && r.0.current == c.current
    ensures r.1 in c.sessions ==> r.0 == c
    ensures r.1 !in c.sessions ==> r.0.sessions == c.sessions[r.1 := []]
  {
    var sid := id.GetOr(c.current);
    if sid in c.sessions then (c, sid) else (c.(sessions := c.sessions[sid := []]), sid)
  }

  /** Asking twice for a session changes nothing the second time. */
  lemma GetSessionIdempotent(c: Conversations, id: Option<string>)
    ensures var (c1, sid) := GetSession(c, id);
            GetSession(c1, id) == (c1, sid)
  {
  }

  /** `switch_session`: makes `id` current, creating it if missing; no history changes. */
  function SwitchSession(c: Conversations, id: string): (r: Conversations)
    ensures r.current == id
    ensures r.sessions.Keys == c.sessions.Keys + {id}
    ensures forall k :: k in c.sessions ==> r.sessions[k] == c.sessions[k]
    ensures id !in c.sessions ==> r.sessions[id] == []
  {
    var sessions := if id in c.sessions then c.sessions else c.sessions[id := []];
    Conversations(sessions, id)
  }

  datatype SessionInfo = SessionInfo(messageCount: nat, isCurrent: bool, lastInteraction: string)

  const NoMessagesText := "No messages"
  const LastInteractionLimit: nat := 50

  function Describe(id: string, h: seq<Message>, current: string): (info: SessionInfo)
    ensures info.messageCount == |h|
    ensures info.isCurrent <==> id == current
    ensures info.lastInteraction == NoMessagesText <==> h == []
    ensures h != [] ==>
              var c, l := h[|h| - 1].content, info.lastInteraction;
              && |l| == (if |c| <= LastInteractionLimit then |c| else LastInteractionLimit) + 3
              && l[..|l| - 3] == c[..|l| - 3]
              && l[|l| - 3..] == "..."
  {
    var last := if h == [] then NoMessagesText
                else Prefix(h[|h| - 1].content, LastInteractionLimit) + "...";
    assert h != [] ==> last[|last| - 1] == '.';
    SessionInfo(|h|, id == current, last)
  }

  /** `list_sessions`. */
  function ListSessions(c: Conversations): (r: map<string, SessionInfo>)
    ensures r.Keys == c.sessions.Keys
    ensures forall id :: id in r ==> r[id] == Describe(id, c.sessions[id], c.current)
  {
    map id | id in c.sessions :: Describe(id, c.sessions[id], c.current)
  }

  /** Exactly one listed session is current when the current id exists, none otherwise. */
  lemma CurrentListedOnce(c: Conversations)
    ensures forall a, b ::
              (a in ListSessions(c) && b in ListSessions(c) && ListSessions(c)[a].isCurrent
               && ListSessions(c)[b].isCurrent) ==> a == b
    ensures (exists id :: id in ListSessions(c) && ListSessions(c)[id].isCurrent) <==> c.current in c.sessions
  {
    var l := ListSessions(c);
    if c.current in c.sessions {
      assert l[c.current].isCurrent;
    }
  }

  /** `delete_session`: removes `id`; the current session falls back to "default" when it
      was the one removed. An unknown id changes nothing. */
  function DeleteSession(c: Conversations, id: string): (r: Conversations)
    ensures r.sessions == c.sessions - {id}
    ensures id in c.sessions && c.current == id ==> r.current == DefaultSession
    ensures !(id in c.sessions && c.current == id) ==> r.current == c.current
  {
    if id in c.sessions then
      Conversations(c.sessions - {id}, if c.current == id then DefaultSession else c.current)
    else c
  }

  /** After the current session is deleted, asking for the current session gives the
      "default" one, created empty if it was not there. */
  lemma DeleteCurrentThenGet(c: Conversations)
    requires c.current in c.sessions
    ensures var (c1, sid) := GetSession(DeleteSession(c, c.current), None);
            && sid == DefaultSession
            && (DefaultSession !in c.sessions || c.current == DefaultSession ==> c1.sessions[sid] == [])
            && (DefaultSession in c.sessions && c.current != DefaultSession ==>
                  c1.sessions[sid] == c.sessions[DefaultSession])
  {
  }

  // ---------------------------------------------------------------------------
  // Keyword extraction
  // ---------------------------------------------------------------------------

  // The stop-word set, in groups small enough for the verifier to enumerate.
  const StopWords1: set<string> := {"the", "a", "an", "and", "or", "but"}
  const StopWords2: set<string> := {"in", "on", "at", "to", "for", "of"}
  const StopWords3: set<string> := {"with", "by", "is", "are", "was", "were"}
  const StopWords4: set<string> := {"be", "been", "have", "has", "had", "do"}
  const StopWords5: set<string> := {"does", "did", "will", "would", "could", "should"}
  const StopWords6: set<string> := {"may", "might", "can", "this", "that", "these"}
  const StopWords7: set<string> := {"those", "i", "you", "he", "she", "it"}
  const StopWords8: set<string> := {"we", "they", "my", "your", "his", "her"}
  const StopWords9: set<string> := {"its", "our", "their"}
  const StopWords: set<string> :=
    StopWords1 + StopWords2 + StopWords3 + StopWords4 + StopWords5 + StopWords6
    + StopWords7 + StopWords8 + StopWords9

  /** No stop word is longer than six characters. */
  lemma StopWordsShort()
    ensures forall w :: w in StopWords ==> |w| <= 6
  {
    StopWordsShortA();
    StopWordsShortB();
    StopWordsShortC();
    assert StopWords == (StopWords1 + StopWords2 + StopWords3) + (StopWords4 + StopWords5 + StopWords6)
                        + (StopWords7 + StopWords8 + StopWords9);
  }

  lemma StopWordsShortA()
    ensures forall w :: w in StopWords1 + StopWords2 + StopWords3 ==> |w| <= 6
  {
    assert forall w :: w in StopWords1 ==> |w| <= 6;
    assert forall w :: w in StopWords2 ==> |w| <= 6;
    assert forall w :: w in StopWords3 ==> |w| <= 6;
  }

  lemma StopWordsShortB()
    ensures forall w :: w in StopWords4 + StopWords5 + StopWords6 ==> |w| <= 6
  {
    assert forall w :: w in StopWords4 ==> |w| <= 6;
    assert forall w :: w in StopWords5 ==> |w| <= 6;
    assert forall w :: w in StopWords6 ==> |w| <= 6;
  }

  lemma StopWordsShortC()
    ensures forall w :: w in StopWords7 + StopWords8 + StopWords9 ==> |w| <= 6
  {
    assert forall w :: w in StopWords7 ==> |w| <= 6;
    assert forall w :: w in StopWords8 ==> |w| <= 6;
    assert forall w :: w in StopWords9 ==> |w| <= 6;
  }

  /** The characters `strip('.,!?;:')` removes. */
  predicate IsStripPunct(c: char) {
    c == '.' || c == ',' || c == '!' || c == '?' || c == ';' || c == ':'
  }

  /** No punctuation `strip('.,!?;:')` would remove at either end. */
  predicate PunctTrimmed(w: string) {
    |w| == 0 || (!IsStripPunct(w[0]) && !IsStripPunct(w[|w| - 1]))
  }

  function StripPunct(w: string): (r: string)
    ensures PunctTrimmed(r)
    ensures |r| <= |w|
  {
    StripBy(w, IsStripPunct)
  }

  const MaxKeywords: nat := 10

  /** A word long enough and not a stop word. */
  predicate Significant(w: string) {
    |w| > 3 && w !in StopWords
  }

  /** What a keyword should be: significant, with its punctuation stripped. */
  predicate IsKeyword(w: string) {
    Significant(w) && PunctTrimmed(w)
  }

  /** The candidate list as the source builds it: the length and stop-word tests look at
      the word as split, before its punctuation is stripped. */
  function CandidatesAsWritten(words: seq<string>): (ks: seq<string>)
    ensures forall j :: 0 <= j < |words| && Significant(words[j]) ==> StripPunct(words[j]) in ks
    ensures forall w :: w in ks ==> exists j :: 0 <= j < |words| && Significant(words[j]) && w == StripPunct(words[j])
  {
    if words == [] then []
    else
      var rest := CandidatesAsWritten(words[1..]);
      assert forall j :: 1 <= j < |words| ==> words[j] == words[1..][j - 1];
      WrittenCandidateOf(words[0]) + rest
  }

  /** The candidate one word gives as written: its stripped form, when the word as split
      passes the tests. */
  function WrittenCandidateOf(w: string): (ks: seq<string>)
    ensures ks == [] <==> !Significant(w)
    ensures forall k :: 0 <= k < |ks| ==> ks[k] == StripPunct(w)
  {
    if Significant(w) then [StripPunct(w)] else []
  }

  /** The candidate list with the tests applied to the stripped word. */
  function Candidates(words: seq<string>): (ks: seq<string>)
    ensures forall k :: 0 <= k < |ks| ==> IsKeyword(ks[k])
    ensures forall j :: 0 <= j < |words| && Significant(StripPunct(words[j])) ==> StripPunct(words[j]) in ks
    ensures forall w :: w in ks ==> exists j :: 0 <= j < |words| && w == StripPunct(words[j])
  {
    if words == [] then []
    else
      var rest := Candidates(words[1..]);
      CandidatesStep(words, rest);
      CandidateOf(words[0]) + rest
  }

  /** The candidate one word gives: its stripped form, when that passes the tests. */
  function CandidateOf(w: string): (ks: seq<string>)
    ensures ks == [] <==> !Significant(StripPunct(w))
    ensures forall k :: 0 <= k < |ks| ==> ks[k] == StripPunct(w) && IsKeyword(ks[k])
  {
    if Significant(StripPunct(w)) then [StripPunct(w)] else []
  }

  /** Putting the first word's candidate in front of the rest's candidates. */
  lemma CandidatesStep(words: seq<string>, rest: seq<string>)
    requires words != []
    requires forall k :: 0 <= k < |rest| ==> IsKeyword(rest[k])
    requires forall j :: 0 <= j < |words[1..]| && Significant(StripPunct(words[1..][j])) ==>
               StripPunct(words[1..][j]) in rest
    requires forall w :: w in rest ==> exists j :: 0 <= j < |words[1..]| && w == StripPunct(words[1..][j])
    ensures var ks := CandidateOf(words[0]) + rest;
            && (forall k :: 0 <= k < |ks| ==> IsKeyword(ks[k]))
            && (forall j :: 0 <= j < |words| && Significant(StripPunct(words[j])) ==> StripPunct(words[j]) in ks)
            && (forall w :: w in ks ==> exists j :: 0 <= j < |words| && w == StripPunct(words[j]))
  {
    assert forall j :: 1 <= j < |words| ==> words[j] == words[1..][j - 1];
  }

  /** Each word contributes its own candidate, in word order: the list is the concatenation
      of the per-word contributions, so a word's frequency is the number of words that
      yield it. */
  lemma {:induction false} CandidatesAppend(a: seq<string>, b: seq<string>)
    ensures Candidates(a + b) == Candidates(a) + Candidates(b)
    ensures multiset(Candidates(a + b)) == multiset(Candidates(a)) + multiset(Candidates(b))
    decreases |a|
  {
    if a == [] {
      assert a + b == b;
    } else {
      CandidatesAppend(a[1..], b);
      CandidatesAppendStep(a, b);
    }
  }

  lemma CandidatesAppendStep(a: seq<string>, b: seq<string>)
    requires a != []
    requires Candidates(a[1..] + b) == Candidates(a[1..]) + Candidates(b)
    ensures Candidates(a + b) == Candidates(a) + Candidates(b)
  {
    var h := CandidateOf(a[0]);
    assert Candidates(a + b) == h + Candidates(a[1..] + b) by {
      ConsAppend(a, b);
      CandidatesCons(a + b);
    }
    assert Candidates(a) == h + Candidates(a[1..]) by {
      CandidatesCons(a);
    }
    AppendAssoc(h, Candidates(a[1..]), Candidates(b));
  }

  lemma CandidatesCons(words: seq<string>)
    requires words != []
    ensures Candidates(words) == CandidateOf(words[0]) + Candidates(words[1..])
  {
  }

  /** One word's contribution: its stripped form, when that passes the tests. */
  lemma CandidatesOfWord(w: string)
    ensures Candidates([w]) == if Significant(StripPunct(w)) then [StripPunct(w)] else []
  {
    assert [w][1..] == [];
  }

  /** As written, each word contributes its stripped form when the unstripped word passes
      the tests, in word order. */
  lemma {:induction false} CandidatesAsWrittenAppend(a: seq<string>, b: seq<string>)
    ensures CandidatesAsWritten(a + b) == CandidatesAsWritten(a) + CandidatesAsWritten(b)
    ensures multiset(CandidatesAsWritten(a + b)) == multiset(CandidatesAsWritten(a)) + multiset(CandidatesAsWritten(b))
    decreases |a|
  {
    if a == [] {
      assert a + b == b;
    } else {
      CandidatesAsWrittenAppend(a[1..], b);
      var h := WrittenCandidateOf(a[0]);
      assert CandidatesAsWritten(a + b) == h + CandidatesAsWritten(a[1..] + b) by {
        ConsAppend(a, b);
        CandidatesAsWrittenCons(a + b);
      }
      assert CandidatesAsWritten(a) == h + CandidatesAsWritten(a[1..]) by {
        CandidatesAsWrittenCons(a);
      }
      AppendAssoc(h, CandidatesAsWritten(a[1..]), CandidatesAsWritten(b));
    }
  }

  lemma CandidatesAsWrittenCons(words: seq<string>)
    requires words != []
    ensures CandidatesAsWritten(words) == WrittenCandidateOf(words[0]) + CandidatesAsWritten(words[1..])
  {
  }

  lemma CandidatesAsWrittenOfWord(w: string)
    ensures CandidatesAsWritten([w]) == if Significant(w) then [StripPunct(w)] else []
  {
    assert [w][1..] == [];
  }

  /** The distinct elements of `s` in order of first appearance (a Python dict's key order). */
  function Dedup<T(==,!new)>(s: seq<T>): (r: seq<T>)
    ensures Distinct(r)
    ensures forall x :: x in r <==> x in s
  {
    if s == [] then []
    else
      var d := Dedup(s[..|s| - 1]);
      assert s == s[..|s| - 1] + [s[|s| - 1]];
      if s[|s| - 1] in d then d else d + [s[|s| - 1]]
  }

  /** The frequency table's keys, most frequent first, ties in order of first appearance
      (`sorted(word_freq.keys(), key=..., reverse=True)`). */
  function RankedKeys(ks: seq<string>): (sorted: seq<string>)
    ensures Distinct(sorted)
    ensures forall w :: w in sorted <==> w in ks
    ensures forall i, j :: 0 <= i < j < |sorted| ==> multiset(ks)[sorted[i]] >= multiset(ks)[sorted[j]]
  {
    var keys := Dedup(ks);
    var count: string -> int := w => multiset(ks)[w];
    var sorted := SortDesc(keys, count, IntLt);
    IntLtIsStrictTotal();
    assert StrictTotalOrder(IntLt);
    DistinctPermutation(sorted, keys);
    assert forall w :: w in sorted <==> w in keys by {
      forall w ensures w in sorted <==> w in keys {
        assert w in sorted <==> w in multiset(sorted);
        assert w in keys <==> w in multiset(keys);
      }
    }
    assert NonIncreasing(sorted, count, IntLt);
    sorted
  }

  /** The ten most frequent candidates, most frequent first (`[:10]` of the ranking). */
  function TopKeywords(ks: seq<string>): (r: seq<string>)
    ensures |r| <= MaxKeywords
    ensures Distinct(r)
    ensures forall w :: w in r ==> w in ks
    ensures forall i, j :: 0 <= i < j < |r| ==> multiset(ks)[r[i]] >= multiset(ks)[r[j]]
    ensures forall w :: w in ks && w !in r ==>
              |r| == MaxKeywords && multiset(ks)[w] <= multiset(ks)[r[MaxKeywords - 1]]
  {
    var sorted := RankedKeys(ks);
    var n := if |sorted| < MaxKeywords then |sorted| else MaxKeywords;
    RankedPrefix(ks, sorted, n);
    sorted[..n]
  }

  /** Cutting a ranking after `n` keys keeps it ranked, and every key cut off counts no
      more than the last one kept. */
  lemma RankedPrefix(ks: seq<string>, sorted: seq<string>, n: nat)
    requires Distinct(sorted)
    requires forall w :: w in sorted <==> w in ks
    requires forall i, j :: 0 <= i < j < |sorted| ==> multiset(ks)[sorted[i]] >= multiset(ks)[sorted[j]]
    requires n == if |sorted| < MaxKeywords then |sorted| else MaxKeywords
    ensures Distinct(sorted[..n])
    ensures forall w :: w in sorted[..n] ==> w in ks
    ensures forall i, j :: 0 <= i < j < n ==> multiset(ks)[sorted[..n][i]] >= multiset(ks)[sorted[..n][j]]
    ensures forall w :: w in ks && w !in sorted[..n] ==>
              n == MaxKeywords && multiset(ks)[w] <= multiset(ks)[sorted[..n][n - 1]]
  {
    var r := sorted[..n];
    forall w | w in ks && w !in r
      ensures n == MaxKeywords && multiset(ks)[w] <= multiset(ks)[r[n - 1]]
    {
      var j :| 0 <= j < |sorted| && sorted[j] == w;
      assert j >= n;
    }
  }

  /** `extract_keywords` as written. */
  function ExtractKeywordsAsWritten(text: string): (r: seq<string>)
    ensures |r| <= MaxKeywords && Distinct(r)
    ensures var cs := CandidatesAsWritten(Words(Lower(text)));
            && (forall w :: w in r ==> w in cs)
            && (forall i, j :: 0 <= i < j < |r| ==> multiset(cs)[r[i]] >= multiset(cs)[r[j]])
            && (forall w :: w in cs && w !in r ==>
                  |r| == MaxKeywords && multiset(cs)[w] <= multiset(cs)[r[MaxKeywords - 1]])
  {
    TopKeywords(CandidatesAsWritten(Words(Lower(text))))
  }

  /** `extract_keywords` with the word tests applied after punctuation is stripped: no
      stop word and no word of three characters or fewer is ever returned. */
  function ExtractKeywords(text: string): (r: seq<string>)
    ensures |r| <= MaxKeywords && Distinct(r)
    ensures forall k :: 0 <= k < |r| ==> IsKeyword(r[k])
    ensures var cs := Candidates(Words(Lower(text)));
            && (forall w :: w in r ==> w in cs)
            && (forall i, j :: 0 <= i < j < |r| ==> multiset(cs)[r[i]] >= multiset(cs)[r[j]])
            && (forall w :: w in cs && w !in r ==>
                  |r| == MaxKeywords && multiset(cs)[w] <= multiset(cs)[r[MaxKeywords - 1]])
  {
    var ks := Candidates(Words(Lower(text)));
    TopKeepsKeywords(ks);
    TopKeywords(ks)
  }

  lemma TopKeepsKeywords(ks: seq<string>)
    requires forall k :: 0 <= k < |ks| ==> IsKeyword(ks[k])
    ensures forall k :: 0 <= k < |TopKeywords(ks)| ==> IsKeyword(TopKeywords(ks)[k])
  {
    var r := TopKeywords(ks);
    forall k | 0 <= k < |r| ensures IsKeyword(r[k]) {
      assert r[k] in ks;
      var j :| 0 <= j < |ks| && ks[j] == r[k];
    }
  }

  lemma StripPunctExamples()
    ensures StripPunct("should,") == "should"
    ensures StripPunct(".,.,.,.") == ""
  {
    assert LeadingCount("should,", IsStripPunct) == 0;
    assert TrailingStart("should,", IsStripPunct) == 6;
    assert "should,"[0..6] == "should";
    assert LeadingCount(".,.,.,.", IsStripPunct) == 7;
  }

  /** As written, a stop word followed by punctuation comes out as a keyword, and a word of
      only punctuation comes out as the empty string; with the tests after stripping,
      neither does. */
  lemma AsWrittenKeepsStopWords()
    ensures "should" in StopWords
    ensures CandidatesAsWritten(["should,"]) == ["should"]
    ensures CandidatesAsWritten([".,.,.,."]) == [""]
    ensures Candidates(["should,"]) == [] && Candidates([".,.,.,."]) == []
  {
    StripPunctExamples();
    StopWordsShort();
    assert Significant("should,") && Significant(".,.,.,.");
    assert !Significant("should") && !Significant("");
    assert ["should,"][1..] == [] && [".,.,.,."][1..] == [];
  }

  // ---------------------------------------------------------------------------
  // Thinking display
  // ---------------------------------------------------------------------------

  const ConclusionWords: seq<string> := ["therefore", "so", "thus", "conclusion", "decided", "determined"]
  const ConsiderationWords: seq<string> := ["consider", "think about", "analyze", "evaluate"]

  const QuestionMark: char := '\U{2753}'
  const ConclusionMark: char := '\U{1F4A1}'
  const ConsiderationMark: char := '\U{1F914}'
  const BulletMark: char := '\U{2022}'

  /** Some word of `words` occurs in the lower-cased line (as a substring, like Python `in`). */
  predicate MentionsAny(line: string, words: seq<string>) {
    exists k :: 0 <= k < |words| && Contains(Lower(line), words[k])
  }

  /** The mark a display line gets: questions first, then conclusions, then considerations. */
  function LineMark(line: string): (m: char)
    ensures m == QuestionMark <==> EndsWith(line, "?")
    ensures m == ConclusionMark <==> !EndsWith(line, "?") && MentionsAny(line, ConclusionWords)
    ensures m == ConsiderationMark <==>
              !EndsWith(line, "?") && !MentionsAny(line, ConclusionWords) && MentionsAny(line, ConsiderationWords)
    ensures m == BulletMark <==>
              !EndsWith(line, "?") && !MentionsAny(line, ConclusionWords) && !MentionsAny(line, ConsiderationWords)
  {
    if EndsWith(line, "?") then QuestionMark
    else if MentionsAny(line, ConclusionWords) then ConclusionMark
    else if MentionsAny(line, ConsiderationWords) then ConsiderationMark
    else BulletMark
  }

  function MarkLine(line: string): string {
    [LineMark(line), ' '] + line
  }

  /** The stripped, non-blank lines, in order. */
  function KeptLines(lines: seq<string>): (ks: seq<string>)
    ensures |ks| <= |lines|
    ensures forall k :: 0 <= k < |ks| ==> ks[k] != "" && Trimmed(ks[k])
  {
    if lines == [] then [] else KeptLine(lines[0]) + KeptLines(lines[1..])
  }

  /** What one line contributes: the line stripped, unless nothing is left of it. */
  function KeptLine(line: string): (ks: seq<string>)
    ensures |ks| <= 1
    ensures forall k :: 0 <= k < |ks| ==> ks[k] != "" && Trimmed(ks[k])
  {
    var l := Strip(line);
    if l == "" then [] else [l]
  }

  /** Each line contributes on its own, in line order: the kept lines of two stretches of
      text are those of the first followed by those of the second. */
  lemma {:induction false} KeptLinesAppend(a: seq<string>, b: seq<string>)
    ensures KeptLines(a + b) == KeptLines(a) + KeptLines(b)
    decreases |a|
  {
    if a == [] {
      assert a + b == b;
    } else {
      assert (a + b)[0] == a[0] && (a + b)[1..] == a[1..] + b;
      KeptLinesAppend(a[1..], b);
    }
  }

  /** One line's contribution: the line stripped, unless nothing is left of it. */
  lemma KeptLinesOfLine(line: string)
    ensures KeptLines([line]) == if Strip(line) == "" then [] else [Strip(line)]
  {
    assert [line][1..] == [];
  }

  lemma {:induction false} KeptLinesSingle(lines: seq<string>)
    requires forall k :: 0 <= k < |lines| ==> '\n' !in lines[k]
    ensures forall k :: 0 <= k < |KeptLines(lines)| ==> '\n' !in KeptLines(lines)[k]
  {
    if lines != [] {
      StripKeepsOut(lines[0], '\n');
      KeptLinesSingle(lines[1..]);
    }
  }

  function MarkAll(lines: seq<string>): (ms: seq<string>)
    ensures |ms| == |lines|
    ensures forall k :: 0 <= k < |lines| ==> ms[k] == MarkLine(lines[k])
  {
    if lines == [] then [] else [MarkLine(lines[0])] + MarkAll(lines[1..])
  }

  /** The display lines of a thinking text: its non-blank lines, stripped. */
  function DisplayLines(text: string): seq<string> {
    KeptLines(Split(text, "\n"))
  }

  /** `format_thinking_for_display`. */
  function FormatThinking(text: string): (r: string)
    ensures r == "" <==> DisplayLines(text) == []
  {
    var marked := MarkAll(DisplayLines(text));
    if marked == [] then ""
    else
      JoinHead(marked, "\n");
      Join(marked, "\n")
  }

  /** The formatted text has one line per non-blank input line, in order: the line's mark,
      a space, and the stripped line itself. */
  lemma FormatThinkingLines(text: string)
    requires DisplayLines(text) != []
    ensures Split(FormatThinking(text), "\n") == MarkAll(DisplayLines(text))
    ensures forall k :: 0 <= k < |DisplayLines(text)| ==>
              |MarkAll(DisplayLines(text))[k]| >= 3
              && MarkAll(DisplayLines(text))[k][2..] == DisplayLines(text)[k]
  {
    var parts := Split(text, "\n");
    forall k | 0 <= k < |parts| ensures '\n' !in parts[k] {
      CharOccurs(parts[k], '\n');
    }
    KeptLinesSingle(parts);
    var kept := DisplayLines(text);
    var marked := MarkAll(kept);
    forall k | 0 <= k < |marked| ensures '\n' !in marked[k] && marked[k][2..] == kept[k] {
      MarkLineShape(kept[k]);
    }
    SplitJoinChar(marked, '\n');
  }

  /** A marked line is the mark, a space and the line, and adds no line break. */
  lemma MarkLineShape(line: string)
    requires '\n' !in line
    ensures |MarkLine(line)| >= 2 && MarkLine(line)[2..] == line
    ensures '\n' !in MarkLine(line)
  {
    var m := LineMark(line);
    assert m != '\n';
    assert MarkLine(line) == [m, ' '] + line;
  }

  /** Marker words match inside other words: "also" contains "so", so a plain statement
      using it is shown as a conclusion. */
  lemma SubstringMatchMarksConclusion()
    ensures LineMark("I also agree") == ConclusionMark
  {
    var low := Lower("I also agree");
    assert low[4..6] == "so";
    assert OccursAt(low, ConclusionWords[1], 4);
    assert !EndsWith("I also agree", "?");
  }
}
