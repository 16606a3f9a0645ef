/**
 * The request-parameter logic of the web front end: the voice options of the index page,
 * `/chat` (message check, `engine:voice_id` parsing, the clone-audio gate, the reported
 * fields), `/test-voice` defaults, `/stats` and `/health`.
 *
 * The HTML, CSS and JavaScript text and the web framework are not modelled. An uploaded
 * clone recording is a flag plus the temporary path the operating system gives it.
 */
module WebAssistant {
  import opened Wrappers
  import opened Text
  import opened VoiceCatalog
  import opened TtsEngines
  import opened AssistantLogic

  // ---------------------------------------------------------------------------
  // "engine:voice_id"
  // ---------------------------------------------------------------------------

  /** Python `voice.split(":", 1)` for a voice that holds a colon: the engine before the
      first colon, the voice id after it (which may hold further colons). */
  function SplitVoice(voice: string): (r: (string, string))
    requires Contains(voice, ":")
    ensures r.0 + ":" + r.1 == voice
    ensures ':' !in r.0
  {
    var i := FindFirst(voice, ":").value;
    assert voice[i..i + 1] == ":";
    forall k | 0 <= k < i ensures voice[k] != ':' {
      assert !OccursAt(voice, ":", k);
      assert voice[k..k + 1] == [voice[k]];
    }
    assert voice[..i] + ":" + voice[i + 1..] == voice;
    (voice[..i], voice[i + 1..])
  }

  /** The value an option of the voice menu carries. */
  function VoiceValue(engine: string, voiceId: string): string {
    engine + ":" + voiceId
  }

  /** Splitting a menu value gives back its engine and voice id. */
  lemma SplitVoiceValue(engine: string, voiceId: string)
    requires ':' !in engine
    ensures Contains(VoiceValue(engine, voiceId), ":")
    ensures SplitVoice(VoiceValue(engine, voiceId)) == (engine, voiceId)
  {
    var v := VoiceValue(engine, voiceId);
    assert OccursAt(v, ":", |engine|) by {
      assert v[|engine|..|engine| + 1] == ":";
    }
    forall k | 0 <= k < |engine| ensures !OccursAt(v, ":", k) {
      assert v[k] == engine[k];
    }
    assert FindFirst(v, ":") == Some(|engine|);
    assert v[..|engine|] == engine;
    assert v[|engine| + 1..] == voiceId;
  }

  const DefaultEngine := Coqui

  /** `/chat`'s voice parameter: `engine:voice_id` when it holds a colon, otherwise the Coqui
      engine with no voice id. */
  function ChatVoice(voice: Option<string>): (r: (string, Option<string>))
    ensures !(voice.Some? && Contains(voice.value, ":")) ==> r == (DefaultEngine, None)
    ensures voice.Some? && Contains(voice.value, ":") ==>
              r.1.Some? && r.0 + ":" + r.1.value == voice.value && ':' !in r.0
  {
    if Truthy(voice) && Contains(voice.value, ":") then
      var (engine, id) := SplitVoice(voice.value);
      (engine, Some(id))
    else
      (DefaultEngine, None)
  }

  /** `voice_id or "default"`. */
  function VoiceUsed(voiceId: Option<string>): (r: string)
    ensures Truthy(voiceId) ==> r == voiceId.value
    ensures !Truthy(voiceId) ==> r == "default"
  {
    if Truthy(voiceId) then voiceId.value else "default"
  }

  // ---------------------------------------------------------------------------
  // /chat
  // ---------------------------------------------------------------------------

  const NoMessageError := "No message provided"

  datatype ChatResult =
    | ChatError(error: string)
    | ChatReply(thinking: string, response: string, audio: Option<Audio>, engineUsed: string, voiceUsed: string)

  /** The uploaded recording of a `/chat` request: none; read and saved to its temporary file;
      or reading or saving it raised `error`, after (`fileCreated`) or before the
      `delete=False` temporary file was created. */
  datatype Upload = NoUpload | Uploaded | UploadFailed(error: string, fileCreated: bool)

  /** The sessions, the engine cache and the files after a request, with its answer. */
  datatype ChatOutcome = ChatOutcome(conversations: Conversations, tts: Manager, fs: set<string>, result: ChatResult)

  /** The text half of `/chat`: the current session (created if missing) asks the model and
      records the exchange. */
  function ChatTurn(c: Conversations, message: string, reply: ModelReply): (r: (Conversations, Turn))
    ensures c.current in r.0.sessions && r.0.current == c.current
    ensures r.0.sessions[c.current] == r.1.history
    ensures reply.Replied? ==>
              var h := r.1.history;
              |h| >= 2 && h[|h| - 2] == Message("user", message) && h[|h| - 1] == Message("assistant", r.1.response)
    ensures !reply.Replied? ==> r.0 == GetSession(c, None).0
  {
    var (c1, sid) := GetSession(c, None);
    var turn := Query(c1.sessions[sid], message, reply);
    (c1.(sessions := c1.sessions[sid := turn.history]), turn)
  }

  /** The speech half of `/chat`: an uploaded recording is saved and used only for the Coqui
      engine, and removed again after speaking. */
  function ChatSpeech(tts: Manager, text: string, engine: string, voiceId: Option<string>,
                      cloneUpload: bool, env: Env, tmp: string, cloneTmp: string): (r: (Manager, set<string>, Option<Audio>))
    requires ManagerInv(tts)
    ensures ManagerInv(r.0)
    ensures r.2.Some? ==> r.2.value.engine == engine && r.2.value.text == text
    ensures r.2.Some? && r.2.value.speaker.ClonedFrom? ==>
              cloneUpload && engine == Coqui && r.2.value.speaker.path == cloneTmp
    ensures cloneUpload && engine == Coqui ==> cloneTmp !in r.1
    ensures tmp !in env.fs && tmp != cloneTmp && IsWavTemp(tmp) ==> tmp !in r.1
  {
    var cloning := cloneUpload && engine == Coqui;
    var clonePath := if cloning then Some(cloneTmp) else None;
    var fs1 := if cloning then env.fs + {cloneTmp} else env.fs;
    var (m, fs2, audio) := Speak(tts, text, engine, voiceId, clonePath, env.(fs := fs1), tmp);
    (m, if cloning then Cleanup(fs2, cloneTmp) else fs2, audio)
  }

  /** What `/chat` answers once the exchange `turn` is recorded in `c2`: the recording is only
      read for Coqui, and when reading or saving it raises, the exception handler answers
      with the error text; otherwise speech for the answer, with the reported engine and
      voice. */
  function ChatAnswer(c2: Conversations, tts: Manager, turn: Turn, voice: Option<string>, upload: Upload,
                      env: Env, tmp: string, cloneTmp: string): (r: ChatOutcome)
    requires ManagerInv(tts)
    ensures ManagerInv(r.tts)
    ensures r.conversations == c2
    ensures r.result.ChatError? <==> upload.UploadFailed? && ChatVoice(voice).0 == Coqui
    ensures r.result.ChatError? ==>
              && r.result == ChatError(upload.error)
              && r.tts == tts
              && r.fs == (if upload.fileCreated then env.fs + {cloneTmp} else env.fs)
    ensures r.result.ChatReply? ==> r.result.response == turn.response
    ensures r.result.ChatReply? ==> (r.result.engineUsed, r.result.voiceUsed) == ChatUsed(voice)
    ensures r.result.ChatReply? && r.result.audio.Some? ==>
              r.result.audio.value.engine == r.result.engineUsed && r.result.audio.value.text == r.result.response
    ensures r.result.ChatReply? && r.result.audio.Some? && r.result.audio.value.speaker.ClonedFrom? ==>
              upload.Uploaded? && r.result.engineUsed == Coqui && r.result.audio.value.speaker.path == cloneTmp
    ensures r.result.ChatReply? && upload.Uploaded? && r.result.engineUsed == Coqui ==> cloneTmp !in r.fs
    ensures tmp !in env.fs && tmp != cloneTmp && IsWavTemp(tmp) ==> tmp !in r.fs
  {
    var (engine, voiceId) := ChatVoice(voice);
    if upload.UploadFailed? && engine == Coqui then
      var fs := if upload.fileCreated then env.fs + {cloneTmp} else env.fs;
      ChatOutcome(c2, tts, fs, ChatError(upload.error))
    else
      var (m, fs, audio) := ChatSpeech(tts, turn.response, engine, voiceId, upload.Uploaded?, env, tmp, cloneTmp);
      ChatOutcome(c2, m, fs, ChatReply(FormatThinking(turn.thinking), turn.response, audio, engine, VoiceUsed(voiceId)))
  }

  /** `/chat`: the model's answer for the current session, its thinking formatted for
      display, and speech for the answer. `reply` is what the model server returns, `upload`
      how the uploaded recording is handled, `env` what the speech engines meet, `cloneTmp`
      the temporary path of an uploaded recording. A failing upload is met only after the
      exchange was recorded. */
  function Chat(c: Conversations, tts: Manager, message: Option<string>, voice: Option<string>,
                upload: Upload, reply: ModelReply, env: Env, tmp: string, cloneTmp: string): (r: ChatOutcome)
    requires ManagerInv(tts)
    ensures ManagerInv(r.tts)
    ensures !Truthy(message) ==> r == ChatOutcome(c, tts, env.fs, ChatError(NoMessageError))
    ensures Truthy(message) ==> r.conversations == ChatTurn(c, message.value, reply).0
    ensures Truthy(message) ==> c.current in r.conversations.sessions
    ensures Truthy(message) ==>
              (r.result.ChatError? <==> upload.UploadFailed? && ChatVoice(voice).0 == Coqui)
    ensures Truthy(message) && reply.Replied? ==>
              var h := r.conversations.sessions[c.current];
              |h| >= 2 && h[|h| - 2] == Message("user", message.value) && h[|h| - 1].role == "assistant"
    ensures Truthy(message) && reply.Replied? && r.result.ChatReply? ==>
              var h := r.conversations.sessions[c.current];
              h[|h| - 1] == Message("assistant", r.result.response)
    ensures Truthy(message) && upload.UploadFailed? && ChatVoice(voice).0 == Coqui ==>
              && r.result == ChatError(upload.error)
              && r.tts == tts
              && r.fs == (if upload.fileCreated then env.fs + {cloneTmp} else env.fs)
    ensures r.result.ChatReply? ==> (r.result.engineUsed, r.result.voiceUsed) == ChatUsed(voice)
    ensures r.result.ChatReply? && r.result.audio.Some? ==>
              r.result.audio.value.engine == r.result.engineUsed && r.result.audio.value.text == r.result.response
    ensures r.result.ChatReply? && r.result.audio.Some? && r.result.audio.value.speaker.ClonedFrom? ==>
              upload.Uploaded? && r.result.engineUsed == Coqui && r.result.audio.value.speaker.path == cloneTmp
    ensures r.result.ChatReply? && upload.Uploaded? && r.result.engineUsed == Coqui ==> cloneTmp !in r.fs
    ensures tmp !in env.fs && tmp != cloneTmp && IsWavTemp(tmp) ==> tmp !in r.fs
  {
    if !Truthy(message) then ChatOutcome(c, tts, env.fs, ChatError(NoMessageError))
    else
      var (c2, turn) := ChatTurn(c, message.value, reply);
      ChatAnswer(c2, tts, turn, voice, upload, env, tmp, cloneTmp)
  }

  /** A recording whose saving raises after its temporary file exists turns the answer into
      the error text, yet the exchange stays recorded in the session and the recording's
      temporary file stays behind. */
  lemma FailedUploadKeepsExchange(c: Conversations, tts: Manager, message: string, error: string,
                                  reply: ModelReply, env: Env, tmp: string, cloneTmp: string)
    requires ManagerInv(tts) && message != "" && reply.Replied?
    ensures var r := Chat(c, tts, Some(message), None, UploadFailed(error, true), reply, env, tmp, cloneTmp);
            && r.result == ChatError(error)
            && r.conversations == ChatTurn(c, message, reply).0
            && cloneTmp in r.fs
            && var h := r.conversations.sessions[c.current];
               |h| >= 2 && h[|h| - 2] == Message("user", message)
  {
    assert ChatVoice(None).0 == Coqui;
  }

  /** The engine and voice name `/chat` reports for its voice parameter. */
  function ChatUsed(voice: Option<string>): (r: (string, string))
    ensures r.0 == ChatVoice(voice).0
    ensures r.1 == VoiceUsed(ChatVoice(voice).1)
  {
    var (engine, voiceId) := ChatVoice(voice);
    (engine, VoiceUsed(voiceId))
  }

  /** A voice value `engine:id` selects that engine, and the id is reported as the voice
      used (or "default" when it is empty). */
  lemma ChatReportsChosenVoice(c: Conversations, tts: Manager, message: string, engine: string, voiceId: string,
                               upload: Upload, reply: ModelReply, env: Env, tmp: string, cloneTmp: string)
    requires ManagerInv(tts) && message != "" && ':' !in engine
    requires !(upload.UploadFailed? && engine == Coqui)
    ensures var r := Chat(c, tts, Some(message), Some(VoiceValue(engine, voiceId)), upload, reply, env, tmp, cloneTmp);
            && r.result.ChatReply?
            && r.result.engineUsed == engine
            && r.result.voiceUsed == (if voiceId == "" then "default" else voiceId)
  {
    SplitVoiceValue(engine, voiceId);
    var v := Some(VoiceValue(engine, voiceId));
    assert ChatVoice(v) == (engine, Some(voiceId));
    assert ChatUsed(v) == (engine, if voiceId == "" then "default" else voiceId);
    var r := Chat(c, tts, Some(message), v, upload, reply, env, tmp, cloneTmp);
    assert (r.result.engineUsed, r.result.voiceUsed) == ChatUsed(v);
  }

  /** Without a colon the voice parameter is ignored: Coqui, reported as "default". */
  lemma ChatIgnoresVoiceWithoutColon(c: Conversations, tts: Manager, message: string, voice: string,
                                     upload: Upload, reply: ModelReply, env: Env, tmp: string, cloneTmp: string)
    requires ManagerInv(tts) && message != "" && ':' !in voice
    requires !upload.UploadFailed?
    ensures var r := Chat(c, tts, Some(message), Some(voice), upload, reply, env, tmp, cloneTmp);
            r.result.engineUsed == Coqui && r.result.voiceUsed == "default"
  {
    CharOccurs(voice, ':');
  }

  // ---------------------------------------------------------------------------
  // /test-voice
  // ---------------------------------------------------------------------------

  const DefaultTestText := "Hello, this is a voice test."
  const DefaultTestVoice := "coqui:vctk_p243"

  /** `/test-voice`'s voice: `engine:voice_id`, or a bare voice id for Coqui. A missing
      field means "coqui:vctk_p243". */
  function TestVoiceSelection(voice: Option<string>): (r: (string, string))
    ensures var v := voice.GetOr(DefaultTestVoice);
            && (Contains(v, ":") ==> r.0 + ":" + r.1 == v && ':' !in r.0)
            && (!Contains(v, ":") ==> r == (DefaultEngine, v))
  {
    var v := voice.GetOr(DefaultTestVoice);
    if Contains(v, ":") then SplitVoice(v) else (DefaultEngine, v)
  }

  /** `/test-voice`: speaks the given (or default) text with the selected voice. */
  function TestVoice(tts: Manager, text: Option<string>, voice: Option<string>, env: Env, tmp: string): (r: (Manager, set<string>, Option<Audio>))
    requires ManagerInv(tts)
    ensures ManagerInv(r.0)
    ensures r.2.Some? ==> r.2.value.text == text.GetOr(DefaultTestText)
    ensures r.2.Some? ==> r.2.value.engine == TestVoiceSelection(voice).0
    ensures tmp !in env.fs && IsWavTemp(tmp) ==> tmp !in r.1
  {
    var (engine, voiceId) := TestVoiceSelection(voice);
    Speak(tts, text.GetOr(DefaultTestText), engine, Some(voiceId), None, env, tmp)
  }

  /** The default test voice is the VCTK id "vctk_p243" on Coqui. */
  lemma DefaultTestVoiceSplit()
    ensures TestVoiceSelection(None) == (Coqui, "vctk_p243")
  {
    SplitVoiceValue(Coqui, "vctk_p243");
    assert DefaultTestVoice == VoiceValue(Coqui, "vctk_p243");
  }

  /** ... and that id is no XTTS speaker: the voice test renders with Coqui's default voice. */
  lemma DefaultTestVoiceIsCoquiDefault(fs: set<string>)
    ensures CoquiSpeaker(Some(TestVoiceSelection(None).1), None, fs) == DefaultSpeaker
  {
    DefaultTestVoiceSplit();
    VctkLondonMale();
    VctkIdsFallToDefault(3);
    assert CoquiSpeaker(Some("vctk_p243"), None, fs) == CoquiSpeaker(Some("vctk_p243"), None, {});
  }

  lemma VctkLondonMale()
    ensures VctkBritishVoices[3].id == "vctk_p243"
  {
    assert VctkEnglishMale[3].id == "vctk_p243";
    assert VctkBritishVoices[3] == VctkEnglishMale[3];
  }

  // ---------------------------------------------------------------------------
  // The index page's voice menu
  // ---------------------------------------------------------------------------

  function UpperChar(c: char): char {
    if 'a' <= c <= 'z' then (c as int - 32) as char else c
  }

  /** Python `str.title()` for a single word: the first letter capitalised, the rest lower case. */
  function TitleWord(w: string): (r: string)
    ensures |r| == |w|
    ensures w != [] ==> !('a' <= r[0] <= 'z') && LowerChar(r[0]) == LowerChar(w[0])
    ensures forall k :: 0 < k < |w| ==> r[k] == LowerChar(w[k])
  {
    if w == [] then [] else [UpperChar(w[0])] + Lower(w[1..])
  }

  /** Title-casing a title-cased word changes nothing. */
  lemma TitleWordIdempotent(w: string)
    ensures TitleWord(TitleWord(w)) == TitleWord(w)
  {
    var t := TitleWord(w);
    var tt := TitleWord(t);
    if w != [] {
      assert UpperChar(t[0]) == t[0];
      forall k | 0 < k < |w|
        ensures tt[k] == t[k]
      {
        assert LowerChar(LowerChar(w[k])) == LowerChar(w[k]);
      }
    }
  }

  /** One `<option>`: its value, the voice's name, the engine label and the recommendation star. */
  datatype VoiceOption = VoiceOption(value: string, name: string, engineLabel: string, recommended: bool)

  /** One `<optgroup>` of the menu. */
  datatype OptionGroup = OptionGroup(accent: string, options: seq<VoiceOption>)

  function OptionFor(e: Entry): (o: VoiceOption)
    ensures o.value == VoiceValue(e.engine, e.id)
    ensures o.recommended <==> e.id in Recommended.Values
  {
    VoiceOption(VoiceValue(e.engine, e.id), e.name, "(" + TitleWord(e.engine) + ")", e.id in Recommended.Values)
  }

  function OptionsFor(es: seq<Entry>): (os: seq<VoiceOption>)
    ensures |os| == |es|
    ensures forall k :: 0 <= k < |es| ==> os[k] == OptionFor(es[k])
  {
    seq(|es|, k requires 0 <= k < |es| => OptionFor(es[k]))
  }

  /** `get_index`'s menu: one group per accent that has voices, in bucket order. */
  function VoiceMenu(b: Buckets): (gs: seq<OptionGroup>)
    ensures |gs| <= |b|
    ensures forall k :: 0 <= k < |gs| ==> |gs[k].options| > 0
    ensures forall k :: 0 <= k < |gs| ==>
              exists i :: 0 <= i < |b| && gs[k] == OptionGroup(b[i].0, OptionsFor(b[i].1))
    ensures forall i :: 0 <= i < |b| && b[i].1 != [] ==> OptionGroup(b[i].0, OptionsFor(b[i].1)) in gs
  {
    if b == [] then []
    else
      var rest := VoiceMenu(b[1..]);
      MenuStep(b, rest);
      MenuHead(b) + rest
  }

  /** The group for the first bucket, or nothing when that bucket is empty. */
  function MenuHead(b: Buckets): seq<OptionGroup>
    requires b != []
  {
    if b[0].1 != [] then [OptionGroup(b[0].0, OptionsFor(b[0].1))] else []
  }

  /** Putting the first bucket's group in front of the rest's menu gives the whole menu. */
  lemma MenuStep(b: Buckets, rest: seq<OptionGroup>)
    requires b != []
    requires |rest| <= |b[1..]|
    requires forall k :: 0 <= k < |rest| ==> |rest[k].options| > 0
    requires forall k :: 0 <= k < |rest| ==>
               exists i :: 0 <= i < |b[1..]| && rest[k] == OptionGroup(b[1..][i].0, OptionsFor(b[1..][i].1))
    requires forall i :: 0 <= i < |b[1..]| && b[1..][i].1 != [] ==>
               OptionGroup(b[1..][i].0, OptionsFor(b[1..][i].1)) in rest
    ensures |MenuHead(b) + rest| <= |b|
    ensures forall k :: 0 <= k < |MenuHead(b) + rest| ==> |(MenuHead(b) + rest)[k].options| > 0
    ensures forall k :: 0 <= k < |MenuHead(b) + rest| ==>
              exists i :: 0 <= i < |b| && (MenuHead(b) + rest)[k] == OptionGroup(b[i].0, OptionsFor(b[i].1))
    ensures forall i :: 0 <= i < |b| && b[i].1 != [] ==>
              OptionGroup(b[i].0, OptionsFor(b[i].1)) in MenuHead(b) + rest
  {
    var head := MenuHead(b);
    assert forall i :: 1 <= i < |b| ==> b[i] == b[1..][i - 1];
    assert forall k :: 0 <= k < |head + rest| ==>
             (head + rest)[k] in head || (head + rest)[k] == rest[k - |head|];
  }

  /** The menu keeps bucket order: the menu of two bucket lists one after the other is the
      first list's menu followed by the second's. */
  lemma {:induction false} VoiceMenuAppend(a: Buckets, b: Buckets)
    ensures VoiceMenu(a + b) == VoiceMenu(a) + VoiceMenu(b)
    decreases |a|
  {
    if a == [] {
      assert a + b == b;
    } else {
      assert (a + b)[0] == a[0] && (a + b)[1..] == a[1..] + b;
      VoiceMenuAppend(a[1..], b);
    }
  }

  /** One bucket gives one group, its label over its voices' options in bucket order, and
      an empty bucket gives none. */
  lemma VoiceMenuOfBucket(bucket: (string, seq<Entry>))
    ensures VoiceMenu([bucket]) == if bucket.1 == [] then [] else [OptionGroup(bucket.0, OptionsFor(bucket.1))]
  {
    assert [bucket][1..] == [];
  }

  /** Choosing a menu option posts exactly that voice's engine and id to `/chat`. */
  lemma MenuOptionSelectsItsVoice(e: Entry)
    requires ':' !in e.engine
    ensures ChatVoice(Some(OptionFor(e).value)) == (e.engine, Some(e.id))
  {
    SplitVoiceValue(e.engine, e.id);
  }

  // ---------------------------------------------------------------------------
  // /stats and /health
  // ---------------------------------------------------------------------------

  datatype Stats = Stats(messageCount: nat, enginesUsed: seq<string>, popularVoice: string, avgResponseTime: string)

  /** `/stats`: the current session's user-message count (0 for an empty history) and
      fixed placeholder fields. */
  function GetStats(c: Conversations): (r: (Conversations, Stats))
    ensures var (c1, sid) := GetSession(c, None);
            r.0 == c1 && r.1.messageCount == RoleCount(c1.sessions[sid], "user")
  {
    var (c1, sid) := GetSession(c, None);
    var a := Analyze(c1.sessions[sid]);
    var count := if a.Measured? then a.totalExchanges else 0;
    (c1, Stats(count, [Coqui, Bark, Piper], "British voices", "2.3"))
  }

  datatype Health = Health(status: string, message: string, enginesAvailable: seq<string>,
                           totalVoices: nat, wakeWordAvailable: bool)

  /** `/health`; `detectorLoaded` says whether the global wake-word detector exists. */
  function HealthCheck(detectorLoaded: bool): (r: Health)
    ensures r.status == "healthy"
    ensures r.wakeWordAvailable == detectorLoaded
  {
    Health("healthy", "Multi-Engine Voice Assistant is running", Firsts(EngineTable),
           |GetAllVoices()|, detectorLoaded)
  }

  /** The health check's "total_voices" counts accent buckets (always 22), far fewer than
      the catalog's voices. */
  lemma HealthCountsAccents(detectorLoaded: bool)
    ensures HealthCheck(detectorLoaded).totalVoices == 22
    ensures HealthCheck(detectorLoaded).totalVoices < |XttsSpeakers|
    ensures HealthCheck(detectorLoaded).enginesAvailable == [Coqui, Bark, Piper]
  {
    AllVoicesKeys();
    XttsOutnumbersAccents();
    EngineTableNames();
  }

  lemma XttsOutnumbersAccents()
    ensures 22 < |XttsSpeakers|
  {
    assert |XttsHighQuality| == 5 && |XttsBritish| == 5 && |XttsAmerican| == 5 && |XttsEuropean| == 5
        && |XttsAdditionalInternational| == 5;
  }

  lemma EngineTableNames()
    ensures Firsts(EngineTable) == [Coqui, Bark, Piper]
  {
    var names := Firsts(EngineTable);
    assert |names| == 3 && names[0] == Coqui && names[1] == Bark && names[2] == Piper;
  }
}
