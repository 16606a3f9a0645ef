# Multi-engine voice assistant — a Dafny model of its core

This project models the core of a local voice assistant. A microphone listener waits for a
wake phrase, a conversation layer talks to a language model and keeps sessions, and three
text-to-speech engines (Coqui XTTS, Bark, Piper) speak the answers. The voice catalog groups
their voices by accent. A small web layer parses the voice chosen in the page. A
self-modifier lets the assistant edit its own files behind a permission gate. A
dependency installer turns package specs into pip invocations and summarises the outcome.

Every part is a pure function over immutable data. Each has contracts and lemmas:

| module | file | models |
|---|---|---|
| `Wrappers` | wrappers.dfy | `Option` and `Result` for the error paths |
| `Text` | text.dfy | the Python string operations the core relies on: `lower`, `strip`, `split`, `split()` on whitespace, `join`, `in`, decimal rendering |
| `Sorting` | sorting.dfy | Python's stable `sorted(..., reverse=True)` as a stable insertion sort on sequences |
| `Json` | json.dfy | JSON values, `dict.get`, and the recursive `deep_update` of configuration dictionaries |
| `WakeWord` | wake_word.dfy | the wake-word detector: construction, permission, start/stop, the listening loop as a state machine over microphone reads, and the transcription of a flushed segment |
| `VoiceCatalog` | voice_catalog.dfy | the voice tables, the late addition to the Piper table, grouping by accent, the recommended voices |
| `TtsEngines` | tts_engines.dfy | the engine cache, the three engines' speaker choice, model loading, temporary files, and the `speak` dispatch |
| `AssistantLogic` | assistant_logic.dfy | history limits, the THINKING/RESPONSE parse, the summary, the engagement analysis, the session manager, keyword extraction, and thinking display |
| `WebAssistant` | web_assistant.dfy | `/chat`, `/test-voice`, `/stats` and `/health`, plus the voice menu of the index page |
| `SelfModifier` | self_modifier.dfy | permissions, the modifiable-path gate, `modify_file`, `add_to_file`, `update_config`, modification history and rollback |
| `Installer` | installer.dfy | the spec tokenizer, the pip command, per-package outcomes, the category order and the final summary |

The file system is a map from path to contents, or a set of paths where only existence
matters. The memory store is a map from key to JSON value. The following are parameters
of the operations:

- the outcome of every foreign call:
  - the microphone;
  - the voice-activity detector;
  - Whisper;
  - the model download;
  - the Piper subprocess;
  - pip;
  - the language-model HTTP reply;
  - `json.load` / `json.dumps`;
- the current time;
- `hash()`;
- temporary file names.

## Model

| member | source | states |
|---|---|---|
| WakeWord.NewDetector | src/assistant/wake_word_detector.py:29-61 | the detector keeps one lower-cased copy of each wake word, in order; the chunk size is sample rate × duration / 1000 truncated; a new detector is neither listening nor permitted |
| WakeWord.TruncDiv | src/assistant/wake_word_detector.py:42 | `int()` of a quotient truncates toward zero: the result brackets the dividend from below for non-negative and from above for negative values |
| WakeWord.DefaultChunkSize | src/assistant/wake_word_detector.py:29-42 | the default 16 kHz rate and 30 ms chunks give 480 samples per read |
| WakeWord.ContainsWakeWord | src/assistant/wake_word_detector.py:97-100 | true exactly when some stored wake word is a substring of the lower-cased text |
| WakeWord.MatchIsCaseInsensitive | src/assistant/wake_word_detector.py:97-100 | through the constructor, matching is case-insensitive on both the text and the configured words |
| WakeWord.WakeWordExamples | src/assistant/wake_word_detector.py:97-100 | with the default words, "please say Hey Assistant now" wakes and "hey there" does not |
| WakeWord.RequestPermission | src/assistant/wake_word_detector.py:63-95 | the permission flag becomes whether the test stream worked, the error callback fires exactly when it did not, and nothing else changes |
| WakeWord.Start | src/assistant/wake_word_detector.py:116-145 | an already listening detector is left alone and reports success; otherwise it asks for permission when it has none, opens the stream only with permission, and listens exactly when it succeeded; listening always implies permission |
| WakeWord.Stop | src/assistant/wake_word_detector.py:147-164 | stopping clears listening and keeps permission, words and chunk size |
| WakeWord.RestartAfterStop | src/assistant/wake_word_detector.py:116-164 | a stopped detector with permission can be started again and opens a new stream |
| WakeWord.IsSpeech | src/assistant/wake_word_detector.py:102-114 | a detector call that raises counts as silence; otherwise the chunk is speech exactly when the detector says voiced |
| WakeWord.Window | src/assistant/wake_word_detector.py:191-192 | the window holds 50 chunks when the buffer has more, and as many as the buffer otherwise |
| WakeWord.WindowIsSuffix | src/assistant/wake_word_detector.py:191-192 | the kept chunks are the buffer's tail: the buffer is the dropped oldest chunks followed by the window, chunk for chunk in arrival order |
| WakeWord.Step | src/assistant/wake_word_detector.py:166-196 | one read keeps the loop invariant: speech is flagged exactly when chunks are buffered, and never more than 50 are |
| WakeWord.StepCases | src/assistant/wake_word_detector.py:177-196 | speech appends and windows the chunk and signals activity; silence after speech flushes the buffer and resets; other silence only windows; a failed read changes nothing |
| WakeWord.Listen | src/assistant/wake_word_detector.py:166-196 | the loop over any sequence of reads keeps the invariant |
| WakeWord.SilenceNeverFlushes | src/assistant/wake_word_detector.py:177-188 | from an idle loop, reads that are all silent or failed produce no event and leave the loop idle |
| WakeWord.SpeechRunBuffersWindow | src/assistant/wake_word_detector.py:177-192 | a run of speech chunks signals activity once per chunk and buffers exactly the last 50 of them |
| WakeWord.SpeechRunFlushedOnce | src/assistant/wake_word_detector.py:177-188 | up to 50 speech chunks followed by one silent chunk flush exactly once, with the chunks in order |
| WakeWord.FlushedSegmentsBounded | src/assistant/wake_word_detector.py:166-196 | every flushed segment holds between 1 and 50 chunks |
| WakeWord.ProcessSegment | src/assistant/wake_word_detector.py:198-227 | the wake callback fires exactly when a transcriber exists, succeeds, and its stripped text holds a wake word, and then receives that text; the temporary WAV is left behind exactly when the transcriber raises; no other file changes |
| WakeWord.RaisingTranscriberLeaksTempFile | src/assistant/wake_word_detector.py:211-224 | a transcriber that raises leaves a new temporary WAV behind, so the files afterwards differ from those before |
| WakeWord.ProcessSegmentCleaned | src/assistant/wake_word_detector.py:198-227 | with the removal in a `finally`: the same wake decision, the temporary file never survives, and a fresh temporary name leaves the files exactly as they were |
| WakeWord.CleanedDiffersOnlyInTempFile | src/assistant/wake_word_detector.py:198-227 | the corrected processing fires the same callback and differs from the code as written only by the leaked file |
| WakeWord.ProcessRun | src/assistant/wake_word_detector.py:166-227 | processing a run's events in order yields at most one wake text per flushed segment |
| WakeWord.CleanedRunKeepsFiles | src/assistant/wake_word_detector.py:198-227 | with the `finally`, a whole run with fresh temporary names leaves the files as it found them, whatever the transcriber does |
| WakeWord.RaisingRunLeaksEveryFile | src/assistant/wake_word_detector.py:211-224 | as written, a transcriber that always raises removes no file and leaves one temporary WAV per flushed segment |
| WakeWord.RunsAgreeOnWakes | src/assistant/wake_word_detector.py:198-227 | the code as written and the corrected one hand the same texts, in the same order, to the wake callback |
| WakeWord.ImportedTranscriberNeverWakes | src/assistant/wake_word_detector.py:212 | with the transcriber import failing, no sequence of reads ever fires the wake callback |
| WakeWord.NoTranscriberNoWake | src/assistant/wake_word_detector.py:221-222 | without a transcriber, no run of events produces a wake text |
| WakeWord.WorkingTranscriberWakes | src/assistant/wake_word_detector.py:198-227 | with a working transcriber, a spoken wake phrase followed by silence fires the callback exactly once, with the stripped transcript |
| TtsEngines.GetEngine | src/assistant/tts_engines.py:32-44 | a cached engine is returned unchanged; an unknown name is an error; a known name is constructed once, cached and logged |
| TtsEngines.GetEngineKeepsInv | src/assistant/tts_engines.py:32-44 | the cache invariant holds after every lookup: each name is constructed at most once and maps to an engine of its kind; lookup fails exactly for unknown names |
| TtsEngines.GetEngines | src/assistant/tts_engines.py:32-44 | any sequence of lookups keeps the invariant, never constructs a name twice and never drops a cached engine |
| TtsEngines.GetEngineCached | src/assistant/tts_engines.py:32-44 | a second lookup of a known name returns the same engine and state |
| TtsEngines.Cleanup | src/assistant/tts_engines.py:119-121 | the `finally` removes the temporary file and nothing else |
| TtsEngines.CoquiSpeaker | src/assistant/tts_engines.py:88-111 | an existing clone file wins; otherwise a non-empty id listed among the XTTS speakers is used; otherwise the default speaker |
| TtsEngines.CoquiSynthesize | src/assistant/tts_engines.py:66-121 | audio exists exactly when the model is or gets loaded and rendering and reading succeed; it carries the chosen speaker and the text; afterwards the model is loaded exactly when it was before or the load succeeded, so a failed load leaves it unset; a loaded model is kept; the file system is unchanged |
| TtsEngines.VctkIdsFallToDefault | src/assistant/tts_engines.py:88-111 | every British VCTK id offered in the catalog is spoken with the default XTTS speaker |
| TtsEngines.BarkPreset | src/assistant/tts_engines.py:147-150 | a listed Bark id is used as the preset, anything else falls back to the default preset, and the result is always a listed preset |
| TtsEngines.BarkSynthesize | src/assistant/tts_engines.py:128-170 | audio exists exactly when the model is or gets loaded and generation and reading succeed, with the chosen preset and the text; afterwards the model is loaded exactly when it was before or the load succeeded; the file system is unchanged |
| TtsEngines.BarkIgnoresClonePath | src/assistant/tts_engines.py:142-170 | Bark is advertised as supporting cloning, yet the clone path never affects its result |
| TtsEngines.DownloadModel | src/assistant/tts_engines.py:176-194 | ids outside the Piper table are rejected; a remembered id needs nothing; otherwise a missing model file is fetched and then the config file, and the id remembered; only those two files can appear, and only when the model file was missing; on failure the model file is on disk exactly when its fetch completed or broke off part-way, and the config file exactly when it was there before or its fetch broke off after a completed model fetch |
| TtsEngines.DownloadIdempotent | src/assistant/tts_engines.py:176-194 | after a successful download, downloading the same id again succeeds with the same engine and touches no file, whatever the network does |
| TtsEngines.PartialDownloadNeverFetchesConfig | src/assistant/tts_engines.py:186-194 | after a failed config fetch the next call sees the model file and records the id, with a config file only if the broken fetch left part of one |
| TtsEngines.BrokenModelFetchAccepted | src/assistant/tts_engines.py:186-194 | a model fetch that breaks off part-way fails, yet the next call accepts the partial model file and records the id with no config file |
| TtsEngines.WavTempNotPiperFile | src/assistant/tts_engines.py:205 | a temporary name ending in ".wav" is never a Piper model or config path |
| TtsEngines.PiperVoice | src/assistant/tts_engines.py:198-199 | a missing or empty id selects the default Piper voice |
| TtsEngines.PiperSynthesize | src/assistant/tts_engines.py:196-230 | audio exists only for a downloaded voice with exit code 0 and a readable file; an unlisted id fails without touching anything; only the model files may appear; a temporary name other than the model files is gone afterwards |
| TtsEngines.PiperDefaultAndNoFallback | src/assistant/tts_engines.py:196-230 | the default voice is listed, and an unlisted id fails instead of falling back to it |
| TtsEngines.Synthesize | src/assistant/tts_engines.py:46-57 | dispatch keeps the engine's kind, labels the audio with that engine and the text, leaves no new temporary WAV file, and only Coqui ever clones, from the given path |
| TtsEngines.Speak | src/assistant/tts_engines.py:32-57 | an unknown engine yields no audio and changes nothing; otherwise the audio names the requested engine and text, no new temporary WAV file remains, and only Coqui clones; the cache then holds the engine as its synthesis left it (its load state or Piper's downloaded set), constructions are those of `get_engine`, and every other cached engine is unchanged |
| TtsEngines.LoadedOnceRetriedAfterFailure | src/assistant/tts_engines.py:66-77 | across two calls on one Coqui or Bark engine: after a successful load the second call succeeds exactly when rendering and reading do, whatever loading would do; after a failed load the engine is unchanged and the second call needs the load again |
| TtsEngines.LazySynthesisSucceeds | src/assistant/tts_engines.py:66-77 | Coqui and Bark render exactly when their model is or gets loaded and rendering and reading succeed, and end loaded exactly when they were or the load succeeded |
| TtsEngines.SpeakAudioIsSynthesis | src/assistant/tts_engines.py:46-57 | with a known engine, `speak` reports audio exactly when that engine's `synthesize` produced it |
| TtsEngines.SpeakCachesLoadState | src/assistant/tts_engines.py:46-77 | after `speak` with Coqui or Bark the cache holds that engine, loaded exactly when it was before or the load succeeded |
| TtsEngines.CachedEngineDecides | src/assistant/tts_engines.py:46-77 | with Coqui or Bark cached, `speak` succeeds exactly when the cached model is loaded or loads now, and rendering and reading succeed |
| TtsEngines.SpeakLoadsOnce | src/assistant/tts_engines.py:46-77 | through the manager's cache, a model loaded by one `speak` stays loaded, so the next `speak` no longer depends on loading; after a failed load the next call loads again |
| VoiceCatalog.UpdateCatalog | src/assistant/voice_models.py:362-374 | like `dict.update`: the id is then present, an existing id keeps its place and length, a new id is appended, and all other entries stay |
| VoiceCatalog.PiperModelsHasVale | src/assistant/voice_models.py:362-374 | the Piper table is the base table plus the late southern English voice |
| VoiceCatalog.EmptyBuckets | src/assistant/voice_models.py:273-296 | one empty bucket per accent key, in order |
| VoiceCatalog.AddVoice | src/assistant/voice_models.py:298-308 | a voice is appended, tagged with its engine, to exactly the buckets of its accent |
| VoiceCatalog.AddAllAppends | src/assistant/voice_models.py:298-344 | a whole loop appends to each bucket exactly the tagged voices of that accent, in catalog order |
| VoiceCatalog.GroupByAccent | src/assistant/voice_models.py:271-346 | the grouping has exactly the given keys in order, and each bucket is the XTTS, Bark, Piper then VCTK voices of that accent |
| VoiceCatalog.BucketMembers | src/assistant/voice_models.py:271-346 | an entry is in a bucket exactly when it has that accent and is a catalog voice tagged with its own engine (Coqui for XTTS and VCTK) |
| VoiceCatalog.CatalogVoiceListed | src/assistant/voice_models.py:271-346 | a catalog voice appears in some bucket exactly when its accent is one of the keys |
| VoiceCatalog.AllVoicesKeys | src/assistant/voice_models.py:273-296 | the grouping always has the 22 listed accents, in order |
| VoiceCatalog.RecommendedAreCatalogKeys | src/assistant/voice_models.py:348-360 | every recommended voice is an XTTS, Bark or Piper id |
| VoiceCatalog.EngineTableSeesPiperUpdate | src/assistant/voice_models.py:238-269 | the engine table shares the Piper table, so it lists the voice added later |
| WebAssistant.SplitVoice | src/assistant/web_voice_assistant.py:696-701 | `split(":", 1)`: the parts rejoin with ":" to the value, and the engine part has no colon |
| WebAssistant.SplitVoiceValue | src/assistant/web_voice_assistant.py:696-701 | a menu value built from a colon-free engine and any id splits back into them |
| WebAssistant.ChatVoice | src/assistant/web_voice_assistant.py:696-701 | a value with a colon is split into engine and id; anything else selects Coqui with no id |
| WebAssistant.VoiceUsed | src/assistant/web_voice_assistant.py:722-728 | the reported voice is the id when non-empty and "default" otherwise |
| WebAssistant.ChatTurn | src/assistant/web_voice_assistant.py:687-693 | the turn goes to the current session, whose stored history is the one returned; a reply ends the history with the user message and the answer; a failed reply changes only session creation |
| WebAssistant.ChatSpeech | src/assistant/web_voice_assistant.py:704-720 | audio names the engine and text; cloning happens only with an upload to Coqui and from its temporary file; that file and the speech temporary file are gone afterwards |
| WebAssistant.Chat | src/assistant/web_voice_assistant.py:679-731 | no message gives the error and changes nothing; otherwise the exchange is recorded in the current session first; the answer is an error exactly when the recording for Coqui fails to be read or saved, and then it carries the exception text, the engine cache is untouched and the recording's temporary file stays if it was created; otherwise the reported engine and voice are the parsed selection, audio matches the response, and clone uploads are removed |
| WebAssistant.ChatAnswer | src/assistant/web_voice_assistant.py:696-731 | after the recorded exchange: the upload error for Coqui with the files it leaves, or the response with speech, the parsed engine and voice, and no leftover recording |
| WebAssistant.FailedUploadKeepsExchange | src/assistant/web_voice_assistant.py:704-731 | a recording whose saving raises after its temporary file exists turns the answer into the error text, while the exchange stays recorded and the temporary file stays behind |
| WebAssistant.ChatReportsChosenVoice | src/assistant/web_voice_assistant.py:679-731 | choosing a menu value "engine:id", with no failing Coqui recording, answers with that engine and that id ("default" for an empty id) |
| WebAssistant.ChatIgnoresVoiceWithoutColon | src/assistant/web_voice_assistant.py:696-701 | a voice value without a colon is ignored: with no failing recording, Coqui with its default voice is reported |
| WebAssistant.TestVoiceSelection | src/assistant/web_voice_assistant.py:737-745 | the voice defaults to "coqui:vctk_p243"; a colon splits it, otherwise the whole value is a Coqui id |
| WebAssistant.TestVoice | src/assistant/web_voice_assistant.py:733-755 | the audio speaks the given text or the default sentence with the selected engine; no temporary file remains |
| WebAssistant.DefaultTestVoiceSplit | src/assistant/web_voice_assistant.py:737-745 | the default test voice is Coqui with id "vctk_p243" |
| WebAssistant.DefaultTestVoiceIsCoquiDefault | src/assistant/web_voice_assistant.py:733-755 | the default test voice is not an XTTS speaker, so Coqui speaks it with its default speaker |
| WebAssistant.OptionFor | src/assistant/web_voice_assistant.py:63-66 | an option's value is "engine:id", and it is starred exactly when its id is recommended |
| WebAssistant.VoiceMenu | src/assistant/web_voice_assistant.py:55-67 | the menu has one group per non-empty accent bucket, holding that bucket's options; empty buckets are skipped |
| WebAssistant.VoiceMenuAppend | src/assistant/web_voice_assistant.py:55-67 | groups follow bucket order: the menu of two bucket lists in a row is the first one's menu followed by the second's |
| WebAssistant.VoiceMenuOfBucket | src/assistant/web_voice_assistant.py:55-67 | a bucket gives one group, its accent over the options of its voices in bucket order, or nothing when it is empty |
| WebAssistant.MenuOptionSelectsItsVoice | src/assistant/web_voice_assistant.py:63-66 | posting a menu option's value to the chat selects exactly that option's engine and voice |
| WebAssistant.GetStats | src/assistant/web_voice_assistant.py:757-771 | the message count is the number of user messages in the current session |
| WebAssistant.HealthCountsAccents | src/assistant/web_voice_assistant.py:816-826 | "total_voices" is the number of accent buckets (22), below the number of XTTS voices alone; the engines are listed in table order |
| WebAssistant.HealthCheck | src/assistant/web_voice_assistant.py:816-826 | the status is "healthy", and the wake word is reported available exactly when the detector was loaded; the counts are stated by WebAssistant.HealthCountsAccents |
| WebAssistant.TitleWord | src/assistant/web_voice_assistant.py:64 | the length is kept, the first character is no lower-case letter and agrees with the word's first letter up to case, and every later character is lower-cased |
| WebAssistant.TitleWordIdempotent | src/assistant/web_voice_assistant.py:64 | title-casing an engine label twice gives the same label as once |
| AssistantLogic.AddToHistory | src/assistant/assistant_logic.py:34-40 | the message is appended last, the history never exceeds 20, and the kept earlier messages are the newest ones |
| AssistantLogic.LastN | src/assistant/assistant_logic.py:40 | the last n elements in their order, or all of them when there are fewer |
| AssistantLogic.ClearHistory | src/assistant/assistant_logic.py:120-122 | the history becomes empty |
| AssistantLogic.AddIsNewest | src/assistant/assistant_logic.py:34-40 | adding a message keeps the newest 20 of the history extended by it |
| AssistantLogic.AddAllKeepsNewest | src/assistant/assistant_logic.py:34-40 | any sequence of additions keeps the newest 20 of all messages |
| AssistantLogic.Clean | src/assistant/assistant_logic.py:92-93 | a cleaned section has no surrounding whitespace |
| AssistantLogic.CleanPlain | src/assistant/assistant_logic.py:92-93 | cleaning leaves plain text (no headers, no fences, trimmed) unchanged |
| AssistantLogic.ParseReply | src/assistant/assistant_logic.py:86-102 | a reply without both headers is returned whole behind the fixed notice; otherwise the thinking is the cleaned text between the first THINKING: and the next RESPONSE:, and the response the cleaned text between the first RESPONSE: and the next |
| AssistantLogic.ParseFormatted | src/assistant/assistant_logic.py:86-102 | a reply in the requested THINKING/RESPONSE format parses back into its thinking and response |
| AssistantLogic.Handler | src/assistant/assistant_logic.py:110-117 | a failed request and a body that is not JSON both reach the connection-error handler; every other failure reaches the generic one |
| AssistantLogic.ErrorText | src/assistant/assistant_logic.py:110-117 | the error text starts with its handler's prefix and never with the invalid-JSON message |
| AssistantLogic.Query | src/assistant/assistant_logic.py:42-118 | a reply is parsed, and the user message and answer are recorded as the newest pair; each failure leaves the history alone and answers with the same text in both parts: a connection error for a failed request or a non-JSON body, an unexpected error otherwise, never the invalid-JSON message |
| AssistantLogic.AddRecordsBoth | src/assistant/assistant_logic.py:105-106 | recording the user message then the answer keeps the newest 20 of the history extended by both |
| AssistantLogic.Summary | src/assistant/assistant_logic.py:124-134 | the fixed no-history text is returned exactly when the history is empty |
| AssistantLogic.SummaryHasOneLinePerMessage | src/assistant/assistant_logic.py:124-134 | the summary has one numbered line per message among the last 10, in order |
| AssistantLogic.Analyze | src/assistant/assistant_logic.py:136-152 | an empty history gets the neutral answer; otherwise the exchange count is the number of user messages, the averages are true means (0 without messages), and engagement is high above 5 and low up to 2 |
| AssistantLogic.RoleCount | src/assistant/assistant_logic.py:142-143 | at most one per message, and one message counts exactly when it has the role |
| AssistantLogic.RoleCountAppend | src/assistant/assistant_logic.py:142-143 | messages are counted one by one: the count over two histories in a row is the sum of their counts |
| AssistantLogic.EngagementNeverFallsBelowLimit | src/assistant/assistant_logic.py:136-152 | below the history limit, recording a message never lowers engagement |
| AssistantLogic.EngagementCanFallAtLimit | src/assistant/assistant_logic.py:136-152 | at the limit, recording an assistant message can drop engagement from medium to low, because the oldest user message is evicted |
| AssistantLogic.CreateSession | src/assistant/assistant_logic.py:161-164 | the session exists with an empty history afterwards; other sessions and the current one are unchanged |
| AssistantLogic.GetSession | src/assistant/assistant_logic.py:166-174 | the requested or current session is returned and exists afterwards; an existing one changes nothing, a missing one is created empty |
| AssistantLogic.GetSessionIdempotent | src/assistant/assistant_logic.py:166-174 | a second lookup of the same session changes nothing |
| AssistantLogic.SwitchSession | src/assistant/assistant_logic.py:176-180 | the session becomes current and exists; existing histories are kept; a new one starts empty |
| AssistantLogic.Describe | src/assistant/assistant_logic.py:182-191 | the count is the history length, current exactly for the current id; the last interaction is the last message's first 50 characters (all of them when shorter) followed by "...", or "No messages" exactly when the history is empty |
| AssistantLogic.ListSessions | src/assistant/assistant_logic.py:182-191 | exactly the existing sessions are listed, each with its description |
| AssistantLogic.CurrentListedOnce | src/assistant/assistant_logic.py:182-191 | at most one session is flagged current, and one is flagged exactly when the current id exists |
| AssistantLogic.DeleteSession | src/assistant/assistant_logic.py:193-198 | only that session is removed; deleting the current one makes "default" current |
| AssistantLogic.DeleteCurrentThenGet | src/assistant/assistant_logic.py:193-198 | after deleting the current session, the next lookup yields "default": the old default history if one existed, else an empty one |
| AssistantLogic.StripPunct | src/assistant/assistant_logic.py:207 | `strip('.,!?;:')` leaves no such punctuation at either end and never lengthens |
| AssistantLogic.CandidatesAsWritten | src/assistant/assistant_logic.py:206-207 | the candidates are exactly the stripped forms of the words that pass the length and stop-word test before stripping |
| AssistantLogic.CandidatesAsWrittenAppend | src/assistant/assistant_logic.py:206-207 | each word contributes on its own, in word order: the candidates of two word lists in a row are the first's followed by the second's, counts included |
| AssistantLogic.CandidatesAsWrittenOfWord | src/assistant/assistant_logic.py:206-207 | one word contributes its stripped form exactly when the word as split passes the test |
| AssistantLogic.Candidates | src/assistant/assistant_logic.py:206-207 | with the test after stripping, every candidate is a keyword, and every word whose stripped form passes is a candidate |
| AssistantLogic.CandidatesAppend | src/assistant/assistant_logic.py:206-207 | with the corrected test, each word still contributes on its own, in word order, counts included |
| AssistantLogic.CandidatesOfWord | src/assistant/assistant_logic.py:206-207 | one word contributes its stripped form exactly when that passes the test |
| AssistantLogic.RankedKeys | src/assistant/assistant_logic.py:209-214 | the ranking holds each candidate once, with frequencies not increasing |
| AssistantLogic.TopKeywords | src/assistant/assistant_logic.py:214 | at most 10 distinct candidates, most frequent first; a candidate is left out only when 10 are kept, all at least as frequent |
| AssistantLogic.ExtractKeywordsAsWritten | src/assistant/assistant_logic.py:201-214 | at most 10 distinct candidates of the lower-cased words, ordered by frequency, most frequent first; a candidate is left out only when 10 are kept, each at least as frequent |
| AssistantLogic.AsWrittenKeepsStopWords | src/assistant/assistant_logic.py:207 | "should," passes the test before stripping and yields the stop word "should"; ".,.,.,." yields the empty word; the corrected order rejects both |
| AssistantLogic.ExtractKeywords | src/assistant/assistant_logic.py:201-214 | at most 10 distinct keywords, none a stop word, each longer than 3 characters and stripped of punctuation; most frequent first; a candidate is left out only when 10 are kept, each at least as frequent |
| AssistantLogic.LineMark | src/assistant/assistant_logic.py:226-237 | each mark is given exactly when its test is the first to pass: question, then a conclusion word, then a consideration word, and the bullet when none passes |
| AssistantLogic.KeptLines | src/assistant/assistant_logic.py:222-225 | the kept lines are non-empty and stripped, and never more than the input lines |
| AssistantLogic.KeptLinesAppend | src/assistant/assistant_logic.py:222-225 | each line contributes on its own, in line order: the kept lines of two stretches of text are the first's followed by the second's |
| AssistantLogic.KeptLinesOfLine | src/assistant/assistant_logic.py:222-225 | one line contributes itself stripped, or nothing when stripping leaves nothing |
| AssistantLogic.FormatThinking | src/assistant/assistant_logic.py:216-239 | the display is empty exactly when no line has content |
| AssistantLogic.FormatThinkingLines | src/assistant/assistant_logic.py:216-239 | the display has one line per kept line, in order, each being a mark, a space and the line |
| AssistantLogic.SubstringMatchMarksConclusion | src/assistant/assistant_logic.py:230-231 | the conclusion words match as substrings: "I also agree" is marked a conclusion because "also" contains "so" |
| SelfModifier.RequestPermission | src/assistant/self_modifier.py:45-71 | a cached decision is answered from memory without storing; a cached non-dict raises; otherwise exactly the safe actions are granted and the decision stored under its key, all other keys kept |
| SelfModifier.PermissionSticks | src/assistant/self_modifier.py:45-71 | asking again with the same key gives the same answer and stores nothing |
| SelfModifier.ModifyNeverAutoGranted | src/assistant/self_modifier.py:59-60 | "modify" is refused unless a grant is already stored |
| SelfModifier.ModifiableIsContainment | src/assistant/self_modifier.py:96-97 | the gate is plain substring containment; the `endswith` test adds nothing |
| SelfModifier.TraversalPassesGate | src/assistant/self_modifier.py:93-99 | any path "docs/../x" passes the gate, and the corrected check refuses it |
| SelfModifier.SafeModifiableNarrows | src/assistant/self_modifier.py:93-99 | every path the corrected check accepts also passes the written gate, is relative, and does not climb with ".." |
| SelfModifier.ModifyFile | src/assistant/self_modifier.py:73-131 | success exactly when the gate holds, a granted "modify" decision is stored, an existing file's backup copy completes and the write completes; a closed gate changes nothing; without the grant no file changes; only the target and the backup path can change; on failure memory changes only in the stored "modify" decision; on success exactly one record is added, naming the backup (or none for a new file) |
| SelfModifier.BackupStage | src/assistant/self_modifier.py:106-110 | with the grant given: a backup copy of an existing file that does not complete fails and changes memory not at all; otherwise the write decides success |
| SelfModifier.Commit | src/assistant/self_modifier.py:112-126 | after the backup, success exactly when the write completes; the record is stored only then; only the target and the backup path change |
| SelfModifier.ModifyGrantedIsPermission | src/assistant/self_modifier.py:45-71 | asking for "modify" is granted exactly when a granted dict decision is already stored under its key |
| SelfModifier.FailedBackupKeepsTarget | src/assistant/self_modifier.py:73-110 | a backup copy that fails makes the change fail with the target untouched; a copy that cannot open changes no file; a broken copy leaves its partial text at the backup path |
| SelfModifier.WriteOutcomeAfterBackup | src/assistant/self_modifier.py:106-116 | once the backup is made it holds the old content; a completed write gives the new content, a broken write leaves its partial text, a write that cannot open leaves the target as it was |
| SelfModifier.BrokenWriteOrphansBackup | src/assistant/self_modifier.py:112-131 | a write that breaks off after the backup leaves the target truncated and the backup in place but stores no record, so the change cannot be rolled back |
| SelfModifier.BackupPath | src/assistant/self_modifier.py:79-80 | none; characterised by SelfModifier.BackupPathInBackups |
| SelfModifier.BackupPathInBackups | src/assistant/self_modifier.py:79-80 | every backup lands in the backups directory under the root, named after the file's base name and the stamp, with the ".backup" suffix |
| SelfModifier.IsModifiable | src/assistant/self_modifier.py:96-97 | none; characterised by SelfModifier.ModifiableIsContainment and SelfModifier.TraversalPassesGate |
| SelfModifier.AddToFile | src/assistant/self_modifier.py:133-155 | success exactly as for modify_file; a missing file gets the content alone; "start" puts the content and a newline before the old text; any other position puts a newline and the content after it; without the grant no file changes; only the target and the backup path can change; on success exactly the modification record is added to memory |
| SelfModifier.MergedConfig | src/assistant/self_modifier.py:173-180 | merging into a dict keeps its keys, adds the updates' keys and holds every update; a non-dict survives only an empty update |
| SelfModifier.UpdateConfig | src/assistant/self_modifier.py:157-187 | a refused "update_config", an unreadable configuration or a failed merge writes nothing; success needs a stored "modify" grant, a completed (or unneeded) backup and a completed write, and then the file holds the dumped merge of the loaded configuration; only the target and the backup path can change; memory changes only in the two permission decisions and the modification record |
| SelfModifier.WriteConfig | src/assistant/self_modifier.py:166-187 | an unreadable configuration or a failed merge changes nothing; otherwise the dumped merge goes through modify_file, and memory changes only in the "modify" decision and the record |
| SelfModifier.ConfigPermissionKeepsGrant | src/assistant/self_modifier.py:160-164 | asking for "update_config" stores at most its own decision and leaves the "modify" grant as it was |
| SelfModifier.PermissionKeysDiffer | src/assistant/self_modifier.py:157-187 | the "update_config" grant is stored under another key than the "modify" grant the write needs |
| SelfModifier.UpdateConfigWritesUpdates | src/assistant/self_modifier.py:157-187 | a new configuration file holds the dump of the merge into an empty dict, whose keys are exactly the update's keys and which holds every update |
| SelfModifier.ModificationValues | src/assistant/self_modifier.py:224-231 | exactly the values stored under "modification_" keys are collected |
| SelfModifier.ModificationValuesAppend | src/assistant/self_modifier.py:229-231 | each entry contributes on its own, in listing order: the records of two listings in a row are the first's followed by the second's, duplicates included |
| SelfModifier.ModificationValuesOfEntry | src/assistant/self_modifier.py:229-231 | one entry contributes its value exactly when its key starts with "modification_" |
| SelfModifier.ModificationHistory | src/assistant/self_modifier.py:224-233 | a record that is no dict makes the key function raise; timestamps that are not strings make two records incomparable; otherwise the history is a permutation of the modification records, newest timestamp first, with equal timestamps in listing order |
| SelfModifier.RollbackPlan | src/assistant/self_modifier.py:235-244 | a rollback is planned only for a stored dict with a non-empty backup and a file, and uses them |
| SelfModifier.Rollback | src/assistant/self_modifier.py:235-254 | memory never changes; success exactly when a plan exists, its backup exists and the copy completes; then the file takes the backup's content and nothing else changes; a copy that cannot open changes nothing, a broken copy leaves its partial text in the file |
| SelfModifier.ModifyThenRollbackRestores | src/assistant/self_modifier.py:235-254 | rolling back a successful change to an existing file restores its old content |
| SelfModifier.NewFileCannotRollBack | src/assistant/self_modifier.py:235-254 | a change that created a file has no backup and cannot be rolled back |
| Json.Get | src/assistant/self_modifier.py:50-52 | `dict.get` returns the stored value, or the default for a missing key |
| Json.DeepUpdate | src/assistant/self_modifier.py:173-178 | the merged keys are the union; untouched keys keep their values; an update replaces a value unless both sides are dicts, which are merged recursively |
| Json.DeepUpdateSubsumes | src/assistant/self_modifier.py:173-178 | after the merge every update holds, at every depth where both sides are dicts |
| Json.DeepUpdateNoOp | src/assistant/self_modifier.py:173-178 | the merge changes nothing exactly when the configuration already holds every update |
| Json.DeepUpdateIdempotent | src/assistant/self_modifier.py:173-178 | applying the same update twice is the same as once |
| Sorting.SortDesc | src/assistant/self_modifier.py:233 | the sort is a permutation, non-increasing under a strict total order, and stable: equal keys keep their relative order |
| Installer.ScanPartsSound | scripts/install_req.py:161-173 | the collected arguments are spec tokens, extending what was collected; a package found is a non-flag token no argument contains; no package found means every later non-flag token is contained in some argument |
| Installer.ScanParts | scripts/install_req.py:161-173 | none; characterised by Installer.ScanPartsSound and Installer.ScanPartsExact |
| Installer.ScanPartsExact | scripts/install_req.py:161-173 | the scan stops at the first non-flag token that no argument collected before it contains, and that token is the package (none when no token qualifies); the arguments are exactly every flag before it, each followed by its value when that is no flag, in order |
| Installer.SpecArguments | scripts/install_req.py:159-177 | a spec not starting with "--" is the whole package with no arguments; otherwise the arguments are tokens and the package a non-flag token no argument contains, the first such token, with the arguments exactly the flags and values before it |
| Installer.InstallCommand | scripts/install_req.py:33-38 | the command is python -m pip install, the extra arguments, then the package |
| Installer.FlagValuePackageTokens | scripts/install_req.py:161-173 | "--flag value pkg" gives package pkg with arguments flag and value when neither contains pkg |
| Installer.PipUpgradeIsOneArgument | scripts/install_req.py:176-177 | the spec "pip --upgrade" reaches pip as one argument that contains a space |
| Installer.PackageInsideValueDropped | scripts/install_req.py:171-173 | a package name that occurs inside a flag's value is skipped, leaving the package empty |
| Installer.SubstringRuleDropsPackage | scripts/install_req.py:171-173 | a spec whose package name occurs in a flag value loses its package: "--index-url https://download.pytorch.org/whl/cu121 torch" (the CUDA index the summary recommends, written flag first) would install "" |
| Installer.PackageOutsideValueKept | scripts/install_req.py:161-173 | "--flag value pkg" keeps pkg when neither the flag nor the value contains it |
| Installer.BoundedPackageKept | scripts/install_req.py:161-173 | an index-url spec whose package carries a ">" version bound the URL lacks keeps its package |
| Installer.NightlyPyTorchSpecsKeepPackage | scripts/install_req.py:86-91 | each of the four nightly PyTorch package tokens the script installs is kept as the package, after an index URL without ">" |
| Installer.IntendedArgumentsSound | scripts/install_req.py:159-173 | the corrected tokenizer collects every flag, only tokens, and a non-flag package |
| Installer.IntendedArguments | scripts/install_req.py:159-173 | none; characterised by Installer.IntendedArgumentsSound and Installer.CorrectedSpecArguments |
| Installer.CorrectedSpecArguments | scripts/install_req.py:159-177 | applied to every spec, the corrected tokenizer collects every flag word, only words, and a non-flag package |
| Installer.CorrectedArgumentsAreWords | scripts/install_req.py:159-177 | with the correction, no pip argument after "install" contains whitespace, and every flag reaches pip |
| Installer.CorrectedSplitsFlagAfterPackage | scripts/install_req.py:159-177 | "pkg --flag" gives package pkg and argument --flag |
| Installer.PipUpgradeCorrected | scripts/install_req.py:176-177 | "pip --upgrade" becomes package "pip" with argument "--upgrade" |
| Installer.CorrectedKeepsPackageAfterValue | scripts/install_req.py:161-173 | "--flag value pkg" keeps pkg even when the value contains it |
| Installer.CorrectedAgreesOnPlainSpecs | scripts/install_req.py:176-177 | for a single plain package name, the correction changes nothing |
| Installer.InstallPackage | scripts/install_req.py:29-64 | success exactly on exit code 0 with no error; otherwise the stripped stderr, or stdout when that is empty, the timeout message, or the exception text |
| Installer.InstallSpec | scripts/install_req.py:159-177 | none; it composes Installer.SpecArguments, Installer.InstallCommand and Installer.InstallPackage, and Installer.InstallAllVerdicts characterises its use |
| Installer.InstallAll | scripts/install_req.py:154-184 | none; characterised by Installer.InstallAllAppends, Installer.InstallAllCounts, Installer.InstallAllVerdicts and Installer.InstallAllPartitions |
| Installer.InstallAllConcat | scripts/install_req.py:154-184 | installing two lists one after the other gives the outcome of installing their concatenation |
| Wrappers.Firsts | scripts/install_req.py:244 | one name per failed attempt, each the spec of the failure at the same position (the `pkg for pkg, _ in failed_installs` walk) |
| Installer.InstallAllAppends | scripts/install_req.py:154-184 | each spec adds exactly one entry, and earlier entries are kept as prefixes |
| Installer.InstallAllCounts | scripts/install_req.py:154-184 | successes plus failures are, as a multiset, the earlier ones plus the specs |
| Installer.InstallAllVerdicts | scripts/install_req.py:154-184 | every new success installed, and every new failure failed and carries its own error |
| Installer.InstallAllPartitions | scripts/install_req.py:154-184 | each spec lands in the successes exactly when it installs, and otherwise in the failures with its error |
| Installer.InstallCategories | scripts/install_req.py:187-193 | the categories add one entry per spec |
| Installer.InstallCategoriesFlat | scripts/install_req.py:187-193 | the categories' outcome is install_package_list over all their specs, category by category, in order |
| Installer.CategoriesRecorded | scripts/install_req.py:187-193 | the names recorded are exactly the categories' specs, as a multiset, and each spec lands in the list its own pip run decides |
| Installer.AddBark | scripts/install_req.py:199-203 | Bark from git adds exactly one entry, "bark (from git)", to the matching list |
| Installer.BarkRecorded | scripts/install_req.py:199-203 | Bark's install adds its name to the recorded names and keeps every earlier entry |
| Installer.InstallEverything | scripts/install_req.py:187-203 | a run records one outcome per category spec plus one for Bark |
| Installer.InstallEverythingOnce | scripts/install_req.py:187-203 | the names recorded are exactly every category spec and Bark's name, as a multiset, and each spec lands in the list its own pip run decides |
| Installer.FiftySixAttempts | scripts/install_req.py:74-203 | a full run records 56 outcomes |
| Installer.EssentialFailures | scripts/install_req.py:244 | exactly the failed specs naming an essential package |
| Installer.EssentialFailuresAppend | scripts/install_req.py:244 | failures contribute on their own, in failure order, duplicates included |
| Installer.EssentialFailuresOfOne | scripts/install_req.py:244 | one failure contributes its spec exactly when the spec names an essential package |
| Installer.Summarize | scripts/install_req.py:207-252 | the successes counted are the successful installs; the total counts all outcomes; "many failed" is more than 30%; success means no failure; each hint fires exactly when a failed spec mentions its package |
| Installer.SummaryConsistent | scripts/install_req.py:207-252 | a clean run raises no warning, no essential failure and none of the PyAudio, NVIDIA or PyTorch hints |

## Left out

- Threads, PyAudio streams, the voice-activity detector, Whisper, `subprocess`, `urllib`, `base64`, the HTTP calls to the language model and FastAPI itself are foreign calls. Their outcomes are parameters of the operations.
- The HTML and JavaScript of the index page are not modelled. Only the voice menu's option values and groups are.
- `/transcribe`, the wake-word endpoints and `/errors` only forward to modelled operations or to the error logger. They are not modelled.
- The prompt sent to the language model and its JSON decoding are not modelled. The model reply is a datatype: text, connection failure, invalid JSON, other failure.
- `SelfModifier.install_skill` is not modelled: it writes a generated module and registers it, a composition of `modify_file` and a memory write.
- Each `shutil.copy2` and each `open(..., 'w')` with its `write` ends in one of three ways, a parameter: completed, failed to open (nothing changes), or broken off after truncating (the partial text stays). The read in `add_to_file` and `update_config` is modelled as always succeeding; a file that vanishes between the check and the read is not modelled.
- The memory store of memory_manager.py is an abstract map from key to JSON value. Its own write failures are not modelled.
- Python's `hash()`, the clock and timestamps are parameters.
- `pathlib` joins are plain string concatenation with "/". No normalisation of ".." or "." is modelled.
- JSON key order and floating-point numbers are not modelled. Numbers are integers.
- The installer's sleeps, colours and printing are left out, as is the success-rate percentage, a floating-point display value.
- Text.Lower: lowers ASCII letters only. Python's `lower()` also folds other scripts, which none of the core's constants use.
- AssistantLogic.TopKeywords, AssistantLogic.RankedKeys, AssistantLogic.ExtractKeywords and AssistantLogic.ExtractKeywordsAsWritten: ties between equally frequent keywords keep their first appearance, as the stable `sorted` does, but the contracts do not state that order.
- AssistantLogic.Analyze: the averages are exact rationals rather than Python floats.
- Installer.Summarize: the test `len(failed) > total * 0.3` is stated exactly as 10·failed > 3·total. Float rounding of 0.3 is not modelled.
- WebAssistant.HealthCheck: the "degraded" answer (web_voice_assistant.py:827-833) is not modelled, since every value the healthy answer reads is a modelled constant that cannot raise.
- WebAssistant.TitleWord: `str.title()` is modelled on single words only (the engine names); letters outside ASCII keep their case.
- WakeWord.Window: its contract fixes the length only; which chunks are kept (the newest, in order) is stated by WindowIsSuffix, outside the function, because every loop proof unfolds the function.
- WebAssistant.VoiceMenu: its contract states which groups appear; their order and the order of their options are stated by VoiceMenuAppend and VoiceMenuOfBucket.
- AssistantLogic.KeptLines: its contract states what every kept line looks like; which lines are kept, in which order, is stated by KeptLinesAppend and KeptLinesOfLine.
- AssistantLogic.Candidates and AssistantLogic.CandidatesAsWritten: their contracts state membership; order and counts are stated by CandidatesAppend, CandidatesOfWord, CandidatesAsWrittenAppend and CandidatesAsWrittenOfWord.
- SelfModifier.ModificationValues: its contract states membership; order and duplicates are stated by ModificationValuesAppend and ModificationValuesOfEntry.
- Installer.EssentialFailures: its contract states membership; order and duplicates are stated by EssentialFailuresAppend and EssentialFailuresOfOne.
- Installer.ScanPartsSound: states soundness only; ScanPartsExact states that the package is the first qualifying token and that the arguments are exactly the flags and values before it.
- Installer.InstallCategories: its contract states the count; InstallCategoriesFlat states that the outcome is that of installing all the specs in order.
- Installer.InstallEverything: its contract states the count; InstallEverythingOnce states which names are recorded and in which list.
- Installer.SubstringRuleDropsPackage: proved for a hypothetical spec built from the recommended index URL, flag first; the script installs no such spec. That the concrete URL is a single whitespace-free word is not proved; the general CorrectedKeepsPackageAfterValue covers the corrected behaviour.
- Installer.NightlyPyTorchSpecsKeepPackage: takes the index URL as a parameter without ">" and without a leading "--". That the script's nightly URL has neither is read off the literal, not proved.
- SelfModifier.ModificationHistory: two or more records whose timestamps are all numbers sort numerically in Python; the model reports TimestampNotString for them, since JSON numbers here are integers and timestamps are written as strings.
- TtsEngines.Synthesize and TtsEngines.Speak: the temporary-file promise assumes a fresh name ending in ".wav", as `NamedTemporaryFile(suffix='.wav')` gives. A name equal to a Piper model path is not covered.
- TtsEngines.CoquiSynthesize and TtsEngines.BarkSynthesize: a failed model load is not terminal; the model stays unset (Bark sets its flag only after `preload_models` returns) and the next call loads again, as LoadedOnceRetriedAfterFailure and SpeakLoadsOnce state. Why a load fails is one parameter for both engines.
- Piper has no fallback to its default voice: an unlisted id raises (PiperDefaultAndNoFallback).
- A stopped listener can be started again (RestartAfterStop). Repeated read failures fire no callback. A full buffer is windowed, not flushed.

## Findings

| source | as written | input that shows it | evidently intended | confidence | as-written member | corrected member |
|---|---|---|---|---|---|---|
| src/assistant/wake_word_detector.py:212 | imports `whisper_model` from voice_models.py, which defines no such name, so every segment ends in the ImportError branch | any speech segment followed by silence | transcribe the segment and fire the wake callback | high, not executed | WakeWord.ImportedTranscriberNeverWakes | WakeWord.WorkingTranscriberWakes |
| src/assistant/wake_word_detector.py:211-224 | the temporary WAV is unlinked only after a transcription that returned | a transcriber that raises | remove the file in a `finally` | medium, not executed | WakeWord.RaisingTranscriberLeaksTempFile | WakeWord.ProcessSegmentCleaned |
| src/assistant/assistant_logic.py:207 | the length and stop-word tests look at the word before punctuation is stripped | "should," yields the stop word "should"; ".,.,.,." yields the empty keyword | test the stripped word | high, not executed | AssistantLogic.AsWrittenKeepsStopWords | AssistantLogic.ExtractKeywords |
| src/assistant/self_modifier.py:96-97 | the modifiable gate is substring containment on the joined path | "docs/../main.py" passes because it contains "docs/" | allow only listed files and files below listed directories, without ".." | high, not executed | SelfModifier.TraversalPassesGate | SelfModifier.SafeModifiableNarrows |
| scripts/install_req.py:176-177 | a spec not starting with "--" is passed to pip as one argument | "pip --upgrade" reaches pip as the single argument "pip --upgrade" | split it into package "pip" and flag "--upgrade" | high, not executed | Installer.PipUpgradeIsOneArgument | Installer.PipUpgradeCorrected |
| scripts/install_req.py:171-173 | a token contained in any collected argument is skipped as a package | a spec whose package name occurs in a flag value, such as "--index-url https://download.pytorch.org/whl/cu121 torch", installs package ""; the script's own nightly specs are not affected | the first non-flag token after the flag values is the package | medium, not executed | Installer.SubstringRuleDropsPackage | Installer.CorrectedKeepsPackageAfterValue |
