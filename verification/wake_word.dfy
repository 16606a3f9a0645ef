/**
 * The wake-word listener (`WakeWordDetector`): construction, wake-phrase matching, the
 * start/stop/permission flags, the capture loop as a fold over chunk decisions, and the
 * processing of a flushed speech segment.
 *
 * Audio devices, the background thread and its sleeps are not modelled: the loop is a
 * function of the sequence of inputs it performs, `stop` is the flag it clears, and the
 * microphone, the voice-activity classifier and the transcriber are inputs.
 */
module WakeWord {
  import opened Wrappers
  import opened Text

  type Byte = bv8

  /** One raw PCM input. */
  datatype Chunk = Chunk(bytes: seq<Byte>)

  const DefaultWakeWords: seq<string> := ["hey assistant", "voice assistant"]
  const DefaultSampleRate: int := 16000
  const DefaultChunkDurationMs: int := 30

  /** The most chunks the loop keeps buffered (about 1.5 s of 30 ms chunks). */
  const MaxBufferedChunks: nat := 50

  // ---------------------------------------------------------------------------
  // Construction and matching
  // ---------------------------------------------------------------------------

  /** Python `int(n / d)` for integers and `d > 0`: the quotient truncated toward zero. */
  function TruncDiv(n: int, d: int): (q: int)
    requires d > 0
    ensures n >= 0 ==> 0 <= q && q * d <= n < q * d + d
    ensures n < 0 ==> q <= 0 && q * d - d < n <= q * d
  {
    if n >= 0 then n / d else -((-n) / d)
  }

  datatype Detector = Detector(
    wakeWords: seq<string>,
    sampleRate: int,
    chunkDurationMs: int,
    chunkSize: int,
    isListening: bool,
    permissionGranted: bool)

  /** `WakeWordDetector.__init__`: wake words lowercased, the chunk size in frames, both
      flags clear. */
  function NewDetector(wakeWords: seq<string>, sampleRate: int, chunkDurationMs: int): (d: Detector)
    ensures |d.wakeWords| == |wakeWords|
    ensures forall i :: 0 <= i < |wakeWords| ==> d.wakeWords[i] == Lower(wakeWords[i])
    ensures sampleRate * chunkDurationMs >= 0 ==> d.chunkSize * 1000 <= sampleRate * chunkDurationMs < d.chunkSize * 1000 + 1000
    ensures !d.isListening && !d.permissionGranted
  {
    Detector(
      seq(|wakeWords|, i requires 0 <= i < |wakeWords| => Lower(wakeWords[i])),
      sampleRate, chunkDurationMs, TruncDiv(sampleRate * chunkDurationMs, 1000), false, false)
  }

  /** With the default 16 kHz rate and 30 ms chunks, a chunk is 480 frames. */
  lemma DefaultChunkSize()
    ensures NewDetector(DefaultWakeWords, DefaultSampleRate, DefaultChunkDurationMs).chunkSize == 480
  {
  }

  /** `_contains_wake_word`: some stored wake word occurs in the lowercased text. */
  function ContainsWakeWord(wakeWords: seq<string>, text: string): (r: bool)
    ensures r <==> exists i :: 0 <= i < |wakeWords| && Occurs(Lower(text), wakeWords[i])
    decreases |wakeWords|
  {
    if wakeWords == [] then false
    else if Contains(Lower(text), wakeWords[0]) then true
    else
      var r := ContainsWakeWord(wakeWords[1..], text);
      assert forall i :: 1 <= i < |wakeWords| ==> wakeWords[i] == wakeWords[1..][i - 1];
      r
  }

  /** Matching a detector's stored words is case-insensitive on both sides: a text matches
      iff some configured word, lowercased, is a substring of the lowercased text. */
  lemma MatchIsCaseInsensitive(wakeWords: seq<string>, sampleRate: int, chunkDurationMs: int, text: string)
    ensures ContainsWakeWord(NewDetector(wakeWords, sampleRate, chunkDurationMs).wakeWords, text) <==>
      exists i :: 0 <= i < |wakeWords| && Contains(Lower(text), Lower(wakeWords[i]))
  {
  }

  /** "please say Hey Assistant now" wakes the default detector; "hey there" does not. */
  lemma WakeWordExamples()
    ensures ContainsWakeWord(NewDetector(DefaultWakeWords, DefaultSampleRate, DefaultChunkDurationMs).wakeWords, "please say Hey Assistant now")
    ensures !ContainsWakeWord(NewDetector(DefaultWakeWords, DefaultSampleRate, DefaultChunkDurationMs).wakeWords, "hey there")
  {
    var d := NewDetector(DefaultWakeWords, DefaultSampleRate, DefaultChunkDurationMs);
    var t := Lower("please say Hey Assistant now");
    assert d.wakeWords[0] == "hey assistant";
    assert t[11..24] == "hey assistant";
    assert OccursAt(t, d.wakeWords[0], 11);
  }

  // ---------------------------------------------------------------------------
  // Permission, start and stop
  // ---------------------------------------------------------------------------

  /** The flags never claim listening without a granted permission. */
  ghost predicate FlagsConsistent(d: Detector) {
    d.isListening ==> d.permissionGranted
  }

  /** `request_microphone_permission`, given whether the test stream opens and inputs. The
      second component says whether the permission-error callback fires. */
  function RequestPermission(d: Detector, micWorks: bool): (r: (Detector, bool))
    ensures r.0.permissionGranted == micWorks
    ensures r.1 == !micWorks
    ensures r.0 == d.(permissionGranted := micWorks)
  {
    (d.(permissionGranted := micWorks), !micWorks)
  }

  datatype StartOutcome = StartOutcome(detector: Detector, ok: bool, openedStream: bool, permissionError: bool)

  /** `start_continuous_listening`, given whether the microphone test succeeds and whether
      opening the persistent stream succeeds. */
  function Start(d: Detector, micWorks: bool, streamOpens: bool): (r: StartOutcome)
    requires FlagsConsistent(d)
    ensures FlagsConsistent(r.detector)
    ensures !d.permissionGranted && !micWorks ==> !r.ok && !r.openedStream && !r.detector.isListening && r.permissionError
    ensures d.isListening ==> r.ok && !r.openedStream && r.detector == d
    ensures r.openedStream <==> !d.isListening && (d.permissionGranted || micWorks) && streamOpens
    ensures r.ok <==> d.isListening || ((d.permissionGranted || micWorks) && streamOpens)
    ensures r.detector.isListening <==> r.ok
    ensures r.detector.wakeWords == d.wakeWords && r.detector.chunkSize == d.chunkSize
  {
    var (d1, permissionError) := if d.permissionGranted then (d, false) else RequestPermission(d, micWorks);
    if !d1.permissionGranted then StartOutcome(d1, false, false, permissionError)
    else if d1.isListening then StartOutcome(d1, true, false, permissionError)
    else if streamOpens then StartOutcome(d1.(isListening := true), true, true, permissionError)
    else StartOutcome(d1, false, false, permissionError)
  }

  /** `stop_continuous_listening`: the listening flag is cleared first, so stream-close
      errors (logged by the source) cannot leave it set; nothing else changes. */
  function Stop(d: Detector): (r: Detector)
    ensures !r.isListening
    ensures r.permissionGranted == d.permissionGranted && r.wakeWords == d.wakeWords && r.chunkSize == d.chunkSize
    ensures FlagsConsistent(r)
  {
    d.(isListening := false)
  }

  /** A stopped detector can be started again: stopping is not terminal. */
  lemma RestartAfterStop(d: Detector)
    requires FlagsConsistent(d) && d.permissionGranted
    ensures Start(Stop(d), false, true).ok && Start(Stop(d), false, true).openedStream
  {
  }

  // ---------------------------------------------------------------------------
  // The capture loop
  // ---------------------------------------------------------------------------

  /** What `_is_speech` learns about a chunk; an exception inside the classifier inputs as
      `Raised`. */
  datatype Vad = Voiced | Unvoiced | Raised

  /** `_is_speech`: only a successful "speech" verdict counts; an exception means silence. */
  function IsSpeech(v: Vad): (r: bool)
    ensures v == Raised ==> !r
    ensures v == Unvoiced ==> !r
    ensures v == Voiced ==> r
  {
    v == Voiced
  }

  /** One iteration's input: a chunk with its classification, or a input that raised (the
      source logs it, sleeps and retries). */
  datatype Read = Heard(chunk: Chunk, vad: Vad) | ReadFailed

  datatype LoopState = LoopState(buffer: seq<Chunk>, speechDetected: bool)

  /** What one iteration emits: the speech-activity callback, or a segment handed to
      `_process_speech_buffer`. */
  datatype Event = SpeechActivity | Flushed(segment: seq<Chunk>)

  const Initial: LoopState := LoopState([], false)

  /** The state the loop keeps at the top of every iteration. */
  ghost predicate LoopInv(s: LoopState) {
    && (s.speechDetected <==> |s.buffer| > 0)
    && |s.buffer| <= MaxBufferedChunks
  }

  /** The last `MaxBufferedChunks` chunks of `b` (`b[-50:]` when longer). */
  function Window(b: seq<Chunk>): (w: seq<Chunk>)
    ensures |w| <= MaxBufferedChunks
    ensures |w| == if |b| > MaxBufferedChunks then MaxBufferedChunks else |b|
  {
    if |b| > MaxBufferedChunks then b[|b| - MaxBufferedChunks..] else b
  }

  /** The window is the buffer's tail: the oldest chunks are the ones dropped. */
  lemma WindowIsSuffix(b: seq<Chunk>)
    ensures b == b[..|b| - |Window(b)|] + Window(b)
    ensures forall k :: 0 <= k < |Window(b)| ==> Window(b)[k] == b[|b| - |Window(b)| + k]
  {
  }

  /** One iteration of `_listen_loop`. A failed read skips the trim as well. */
  function Step(s: LoopState, input: Read): (r: (LoopState, seq<Event>))
    ensures LoopInv(s) ==> LoopInv(r.0)
  {
    match input
    case ReadFailed => (s, [])
    case Heard(c, v) =>
      // The trim after the branch is written into each arm; it leaves an empty buffer empty.
      if IsSpeech(v) then (LoopState(Window(s.buffer + [c]), true), [SpeechActivity])
      else if s.speechDetected && |s.buffer| > 0 then (Initial, [Flushed(s.buffer)])
      else (s.(buffer := Window(s.buffer)), [])
  }

  /** What one iteration does: a speech chunk fires the activity callback and joins the
      window; the first silent chunk after speech hands the buffer over and empties it; any
      other input emits nothing and changes nothing but the trim. */
  lemma StepCases(s: LoopState, input: Read)
    ensures input.Heard? ==> |Step(s, input).0.buffer| <= MaxBufferedChunks
    ensures input.Heard? && IsSpeech(input.vad) ==>
      Step(s, input) == (LoopState(Window(s.buffer + [input.chunk]), true), [SpeechActivity])
    ensures input.Heard? && !IsSpeech(input.vad) && s.speechDetected && |s.buffer| > 0 ==>
      Step(s, input) == (Initial, [Flushed(s.buffer)])
    ensures input.Heard? && !IsSpeech(input.vad) && !(s.speechDetected && |s.buffer| > 0) ==>
      Step(s, input) == (s.(buffer := Window(s.buffer)), [])
    ensures input.ReadFailed? ==> Step(s, input) == (s, [])
  {
  }

  /** `_listen_loop` over the inputs it performs before `stop` clears the flag: the final
      state and every event, in order. */
  function Listen(s: LoopState, inputs: seq<Read>): (r: (LoopState, seq<Event>))
    ensures LoopInv(s) ==> LoopInv(r.0)
    decreases |inputs|
  {
    if inputs == [] then (s, [])
    else
      var first := Step(s, inputs[0]);
      var rest := Listen(first.0, inputs[1..]);
      (rest.0, first.1 + rest.1)
  }

  /** Unfolds one iteration of `Listen`. */
  lemma ListenCons(s: LoopState, inputs: seq<Read>)
    requires inputs != []
    ensures Listen(s, inputs).0 == Listen(Step(s, inputs[0]).0, inputs[1..]).0
    ensures Listen(s, inputs).1 == Step(s, inputs[0]).1 + Listen(Step(s, inputs[0]).0, inputs[1..]).1
  {
  }

  function FlushCount(events: seq<Event>): nat {
    if events == [] then 0 else (if events[0].Flushed? then 1 else 0) + FlushCount(events[1..])
  }

  lemma {:induction false} FlushCountAppend(a: seq<Event>, b: seq<Event>)
    ensures FlushCount(a + b) == FlushCount(a) + FlushCount(b)
    decreases |a|
  {
    if a == [] {
      assert a + b == b;
    } else {
      assert (a + b)[1..] == a[1..] + b;
      FlushCountAppend(a[1..], b);
    }
  }

  /** No input is classified as speech. */
  ghost predicate AllSilent(inputs: seq<Read>) {
    forall i :: 0 <= i < |inputs| ==> inputs[i].ReadFailed? || !IsSpeech(inputs[i].vad)
  }

  /** From an idle loop, silence never flushes: no event at all, and the loop stays idle. */
  lemma {:induction false} SilenceNeverFlushes(inputs: seq<Read>)
    requires AllSilent(inputs)
    ensures Listen(Initial, inputs) == (Initial, [])
    decreases |inputs|
  {
    if inputs != [] {
      StepCases(Initial, inputs[0]);
      assert Step(Initial, inputs[0]) == (Initial, []);
      SilenceNeverFlushes(inputs[1..]);
      ListenCons(Initial, inputs);
      assert [] + Listen(Initial, inputs[1..]).1 == [];
    }
  }

  function SpeechReads(cs: seq<Chunk>): (inputs: seq<Read>)
    ensures |inputs| == |cs|
    ensures forall i :: 0 <= i < |cs| ==> inputs[i] == Heard(cs[i], Voiced)
  {
    seq(|cs|, i requires 0 <= i < |cs| => Heard(cs[i], Voiced))
  }

  function Repeat(e: Event, n: nat): (r: seq<Event>)
    ensures |r| == n && forall i :: 0 <= i < n ==> r[i] == e
  {
    seq(n, _ => e)
  }

  lemma RepeatCons(e: Event, n: nat)
    requires n > 0
    ensures [e] + Repeat(e, n - 1) == Repeat(e, n)
  {
  }

  /** A speech chunk, heard while the window holds the tail of `seen`, extends it. */
  lemma SpeechStep(seen: seq<Chunk>, c: Chunk)
    ensures Step(LoopState(Window(seen), true), Heard(c, Voiced)) ==
      (LoopState(Window(seen + [c]), true), [SpeechActivity])
  {
    StepCases(LoopState(Window(seen), true), Heard(c, Voiced));
    WindowExtend(seen, c);
  }

  /** A run of speech chunks from an idle loop fires one activity event per chunk and
      leaves exactly the most recent `MaxBufferedChunks` of them buffered, in order. */
  lemma SpeechRunBuffersWindow(cs: seq<Chunk>)
    requires |cs| > 0
    ensures Listen(Initial, SpeechReads(cs)) == (LoopState(Window(cs), true), Repeat(SpeechActivity, |cs|))
    ensures |cs| <= MaxBufferedChunks ==> Listen(Initial, SpeechReads(cs)).0.buffer == cs
    ensures |cs| > MaxBufferedChunks ==> Listen(Initial, SpeechReads(cs)).0.buffer == cs[|cs| - MaxBufferedChunks..]
  {
    assert Step(Initial, SpeechReads(cs)[0]) == (LoopState(Window([cs[0]]), true), [SpeechActivity]) by {
      assert SpeechReads(cs)[0] == Heard(cs[0], Voiced);
      assert Initial.buffer + [cs[0]] == [cs[0]];
      StepCases(Initial, SpeechReads(cs)[0]);
    }
    ListenCons(Initial, SpeechReads(cs));
    assert SpeechReads(cs)[1..] == SpeechReads(cs[1..]);
    SpeechRunFrom([cs[0]], cs[1..]);
    assert [cs[0]] + cs[1..] == cs;
    RepeatCons(SpeechActivity, |cs|);
  }

  lemma WindowExtend(seen: seq<Chunk>, c: Chunk)
    ensures Window(Window(seen) + [c]) == Window(seen + [c])
  {
    var w := Window(seen);
    if |seen| > MaxBufferedChunks {
      assert (w + [c])[1..] == (seen + [c])[|seen| + 1 - MaxBufferedChunks..];
    }
  }

  /** Continuing a speech run: the window slides over everything heard so far. */
  lemma {:induction false} SpeechRunFrom(seen: seq<Chunk>, cs: seq<Chunk>)
    ensures Listen(LoopState(Window(seen), true), SpeechReads(cs)) ==
      (LoopState(Window(seen + cs), true), Repeat(SpeechActivity, |cs|))
    decreases |cs|
  {
    if cs == [] {
      assert seen + cs == seen;
      assert SpeechReads(cs) == [];
      assert Repeat(SpeechActivity, 0) == [];
    } else {
      SpeechRunFrom(seen + [cs[0]], cs[1..]);
      assert seen + [cs[0]] + cs[1..] == seen + cs;
      SpeechRunCons(seen, cs);
    }
  }

  /** The inductive step of `SpeechRunFrom`: the first chunk's activity event, then the rest
      of the run from the extended window. */
  lemma SpeechRunCons(seen: seq<Chunk>, cs: seq<Chunk>)
    requires cs != []
    requires Listen(LoopState(Window(seen + [cs[0]]), true), SpeechReads(cs[1..])) ==
      (LoopState(Window(seen + cs), true), Repeat(SpeechActivity, |cs| - 1))
    ensures Listen(LoopState(Window(seen), true), SpeechReads(cs)) ==
      (LoopState(Window(seen + cs), true), Repeat(SpeechActivity, |cs|))
  {
    var s := LoopState(Window(seen), true);
    var rest := Listen(LoopState(Window(seen + [cs[0]]), true), SpeechReads(cs[1..]));
    assert Listen(s, SpeechReads(cs)).0 == rest.0 && Listen(s, SpeechReads(cs)).1 == [SpeechActivity] + rest.1 by {
      assert SpeechReads(cs)[0] == Heard(cs[0], Voiced);
      assert SpeechReads(cs)[1..] == SpeechReads(cs[1..]);
      SpeechStep(seen, cs[0]);
      ListenCons(s, SpeechReads(cs));
    }
    RepeatCons(SpeechActivity, |cs|);
  }

  /** One contiguous run of at most `MaxBufferedChunks` speech chunks followed by a silent
      chunk is flushed exactly once, with exactly the run's chunks in arrival order, and the
      loop returns to idle. */
  lemma SpeechRunFlushedOnce(cs: seq<Chunk>, quiet: Chunk)
    requires 0 < |cs| <= MaxBufferedChunks
    ensures Listen(Initial, SpeechReads(cs) + [Heard(quiet, Unvoiced)]) ==
      (Initial, Repeat(SpeechActivity, |cs|) + [Flushed(cs)])
    ensures FlushCount(Listen(Initial, SpeechReads(cs) + [Heard(quiet, Unvoiced)]).1) == 1
  {
    var tail := [Heard(quiet, Unvoiced)];
    SpeechRunBuffersWindow(cs);
    ListenAppend(Initial, SpeechReads(cs), tail);
    assert Listen(LoopState(cs, true), tail) == (Initial, [Flushed(cs)]) by {
      assert Step(LoopState(cs, true), tail[0]) == (Initial, [Flushed(cs)]) by {
        StepCases(LoopState(cs, true), tail[0]);
      }
      ListenCons(LoopState(cs, true), tail);
      assert tail[1..] == [];
      assert [Flushed(cs)] + [] == [Flushed(cs)];
    }
    FlushCountAppend(Repeat(SpeechActivity, |cs|), [Flushed(cs)]);
    RepeatActivityNoFlush(|cs|);
  }

  lemma {:induction false} RepeatActivityNoFlush(n: nat)
    ensures FlushCount(Repeat(SpeechActivity, n)) == 0
  {
    if n > 0 {
      assert Repeat(SpeechActivity, n)[1..] == Repeat(SpeechActivity, n - 1);
      RepeatActivityNoFlush(n - 1);
    }
  }

  /** Running the loop over two batches of inputs is running it over their concatenation. */
  lemma {:induction false} ListenAppend(s: LoopState, a: seq<Read>, b: seq<Read>)
    ensures Listen(s, a + b).0 == Listen(Listen(s, a).0, b).0
    ensures Listen(s, a + b).1 == Listen(s, a).1 + Listen(Listen(s, a).0, b).1
    decreases |a|
  {
    if a == [] {
      assert a + b == b;
    } else {
      var s1 := Step(s, a[0]).0;
      assert (a + b)[0] == a[0] && (a + b)[1..] == a[1..] + b;
      ListenCons(s, a + b);
      ListenCons(s, a);
      ListenAppend(s1, a[1..], b);
      assert Step(s, a[0]).1 + (Listen(s1, a[1..]).1 + Listen(Listen(s1, a[1..]).0, b).1)
        == (Step(s, a[0]).1 + Listen(s1, a[1..]).1) + Listen(Listen(s1, a[1..]).0, b).1;
    }
  }

  /** Every flushed segment from a consistent loop is non-empty and within the bound. */
  lemma FirstStepFlushBounded(s: LoopState, input: Read)
    requires LoopInv(s)
    ensures forall e | e in Step(s, input).1 && e.Flushed? :: 0 < |e.segment| <= MaxBufferedChunks
  {
    var events := Step(s, input).1;
    if input.Heard? && !IsSpeech(input.vad) && s.speechDetected && |s.buffer| > 0 {
      assert events == [Flushed(s.buffer)];
    } else {
      assert forall e | e in events :: !e.Flushed?;
    }
  }

  lemma {:induction false} FlushedSegmentsBounded(s: LoopState, inputs: seq<Read>)
    requires LoopInv(s)
    ensures forall e | e in Listen(s, inputs).1 && e.Flushed? :: 0 < |e.segment| <= MaxBufferedChunks
    decreases |inputs|
  {
    if inputs != [] {
      var first := Step(s, inputs[0]);
      ListenCons(s, inputs);
      FlushedSegmentsBounded(first.0, inputs[1..]);
      FirstStepFlushBounded(s, inputs[0]);
      var rest := Listen(first.0, inputs[1..]).1;
      forall e | e in first.1 + rest && e.Flushed?
        ensures 0 < |e.segment| <= MaxBufferedChunks
      {
        assert e in first.1 || e in rest;
      }
    }
  }

  // ---------------------------------------------------------------------------
  // Processing a flushed segment
  // ---------------------------------------------------------------------------

  /** The transcription model, as a table from a flushed segment (whose chunks the source
      joins into one WAV payload) to the transcript; audio outside the table makes the call
      raise. */
  type Transcribe = map<seq<Chunk>, string>

  /** What the transcription step of `_process_speech_buffer` comes to: the `whisper_model`
      import fails (ImportError, caught and logged), the transcriber raises, or it returns a
      text, which is stripped. */
  datatype Transcript = NoModel | TranscriberRaised | Transcribed(text: string)

  function TranscriptOf(segment: seq<Chunk>, transcriber: Option<Transcribe>): Transcript {
    match transcriber
    case None => NoModel
    case Some(table) => if segment in table then Transcribed(Strip(table[segment])) else TranscriberRaised
  }

  /** The text handed to the wake callback, if it fires. */
  function WakeFor(wakeWords: seq<string>, t: Transcript): Option<string> {
    if t.Transcribed? && ContainsWakeWord(wakeWords, t.text) then Some(t.text) else None
  }

  /** The outcome of `_process_speech_buffer`: the text passed to the wake callback, if it
      fires, and the files that exist afterwards. */
  datatype Processed = Processed(wake: Option<string>, fs: set<string>)

  /** `_process_speech_buffer` as written, with `tmp` the name `NamedTemporaryFile` picks: the
      segment is written to `tmp`, transcribed, and `tmp` unlinked after the transcription. An
      exception from the transcriber propagates past the `unlink` to the outer handler, which
      only logs it. */
  function ProcessSegment(wakeWords: seq<string>, segment: seq<Chunk>, transcriber: Option<Transcribe>,
                          fs: set<string>, tmp: string): (r: Processed)
    ensures r.wake.Some? <==>
      && transcriber.Some?
      && segment in transcriber.value
      && ContainsWakeWord(wakeWords, Strip(transcriber.value[segment]))
    ensures r.wake.Some? ==> r.wake.value == Strip(transcriber.value[segment])
    ensures tmp in r.fs <==> transcriber.Some? && segment !in transcriber.value
    ensures r.fs - {tmp} == fs - {tmp}
  {
    var written := fs + {tmp};
    var t := TranscriptOf(segment, transcriber);
    if t.TranscriberRaised? then Processed(None, written)
    else Processed(WakeFor(wakeWords, t), written - {tmp})
  }

  /** A transcriber that raises leaves the temporary WAV file behind: the `unlink` sits after
      the transcription inside the same `try`, so the files afterwards are not those before. */
  lemma RaisingTranscriberLeaksTempFile(wakeWords: seq<string>, segment: seq<Chunk>, fs: set<string>, tmp: string)
    requires tmp !in fs
    ensures ProcessSegment(wakeWords, segment, Some(map[]), fs, tmp).fs == fs + {tmp}
    ensures ProcessSegment(wakeWords, segment, Some(map[]), fs, tmp).fs != fs
  {
    assert tmp in fs + {tmp};
  }

  /** `_process_speech_buffer` with the `unlink` moved into a `finally`: the same callback
      decision, and on every path, a raising transcriber included, the files afterwards are
      exactly those before. */
  function ProcessSegmentCleaned(wakeWords: seq<string>, segment: seq<Chunk>, transcriber: Option<Transcribe>,
                                 fs: set<string>, tmp: string): (r: Processed)
    ensures r.wake.Some? <==>
      && transcriber.Some?
      && segment in transcriber.value
      && ContainsWakeWord(wakeWords, Strip(transcriber.value[segment]))
    ensures r.wake.Some? ==> r.wake.value == Strip(transcriber.value[segment])
    ensures tmp !in r.fs
    ensures tmp !in fs ==> r.fs == fs
  {
    var written := fs + {tmp};
    var wake := WakeFor(wakeWords, TranscriptOf(segment, transcriber));
    Processed(wake, written - {tmp})
  }

  /** The corrected processing differs from the code as written only in the leaked file. */
  lemma CleanedDiffersOnlyInTempFile(wakeWords: seq<string>, segment: seq<Chunk>, transcriber: Option<Transcribe>,
                                     fs: set<string>, tmp: string)
    ensures ProcessSegmentCleaned(wakeWords, segment, transcriber, fs, tmp).wake
         == ProcessSegment(wakeWords, segment, transcriber, fs, tmp).wake
    ensures ProcessSegmentCleaned(wakeWords, segment, transcriber, fs, tmp).fs
         == ProcessSegment(wakeWords, segment, transcriber, fs, tmp).fs - {tmp}
  {
  }

  /** One flushed segment, processed as written or, when `cleaned`, with the `finally`. */
  function ProcessOne(cleaned: bool, wakeWords: seq<string>, segment: seq<Chunk>, transcriber: Option<Transcribe>,
                      fs: set<string>, tmp: string): Processed
  {
    if cleaned then ProcessSegmentCleaned(wakeWords, segment, transcriber, fs, tmp)
    else ProcessSegment(wakeWords, segment, transcriber, fs, tmp)
  }

  /** A whole run's flushed segments processed in order, the `k`-th event's temporary file
      named `tmps[k]`: the wake-callback texts, in order, and the files left at the end. */
  function ProcessRun(cleaned: bool, wakeWords: seq<string>, events: seq<Event>, transcriber: Option<Transcribe>,
                      fs: set<string>, tmps: seq<string>): (r: (seq<string>, set<string>))
    requires |tmps| == |events|
    ensures |r.0| <= FlushCount(events)
    decreases |events|
  {
    if events == [] then ([], fs)
    else
      var here := if events[0].Flushed? then ProcessOne(cleaned, wakeWords, events[0].segment, transcriber, fs, tmps[0])
                  else Processed(None, fs);
      var rest := ProcessRun(cleaned, wakeWords, events[1..], transcriber, here.fs, tmps[1..]);
      ((if here.wake.Some? then [here.wake.value] else []) + rest.0, rest.1)
  }

  /** Unfolds one event of `ProcessRun`. */
  lemma ProcessRunCons(cleaned: bool, wakeWords: seq<string>, events: seq<Event>, transcriber: Option<Transcribe>,
                       fs: set<string>, tmps: seq<string>)
    requires |tmps| == |events| && events != []
    ensures var here := if events[0].Flushed? then ProcessOne(cleaned, wakeWords, events[0].segment, transcriber, fs, tmps[0])
                        else Processed(None, fs);
            var rest := ProcessRun(cleaned, wakeWords, events[1..], transcriber, here.fs, tmps[1..]);
            ProcessRun(cleaned, wakeWords, events, transcriber, fs, tmps)
              == ((if here.wake.Some? then [here.wake.value] else []) + rest.0, rest.1)
  {
  }

  /** With the `finally`, a run whose temporary names are all new leaves the files as it
      found them, whatever the transcriber does. */
  lemma {:induction false} CleanedRunKeepsFiles(wakeWords: seq<string>, events: seq<Event>, transcriber: Option<Transcribe>,
                                                fs: set<string>, tmps: seq<string>)
    requires |tmps| == |events|
    requires forall k :: 0 <= k < |tmps| ==> tmps[k] !in fs
    ensures ProcessRun(true, wakeWords, events, transcriber, fs, tmps).1 == fs
    decreases |events|
  {
    if events != [] {
      ProcessRunCons(true, wakeWords, events, transcriber, fs, tmps);
      CleanedRunKeepsFiles(wakeWords, events[1..], transcriber, fs, tmps[1..]);
    }
  }

  /** As written, a transcriber that raises on everything leaves one temporary file behind per
      flushed segment, and removes nothing. */
  lemma {:induction false} RaisingRunLeaksEveryFile(wakeWords: seq<string>, events: seq<Event>,
                                                    fs: set<string>, tmps: seq<string>)
    requires |tmps| == |events|
    ensures fs <= ProcessRun(false, wakeWords, events, Some(map[]), fs, tmps).1
    ensures forall k :: 0 <= k < |events| && events[k].Flushed? ==>
              tmps[k] in ProcessRun(false, wakeWords, events, Some(map[]), fs, tmps).1
    decreases |events|
  {
    if events != [] {
      var t: Option<Transcribe> := Some(map[]);
      ProcessRunCons(false, wakeWords, events, t, fs, tmps);
      var fs1 := if events[0].Flushed? then fs + {tmps[0]} else fs;
      assert events[0].Flushed? ==> ProcessOne(false, wakeWords, events[0].segment, t, fs, tmps[0]).fs == fs1;
      RaisingRunLeaksEveryFile(wakeWords, events[1..], fs1, tmps[1..]);
      var end := ProcessRun(false, wakeWords, events, t, fs, tmps).1;
      forall k | 0 <= k < |events| && events[k].Flushed?
        ensures tmps[k] in end
      {
        if k > 0 {
          assert events[1..][k - 1] == events[k] && tmps[1..][k - 1] == tmps[k];
        }
      }
    }
  }

  /** Both versions hand the same texts to the wake callback, whatever files exist. */
  lemma {:induction false} RunsAgreeOnWakes(wakeWords: seq<string>, events: seq<Event>, transcriber: Option<Transcribe>,
                                            fs1: set<string>, fs2: set<string>, tmps: seq<string>)
    requires |tmps| == |events|
    ensures ProcessRun(true, wakeWords, events, transcriber, fs1, tmps).0
         == ProcessRun(false, wakeWords, events, transcriber, fs2, tmps).0
    decreases |events|
  {
    if events != [] {
      ProcessRunCons(true, wakeWords, events, transcriber, fs1, tmps);
      ProcessRunCons(false, wakeWords, events, transcriber, fs2, tmps);
      if events[0].Flushed? {
        CleanedDiffersOnlyInTempFile(wakeWords, events[0].segment, transcriber, fs1, tmps[0]);
        CleanedDiffersOnlyInTempFile(wakeWords, events[0].segment, transcriber, fs2, tmps[0]);
      }
      var h1 := if events[0].Flushed? then ProcessOne(true, wakeWords, events[0].segment, transcriber, fs1, tmps[0])
                else Processed(None, fs1);
      var h2 := if events[0].Flushed? then ProcessOne(false, wakeWords, events[0].segment, transcriber, fs2, tmps[0])
                else Processed(None, fs2);
      RunsAgreeOnWakes(wakeWords, events[1..], transcriber, h1.fs, h2.fs, tmps[1..]);
    }
  }

  /** The transcriber as the source's import resolves it: `voice_models` defines no
      `whisper_model`, so the import raises ImportError on every flush. */
  const ImportedTranscriber: Option<Transcribe> := None

  /** With the transcriber the source imports, no wake callback ever fires, whatever is said. */
  lemma {:induction false} ImportedTranscriberNeverWakes(d: Detector, inputs: seq<Read>, fs: set<string>, tmps: seq<string>)
    requires |tmps| == |Listen(Initial, inputs).1|
    ensures ProcessRun(false, d.wakeWords, Listen(Initial, inputs).1, ImportedTranscriber, fs, tmps).0 == []
  {
    NoTranscriberNoWake(d.wakeWords, Listen(Initial, inputs).1, fs, tmps);
  }

  lemma {:induction false} NoTranscriberNoWake(wakeWords: seq<string>, events: seq<Event>, fs: set<string>, tmps: seq<string>)
    requires |tmps| == |events|
    ensures ProcessRun(false, wakeWords, events, None, fs, tmps).0 == []
    decreases |events|
  {
    if events != [] {
      ProcessRunCons(false, wakeWords, events, None, fs, tmps);
      var here := if events[0].Flushed? then ProcessOne(false, wakeWords, events[0].segment, None, fs, tmps[0])
                  else Processed(None, fs);
      NoTranscriberNoWake(wakeWords, events[1..], here.fs, tmps[1..]);
    }
  }

  /** With a working transcriber, a run that says the wake phrase once fires the callback
      once, with the stripped transcript. */
  lemma WorkingTranscriberWakes(d: Detector, cs: seq<Chunk>, quiet: Chunk, transcribe: Transcribe,
                                fs: set<string>, tmps: seq<string>)
    requires 0 < |cs| <= MaxBufferedChunks
    requires cs in transcribe
    requires ContainsWakeWord(d.wakeWords, Strip(transcribe[cs]))
    requires |tmps| == |cs| + 1
    ensures |Listen(Initial, SpeechReads(cs) + [Heard(quiet, Unvoiced)]).1| == |tmps|
    ensures ProcessRun(false, d.wakeWords, Listen(Initial, SpeechReads(cs) + [Heard(quiet, Unvoiced)]).1,
                       Some(transcribe), fs, tmps).0 == [Strip(transcribe[cs])]
  {
    var t := Some(transcribe);
    SpeechRunFlushedOnce(cs, quiet);
    ActivityThenFlush(d.wakeWords, |cs|, cs, t, fs, tmps);
    var p := ProcessSegment(d.wakeWords, cs, t, fs, tmps[|cs|]);
    assert p.wake == Some(Strip(transcribe[cs]));
    ProcessRunCons(false, d.wakeWords, [Flushed(cs)], t, fs, tmps[|cs|..]);
    assert [Flushed(cs)][1..] == [] && tmps[|cs|..][1..] == [];
  }

  /** Activity events hand nothing to the transcriber and create no file. */
  lemma {:induction false} ActivityThenFlush(wakeWords: seq<string>, n: nat, seg: seq<Chunk>, t: Option<Transcribe>,
                                             fs: set<string>, tmps: seq<string>)
    requires |tmps| == n + 1
    ensures ProcessRun(false, wakeWords, Repeat(SpeechActivity, n) + [Flushed(seg)], t, fs, tmps) ==
      ProcessRun(false, wakeWords, [Flushed(seg)], t, fs, tmps[n..])
    decreases n
  {
    var events := Repeat(SpeechActivity, n) + [Flushed(seg)];
    if n > 0 {
      var tail := Repeat(SpeechActivity, n - 1) + [Flushed(seg)];
      assert !events[0].Flushed?;
      assert events[1..] == tail;
      var rest := ProcessRun(false, wakeWords, tail, t, fs, tmps[1..]);
      ProcessRunCons(false, wakeWords, events, t, fs, tmps);
      assert ProcessRun(false, wakeWords, events, t, fs, tmps) == ([] + rest.0, rest.1);
      assert [] + rest.0 == rest.0;
      ActivityThenFlush(wakeWords, n - 1, seg, t, fs, tmps[1..]);
      assert tmps[1..][n - 1..] == tmps[n..];
    } else {
      assert events == [Flushed(seg)];
      assert tmps[n..] == tmps;
    }
  }
}
