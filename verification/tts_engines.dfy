/**
 * Multi-engine text-to-speech dispatch (`TTSEngineManager`, `CoquiEngine`, `BarkEngine`,
 * `PiperEngine`): the engine cache, `speak`'s error containment, each engine's choice of
 * voice, Piper's model download, and the temporary output file.
 *
 * The model backends, `urllib` downloads and the `piper` subprocess are inputs (`Env`):
 * whether each foreign step succeeds, and the exit code of the subprocess. Audio is
 * symbolic: which engine rendered which text with which speaker. The filesystem is the set
 * of existing paths; the temporary file's name is an input, fresh when the operating system
 * provides it.
 */
module TtsEngines {
  import opened Wrappers
  import opened Text
  import opened VoiceCatalog

  // ---------------------------------------------------------------------------
  // Engines and the manager
  // ---------------------------------------------------------------------------

  /** One engine object's mutable state: the lazily loaded model, or Piper's set of voices
      already fetched. */
  datatype Engine =
    | CoquiEngine(modelLoaded: bool)
    | BarkEngine(modelLoaded: bool)
    | PiperEngine(downloaded: set<string>)

  /** The name `get_engine` stores an engine of this kind under. */
  function KindName(e: Engine): (name: string)
    ensures KnownEngine(name)
  {
    match e
    case CoquiEngine(_) => Coqui
    case BarkEngine(_) => Bark
    case PiperEngine(_) => Piper
  }

  /** The engine names `get_engine` knows. */
  predicate KnownEngine(name: string) {
    name == Coqui || name == Bark || name == Piper
  }

  /** A freshly constructed engine of the named kind. */
  function NewEngine(name: string): (e: Engine)
    requires KnownEngine(name)
    ensures name == Coqui <==> e == CoquiEngine(false)
    ensures name == Bark <==> e == BarkEngine(false)
    ensures name == Piper <==> e == PiperEngine({})
    ensures KindName(e) == name
  {
    if name == Coqui then CoquiEngine(false)
    else if name == Bark then BarkEngine(false)
    else PiperEngine({})
  }

  /** The manager's engine cache, with the log of every construction it has performed. */
  datatype Manager = Manager(engines: map<string, Engine>, constructed: seq<string>)

  const NewManager: Manager := Manager(map[], [])

  /** Each cached engine was constructed exactly once, under a known name. */
  ghost predicate ManagerInv(m: Manager) {
    && (forall i, j :: 0 <= i < j < |m.constructed| ==> m.constructed[i] != m.constructed[j])
    && (forall name :: name in m.engines <==> name in m.constructed)
    && (forall name :: name in m.engines ==> KindName(m.engines[name]) == name)
  }

  lemma NewManagerInv()
    ensures ManagerInv(NewManager)
  {
  }

  datatype TtsError =
    | UnknownEngine(engine: string)
    | UnknownPiperVoice(voice: string)
    | ModelLoadFailed(engine: string)
    | DownloadFailed(voice: string)
    | RenderFailed(engine: string)
    | PiperExit(code: int)
    | AudioFileUnreadable(engine: string)

  /** `TTSEngineManager.get_engine`: the cached engine, or a new one stored under its name. */
  function GetEngine(m: Manager, name: string): (r: Result<(Manager, Engine), TtsError>)
    ensures name in m.engines ==> r == Success((m, m.engines[name]))
    ensures name !in m.engines && !KnownEngine(name) ==> r == Failure(UnknownEngine(name))
    ensures name !in m.engines && KnownEngine(name) ==>
      r == Success((Manager(m.engines[name := NewEngine(name)], m.constructed + [name]), NewEngine(name)))
  {
    if name in m.engines then Success((m, m.engines[name]))
    else if KnownEngine(name) then
      var e := NewEngine(name);
      Success((Manager(m.engines[name := e], m.constructed + [name]), e))
    else Failure(UnknownEngine(name))
  }

  /** With a consistent cache, `get_engine` fails exactly on the names it does not know, and a
      success leaves the cache consistent. */
  lemma GetEngineKeepsInv(m: Manager, name: string)
    requires ManagerInv(m)
    ensures GetEngine(m, name).Failure? <==> !KnownEngine(name)
    ensures GetEngine(m, name).Success? ==> ManagerInv(GetEngine(m, name).value.0)
    ensures GetEngine(m, name).Success? ==> name in GetEngine(m, name).value.0.engines
  {
    if name !in m.engines && KnownEngine(name) {
      var m' := GetEngine(m, name).value.0;
      assert name !in m.constructed;
      forall i, j | 0 <= i < j < |m'.constructed| ensures m'.constructed[i] != m'.constructed[j] {
        if j == |m.constructed| {
          assert m'.constructed[i] == m.constructed[i];
        }
      }
    }
  }

  /** Any sequence of `get_engine` calls from a new manager constructs each engine at most
      once: the construction log never repeats a name. */
  function GetEngines(m: Manager, names: seq<string>): (r: Manager)
    requires ManagerInv(m)
    ensures ManagerInv(r)
    ensures forall i, j :: 0 <= i < j < |r.constructed| ==> r.constructed[i] != r.constructed[j]
    ensures m.engines.Keys <= r.engines.Keys
    decreases |names|
  {
    if names == [] then m
    else
      GetEngineKeepsInv(m, names[0]);
      match GetEngine(m, names[0])
      case Success((m1, _)) => GetEngines(m1, names[1..])
      case Failure(_) => GetEngines(m, names[1..])
  }

  /** A second `get_engine` for a name returns the very engine the first stored. */
  lemma GetEngineCached(m: Manager, name: string)
    requires ManagerInv(m) && KnownEngine(name)
    ensures GetEngine(GetEngine(m, name).value.0, name) == Success((GetEngine(m, name).value.0, GetEngine(m, name).value.1))
  {
  }

  // ---------------------------------------------------------------------------
  // The foreign side: what succeeds, and the files
  // ---------------------------------------------------------------------------

  /** Which foreign steps succeed on this call. `renderOk` is the model call that produces
      audio, `fileOk` the write/read of the output file, `pipeExit` the `piper` return code.
      `urlretrieve` writes its target block by block, so a fetch that fails may still leave a
      partial file behind: `modelPartial` and `configPartial` say whether it does. */
  datatype Env = Env(
    fs: set<string>,
    loadOk: bool,
    renderOk: bool,
    fileOk: bool,
    modelFetchOk: bool,
    modelPartial: bool,
    configFetchOk: bool,
    configPartial: bool,
    pipeExit: int)

  /** Which speaker the audio was rendered with. */
  datatype Speaker =
    | ClonedFrom(path: string)
    | Preset(id: string)
    | DefaultSpeaker

  /** Symbolic audio: the engine, the speaker and the text. */
  datatype Audio = Audio(engine: string, speaker: Speaker, text: string)

  /** An engine call's outcome: the engine's new state, the files left behind, the audio or
      the error. */
  datatype Synth = Synth(engine: Engine, fs: set<string>, audio: Result<Audio, TtsError>)

  /** Python truthiness of an optional string: present and non-empty. */
  predicate Truthy(s: Option<string>) {
    s.Some? && s.value != ""
  }

  /** The `finally` clause: the temporary file is unlinked if it exists. */
  function Cleanup(fs: set<string>, tmp: string): (r: set<string>)
    ensures tmp !in r && r == fs - {tmp}
  {
    if tmp in fs then fs - {tmp} else fs
  }

  // ---------------------------------------------------------------------------
  // Coqui
  // ---------------------------------------------------------------------------

  /** The speaker `CoquiEngine.synthesize` renders with: an existing clone file wins, then a
      built-in XTTS speaker id, else the model's default voice. */
  function CoquiSpeaker(voiceId: Option<string>, clonePath: Option<string>, fs: set<string>): (sp: Speaker)
    ensures sp.ClonedFrom? <==> Truthy(clonePath) && clonePath.value in fs
    ensures sp.ClonedFrom? ==> sp.path == clonePath.value
    ensures sp.Preset? <==> !(Truthy(clonePath) && clonePath.value in fs) && Truthy(voiceId) && HasId(XttsSpeakers, voiceId.value)
    ensures sp.Preset? ==> sp.id == voiceId.value
  {
    if Truthy(clonePath) && clonePath.value in fs then ClonedFrom(clonePath.value)
    else if Truthy(voiceId) && HasId(XttsSpeakers, voiceId.value) then Preset(voiceId.value)
    else DefaultSpeaker
  }

  /** `CoquiEngine.synthesize`: load the model if needed, then render into a temporary file
      that the `finally` removes. */
  function CoquiSynthesize(e: Engine, text: string, voiceId: Option<string>, clonePath: Option<string>, env: Env, tmp: string): (r: Synth)
    requires e.CoquiEngine?
    ensures r.engine.CoquiEngine?
    ensures e.modelLoaded ==> r.engine == e
    ensures r.engine.modelLoaded <==> e.modelLoaded || env.loadOk
    ensures r.audio.Success? <==> (e.modelLoaded || env.loadOk) && env.renderOk && env.fileOk
    ensures r.audio.Success? ==> r.audio.value == Audio(Coqui, CoquiSpeaker(voiceId, clonePath, env.fs), text)
    ensures tmp !in env.fs ==> r.fs == env.fs
  {
    if !e.modelLoaded && !env.loadOk then Synth(e, env.fs, Failure(ModelLoadFailed(Coqui)))
    else
      var e' := CoquiEngine(true);
      var withTmp := env.fs + {tmp};
      var audio :=
        if !env.renderOk then Failure(RenderFailed(Coqui))
        else if !env.fileOk then Failure(AudioFileUnreadable(Coqui))
        else Success(Audio(Coqui, CoquiSpeaker(voiceId, clonePath, env.fs), text));
      Synth(e', Cleanup(withTmp, tmp), audio)
  }

  /** Every id of `vs` starts with an upper-case letter. */
  ghost predicate IdsCapitalised(vs: seq<Voice>) {
    forall i :: 0 <= i < |vs| ==> |vs[i].id| > 0 && 'A' <= vs[i].id[0] <= 'Z'
  }

  lemma CapitalisedAppend(a: seq<Voice>, b: seq<Voice>)
    requires IdsCapitalised(a) && IdsCapitalised(b)
    ensures IdsCapitalised(a + b)
  {
  }

  lemma XttsGroupsOneCapitalised()
    ensures IdsCapitalised(XttsHighQuality + XttsBritish + XttsAmerican)
  {
    assert IdsCapitalised(XttsHighQuality);
    assert IdsCapitalised(XttsBritish);
    assert IdsCapitalised(XttsAmerican);
    CapitalisedAppend(XttsHighQuality, XttsBritish);
    CapitalisedAppend(XttsHighQuality + XttsBritish, XttsAmerican);
  }

  lemma XttsGroupsTwoCapitalised()
    ensures IdsCapitalised(XttsEuropean + XttsAdditionalInternational + XttsYoungAdult)
  {
    assert IdsCapitalised(XttsEuropean);
    assert IdsCapitalised(XttsAdditionalInternational);
    assert IdsCapitalised(XttsYoungAdult);
    CapitalisedAppend(XttsEuropean, XttsAdditionalInternational);
    CapitalisedAppend(XttsEuropean + XttsAdditionalInternational, XttsYoungAdult);
  }

  lemma XttsGroupsThreeCapitalised()
    ensures IdsCapitalised(XttsMature + XttsCharacter + XttsRegionalAmerican)
  {
    assert IdsCapitalised(XttsMature);
    assert IdsCapitalised(XttsCharacter);
    assert IdsCapitalised(XttsRegionalAmerican);
    CapitalisedAppend(XttsMature, XttsCharacter);
    CapitalisedAppend(XttsMature + XttsCharacter, XttsRegionalAmerican);
  }

  lemma XttsGroupsFourCapitalised()
    ensures IdsCapitalised(XttsCeltic + XttsSpecialty + XttsProfessional)
  {
    assert IdsCapitalised(XttsCeltic);
    assert IdsCapitalised(XttsSpecialty);
    assert IdsCapitalised(XttsProfessional);
    CapitalisedAppend(XttsCeltic, XttsSpecialty);
    CapitalisedAppend(XttsCeltic + XttsSpecialty, XttsProfessional);
  }

  /** Every XTTS speaker id starts with an upper-case letter (they are personal names). */
  lemma XttsIdsCapitalised()
    ensures IdsCapitalised(XttsSpeakers)
  {
    XttsGroupsOneCapitalised();
    XttsGroupsTwoCapitalised();
    XttsGroupsThreeCapitalised();
    XttsGroupsFourCapitalised();
    var a := XttsHighQuality + XttsBritish + XttsAmerican;
    var b := XttsEuropean + XttsAdditionalInternational + XttsYoungAdult;
    var c := XttsMature + XttsCharacter + XttsRegionalAmerican;
    var d := XttsCeltic + XttsSpecialty + XttsProfessional;
    CapitalisedAppend(a, b);
    CapitalisedAppend(a + b, c);
    CapitalisedAppend(a + b + c, d);
    assert XttsSpeakers == a + b + c + d;
  }

  /** A VCTK id, such as the test page's default "vctk_p243", is no XTTS speaker: Coqui renders
      it with the default voice. */
  lemma VctkIdsFallToDefault(i: int)
    requires 0 <= i < |VctkBritishVoices|
    ensures CoquiSpeaker(Some(VctkBritishVoices[i].id), None, {}) == DefaultSpeaker
  {
    VctkIdsLowerCase();
    NotCapitalisedNotXtts(VctkBritishVoices[i].id);
  }

  /** Every id of `vs` starts with "v". */
  ghost predicate IdsStartWithV(vs: seq<Voice>) {
    forall i :: 0 <= i < |vs| ==> |vs[i].id| > 0 && vs[i].id[0] == 'v'
  }

  lemma StartWithVAppend(a: seq<Voice>, b: seq<Voice>)
    requires IdsStartWithV(a) && IdsStartWithV(b)
    ensures IdsStartWithV(a + b)
  {
  }

  lemma VctkIdsLowerCase()
    ensures IdsStartWithV(VctkBritishVoices)
  {
    VctkEnglishIdsLowerCase();
    VctkOtherIdsLowerCase();
    var a := VctkEnglishMale + VctkEnglishFemale + VctkScottishMale;
    var b := VctkScottishFemale + VctkIrish + VctkWelsh;
    StartWithVAppend(a, b);
    assert VctkBritishVoices == a + b;
  }

  lemma VctkEnglishIdsLowerCase()
    ensures IdsStartWithV(VctkEnglishMale + VctkEnglishFemale + VctkScottishMale)
  {
    assert IdsStartWithV(VctkEnglishMale);
    assert IdsStartWithV(VctkEnglishFemale);
    assert IdsStartWithV(VctkScottishMale);
    StartWithVAppend(VctkEnglishMale, VctkEnglishFemale);
    StartWithVAppend(VctkEnglishMale + VctkEnglishFemale, VctkScottishMale);
  }

  lemma VctkOtherIdsLowerCase()
    ensures IdsStartWithV(VctkScottishFemale + VctkIrish + VctkWelsh)
  {
    assert IdsStartWithV(VctkScottishFemale);
    assert IdsStartWithV(VctkIrish);
    assert IdsStartWithV(VctkWelsh);
    StartWithVAppend(VctkScottishFemale, VctkIrish);
    StartWithVAppend(VctkScottishFemale + VctkIrish, VctkWelsh);
  }

  /** An id that does not start with a capital letter is no XTTS speaker. */
  lemma NotCapitalisedNotXtts(id: string)
    requires |id| > 0 && !('A' <= id[0] <= 'Z')
    ensures !HasId(XttsSpeakers, id)
  {
    XttsIdsCapitalised();
  }

  // ---------------------------------------------------------------------------
  // Bark
  // ---------------------------------------------------------------------------

  const BarkDefaultPreset: string := "v2/en_speaker_2"

  /** The history prompt `BarkEngine.synthesize` uses. */
  function BarkPreset(voiceId: Option<string>): (p: string)
    ensures Truthy(voiceId) && HasId(BarkSpeakers, voiceId.value) ==> p == voiceId.value
    ensures !(Truthy(voiceId) && HasId(BarkSpeakers, voiceId.value)) ==> p == BarkDefaultPreset
    ensures HasId(BarkSpeakers, p)
  {
    assert BarkSpeakers[2].id == BarkDefaultPreset;
    if Truthy(voiceId) && HasId(BarkSpeakers, voiceId.value) then voiceId.value else BarkDefaultPreset
  }

  /** `BarkEngine.synthesize`: load, generate (before any file exists), then write and read a
      temporary WAV that the `finally` removes. The clone path is accepted and unused. */
  function BarkSynthesize(e: Engine, text: string, voiceId: Option<string>, clonePath: Option<string>, env: Env, tmp: string): (r: Synth)
    requires e.BarkEngine?
    ensures r.engine.BarkEngine?
    ensures e.modelLoaded ==> r.engine == e
    ensures r.engine.modelLoaded <==> e.modelLoaded || env.loadOk
    ensures r.audio.Success? <==> (e.modelLoaded || env.loadOk) && env.renderOk && env.fileOk
    ensures r.audio.Success? ==> r.audio.value == Audio(Bark, Preset(BarkPreset(voiceId)), text)
    ensures tmp !in env.fs ==> r.fs == env.fs
  {
    if !e.modelLoaded && !env.loadOk then Synth(e, env.fs, Failure(ModelLoadFailed(Bark)))
    else if !env.renderOk then Synth(BarkEngine(true), env.fs, Failure(RenderFailed(Bark)))
    else
      var withTmp := env.fs + {tmp};
      var audio :=
        if !env.fileOk then Failure(AudioFileUnreadable(Bark))
        else Success(Audio(Bark, Preset(BarkPreset(voiceId)), text));
      Synth(BarkEngine(true), Cleanup(withTmp, tmp), audio)
  }

  /** Bark is listed as supporting cloning, yet its output does not depend on the clone path. */
  lemma BarkIgnoresClonePath(e: Engine, text: string, voiceId: Option<string>, p1: Option<string>, p2: Option<string>, env: Env, tmp: string)
    requires e.BarkEngine?
    ensures EngineTable[1].1.supportsCloning
    ensures BarkSynthesize(e, text, voiceId, p1, env, tmp) == BarkSynthesize(e, text, voiceId, p2, env, tmp)
  {
  }

  // ---------------------------------------------------------------------------
  // Piper
  // ---------------------------------------------------------------------------

  const PiperDefaultVoice: string := "en_GB_cori_medium"
  const PiperDir: string := "models/piper"

  function PiperModelPath(voiceId: string): string {
    PiperDir + "/" + voiceId + ".onnx"
  }

  function PiperConfigPath(voiceId: string): string {
    PiperDir + "/" + voiceId + ".onnx.json"
  }

  /** What `_download_model` leaves: the engine, or the error it raised, and the files that
      exist afterwards (a raise can come after the model file is already written). */
  datatype Download = Download(outcome: Result<Engine, TtsError>, fs: set<string>)

  /** The names `NamedTemporaryFile(suffix='.wav')` hands out. */
  predicate IsWavTemp(p: string) {
    EndsWith(p, ".wav")
  }

  /** A temporary WAV name is never one of Piper's model files. */
  lemma WavTempNotPiperFile(voiceId: string, tmp: string)
    ensures IsWavTemp(tmp) ==> tmp != PiperModelPath(voiceId) && tmp != PiperConfigPath(voiceId)
  {
    assert IsWavTemp(tmp) ==> tmp[|tmp| - 1] == 'v';
    assert PiperModelPath(voiceId)[|PiperModelPath(voiceId)| - 1] == 'x';
    assert PiperConfigPath(voiceId)[|PiperConfigPath(voiceId)| - 1] == 'n';
  }

  /** `PiperEngine._download_model`: reject ids outside PIPER_MODELS, do nothing for an id
      already fetched, fetch the model file and then the config file when the model file is
      absent, then remember the id. The two fetches are separate calls: when the second one
      raises, the model file stays on disk, and a fetch that raises may leave its own partial
      target. */
  function DownloadModel(e: Engine, voiceId: string, env: Env): (r: Download)
    requires e.PiperEngine?
    ensures !HasId(PiperModels, voiceId) ==> r == Download(Failure(UnknownPiperVoice(voiceId)), env.fs)
    ensures HasId(PiperModels, voiceId) && voiceId in e.downloaded ==> r == Download(Success(e), env.fs)
    ensures r.outcome.Success? ==> r.outcome.value == PiperEngine(e.downloaded + {voiceId})
    ensures env.fs <= r.fs <= env.fs + {PiperModelPath(voiceId), PiperConfigPath(voiceId)}
    ensures r.outcome.Success? ==> voiceId in e.downloaded || PiperModelPath(voiceId) in r.fs
    ensures r.outcome.Failure? && HasId(PiperModels, voiceId) ==>
              && r.outcome.error == DownloadFailed(voiceId)
              && PiperModelPath(voiceId) !in env.fs
              && !(env.modelFetchOk && env.configFetchOk)
    ensures r.fs != env.fs ==> PiperModelPath(voiceId) !in env.fs && (env.modelFetchOk || env.modelPartial)
    ensures r.outcome.Failure? && HasId(PiperModels, voiceId) ==>
              && (PiperModelPath(voiceId) in r.fs <==> env.modelFetchOk || env.modelPartial)
              && (PiperConfigPath(voiceId) in r.fs <==>
                    PiperConfigPath(voiceId) in env.fs || (env.modelFetchOk && env.configPartial))
  {
    var model := PiperModelPath(voiceId);
    var config := PiperConfigPath(voiceId);
    PiperPathsDiffer(voiceId);
    if !HasId(PiperModels, voiceId) then Download(Failure(UnknownPiperVoice(voiceId)), env.fs)
    else if voiceId in e.downloaded then Download(Success(e), env.fs)
    else if model in env.fs then Download(Success(PiperEngine(e.downloaded + {voiceId})), env.fs)
    else if !env.modelFetchOk then
      Download(Failure(DownloadFailed(voiceId)), if env.modelPartial then env.fs + {model} else env.fs)
    else if !env.configFetchOk then
      Download(Failure(DownloadFailed(voiceId)), env.fs + {model} + (if env.configPartial then {config} else {}))
    else Download(Success(PiperEngine(e.downloaded + {voiceId})), env.fs + {model, config})
  }

  /** A voice's model file and config file are different paths. */
  lemma PiperPathsDiffer(voiceId: string)
    ensures PiperModelPath(voiceId) != PiperConfigPath(voiceId)
  {
    assert |PiperModelPath(voiceId)| != |PiperConfigPath(voiceId)|;
  }

  /** Downloading is idempotent: once a call succeeds, repeating it changes nothing, whatever
      the network does. */
  lemma DownloadIdempotent(e: Engine, voiceId: string, env: Env, env2: Env)
    requires e.PiperEngine? && DownloadModel(e, voiceId, env).outcome.Success?
    ensures DownloadModel(DownloadModel(e, voiceId, env).outcome.value, voiceId, env2) ==
      Download(DownloadModel(e, voiceId, env).outcome, env2.fs)
  {
  }

  /** A download whose config fetch fails leaves the model file behind, and the next call
      takes the file's presence as a finished download: it records the id without ever
      fetching the config, which is absent or only partly written. */
  lemma PartialDownloadNeverFetchesConfig(e: Engine, voiceId: string, env: Env, env2: Env)
    requires e.PiperEngine? && HasId(PiperModels, voiceId) && voiceId !in e.downloaded
    requires PiperModelPath(voiceId) !in env.fs && PiperConfigPath(voiceId) !in env.fs
    requires env.modelFetchOk && !env.configFetchOk
    requires env2.fs == DownloadModel(e, voiceId, env).fs
    ensures DownloadModel(e, voiceId, env).outcome.Failure?
    ensures DownloadModel(e, voiceId, env2) == Download(Success(PiperEngine(e.downloaded + {voiceId})), env2.fs)
    ensures PiperModelPath(voiceId) in env2.fs
    ensures PiperConfigPath(voiceId) in env2.fs <==> env.configPartial
  {
  }

  /** A model fetch that breaks off leaves a partial model file, and the next call takes it
      for a finished download: the id is recorded with a truncated model and no config. */
  lemma BrokenModelFetchAccepted(e: Engine, voiceId: string, env: Env, env2: Env)
    requires e.PiperEngine? && HasId(PiperModels, voiceId) && voiceId !in e.downloaded
    requires PiperModelPath(voiceId) !in env.fs && PiperConfigPath(voiceId) !in env.fs
    requires !env.modelFetchOk && env.modelPartial
    requires env2.fs == DownloadModel(e, voiceId, env).fs
    ensures DownloadModel(e, voiceId, env).outcome.Failure?
    ensures DownloadModel(e, voiceId, env2) == Download(Success(PiperEngine(e.downloaded + {voiceId})), env2.fs)
    ensures PiperModelPath(voiceId) in env2.fs && PiperConfigPath(voiceId) !in env2.fs
  {
  }

  /** `PiperEngine.synthesize`: an empty voice becomes the default, the model is fetched
      (errors surface before any temporary file), and the `piper` process renders into a
      temporary file that the `finally` removes. */
  function PiperSynthesize(e: Engine, text: string, voiceId: Option<string>, env: Env, tmp: string): (r: Synth)
    requires e.PiperEngine?
    ensures r.engine.PiperEngine? && e.downloaded <= r.engine.downloaded
    ensures r.audio.Success? ==> r.audio.value == Audio(Piper, Preset(PiperVoice(voiceId)), text)
    ensures r.audio.Success? ==> PiperVoice(voiceId) in r.engine.downloaded && env.pipeExit == 0 && env.fileOk
    ensures !HasId(PiperModels, PiperVoice(voiceId)) ==> r == Synth(e, env.fs, Failure(UnknownPiperVoice(PiperVoice(voiceId))))
    ensures tmp !in env.fs ==> env.fs <= r.fs <= env.fs + {PiperModelPath(PiperVoice(voiceId)), PiperConfigPath(PiperVoice(voiceId))}
    ensures tmp !in env.fs + {PiperModelPath(PiperVoice(voiceId)), PiperConfigPath(PiperVoice(voiceId))} ==> tmp !in r.fs
  {
    var voice := PiperVoice(voiceId);
    var d := DownloadModel(e, voice, env);
    match d.outcome
    case Failure(err) => Synth(e, d.fs, Failure(err))
    case Success(e') =>
      var withTmp := d.fs + {tmp};
      var audio :=
        if env.pipeExit != 0 then Failure(PiperExit(env.pipeExit))
        else if !env.fileOk then Failure(AudioFileUnreadable(Piper))
        else Success(Audio(Piper, Preset(voice), text));
      Synth(e', Cleanup(withTmp, tmp), audio)
  }

  /** The voice Piper uses: the requested one, or the default when none is given. */
  function PiperVoice(voiceId: Option<string>): (v: string)
    ensures Truthy(voiceId) ==> v == voiceId.value
    ensures !Truthy(voiceId) ==> v == PiperDefaultVoice
  {
    if Truthy(voiceId) then voiceId.value else PiperDefaultVoice
  }

  /** A missing voice is served by the default, but an id outside the catalog is an error,
      not a fallback. */
  lemma PiperDefaultAndNoFallback(e: Engine, text: string, env: Env, tmp: string)
    requires e.PiperEngine?
    ensures PiperVoice(None) == PiperVoice(Some("")) == PiperDefaultVoice
    ensures HasId(PiperModels, PiperDefaultVoice)
    ensures PiperSynthesize(e, text, Some("en_US_nobody"), env, tmp).audio == Failure(UnknownPiperVoice("en_US_nobody"))
  {
    assert PiperModels[1].id == PiperDefaultVoice;
    assert !HasId(PiperModels, "en_US_nobody") by {
      PiperModelsHasVale();
      forall i | 0 <= i < |PiperModels| ensures PiperModels[i].id != "en_US_nobody" {
        assert PiperModels[i].id[3] != 'U';
      }
    }
  }

  // ---------------------------------------------------------------------------
  // speak
  // ---------------------------------------------------------------------------

  /** Dispatches to the engine's `synthesize`. */
  function Synthesize(e: Engine, text: string, voiceId: Option<string>, clonePath: Option<string>, env: Env, tmp: string): (r: Synth)
    ensures tmp !in env.fs && IsWavTemp(tmp) ==> tmp !in r.fs
    ensures KindName(r.engine) == KindName(e)
    ensures r.audio.Success? ==> r.audio.value.engine == KindName(e) && r.audio.value.text == text
    ensures r.audio.Success? && r.audio.value.speaker.ClonedFrom? ==>
              e.CoquiEngine? && clonePath == Some(r.audio.value.speaker.path)
  {
    match e
    case CoquiEngine(_) => CoquiSynthesize(e, text, voiceId, clonePath, env, tmp)
    case BarkEngine(_) => BarkSynthesize(e, text, voiceId, clonePath, env, tmp)
    case PiperEngine(_) =>
      WavTempNotPiperFile(PiperVoice(voiceId), tmp);
      PiperSynthesize(e, text, voiceId, env, tmp)
  }

  /** The lazy load across two calls: a model loaded once stays loaded, so the second call
      no longer depends on loading; a failed load leaves the engine as it was, and the
      second call tries again. */
  lemma LoadedOnceRetriedAfterFailure(e: Engine, text: string, voiceId: Option<string>, clonePath: Option<string>,
                                      env: Env, tmp: string, env2: Env, tmp2: string)
    requires e.CoquiEngine? || e.BarkEngine?
    ensures var e1 := Synthesize(e, text, voiceId, clonePath, env, tmp).engine;
            var second := Synthesize(e1, text, voiceId, clonePath, env2, tmp2);
            && (e.modelLoaded || env.loadOk ==>
                  e1.modelLoaded && (second.audio.Success? <==> env2.renderOk && env2.fileOk))
            && (!e.modelLoaded && !env.loadOk ==>
                  e1 == e && (second.audio.Success? <==> env2.loadOk && env2.renderOk && env2.fileOk))
  {
  }

  /** `TTSEngineManager.speak`: every failure, including an unknown engine name, becomes
      `None`; the engine's new state is kept in the cache. */
  function Speak(m: Manager, text: string, engine: string, voiceId: Option<string>, clonePath: Option<string>, env: Env, tmp: string): (r: (Manager, set<string>, Option<Audio>))
    requires ManagerInv(m)
    ensures ManagerInv(r.0)
    ensures !KnownEngine(engine) ==> r == (m, env.fs, None)
    ensures r.2.Some? ==> r.2.value.engine == engine && r.2.value.text == text
    ensures tmp !in env.fs && IsWavTemp(tmp) ==> tmp !in r.1
    ensures r.2.Some? && r.2.value.speaker.ClonedFrom? ==> engine == Coqui && clonePath == Some(r.2.value.speaker.path)
    ensures KnownEngine(engine) ==>
              && GetEngine(m, engine).Success?
              && engine in r.0.engines
              && r.0.engines[engine] == Synthesize(GetEngine(m, engine).value.1, text, voiceId, clonePath, env, tmp).engine
              && r.0.constructed == GetEngine(m, engine).value.0.constructed
    ensures forall name :: name != engine ==> (name in r.0.engines <==> name in m.engines)
    ensures forall name :: name != engine && name in m.engines ==> r.0.engines[name] == m.engines[name]
  {
    GetEngineKeepsInv(m, engine);
    match GetEngine(m, engine)
    case Failure(_) => (m, env.fs, None)
    case Success((m1, e)) =>
      var s := Synthesize(e, text, voiceId, clonePath, env, tmp);
      var m2 := Manager(m1.engines[engine := s.engine], m1.constructed);
      (m2, s.fs, s.audio.ToOption())
  }

  /** Coqui and Bark render exactly when their model is, or gets, loaded and rendering and
      reading succeed. */
  lemma LazySynthesisSucceeds(e: Engine, text: string, voiceId: Option<string>, clonePath: Option<string>, env: Env, tmp: string)
    requires e.CoquiEngine? || e.BarkEngine?
    ensures var s := Synthesize(e, text, voiceId, clonePath, env, tmp);
            && (s.audio.Success? <==> (e.modelLoaded || env.loadOk) && env.renderOk && env.fileOk)
            && (s.engine.modelLoaded <==> e.modelLoaded || env.loadOk)
            && (s.engine.CoquiEngine? || s.engine.BarkEngine?)
  {
  }

  /** `speak` with a known engine reports audio exactly when that engine's `synthesize`
      produced it. */
  lemma SpeakAudioIsSynthesis(m: Manager, engine: string, text: string, voiceId: Option<string>, clonePath: Option<string>,
                              env: Env, tmp: string)
    requires ManagerInv(m)
    requires KnownEngine(engine)
    ensures GetEngine(m, engine).Success?
    ensures Speak(m, text, engine, voiceId, clonePath, env, tmp).2.Some?
            <==> Synthesize(GetEngine(m, engine).value.1, text, voiceId, clonePath, env, tmp).audio.Success?
  {
  }

  /** After `speak` with Coqui or Bark the cache holds that engine, loaded exactly when it was
      loaded before or the load succeeded. */
  lemma SpeakCachesLoadState(m: Manager, engine: string, text: string, voiceId: Option<string>, clonePath: Option<string>,
                             env: Env, tmp: string)
    requires ManagerInv(m)
    requires engine == Coqui || engine == Bark
    ensures var m1 := Speak(m, text, engine, voiceId, clonePath, env, tmp).0;
            && ManagerInv(m1)
            && engine in m1.engines
            && (m1.engines[engine].modelLoaded <==> (engine in m.engines && m.engines[engine].modelLoaded) || env.loadOk)
  {
    var e := GetEngine(m, engine).value.1;
    assert e.CoquiEngine? || e.BarkEngine? by {
      if engine in m.engines {
        assert KindName(m.engines[engine]) == engine;
      }
    }
    LazySynthesisSucceeds(e, text, voiceId, clonePath, env, tmp);
  }

  /** With Coqui or Bark already cached, `speak` succeeds exactly when the cached model is
      loaded or loads now, and rendering and reading succeed. */
  lemma CachedEngineDecides(m: Manager, engine: string, text: string, voiceId: Option<string>, clonePath: Option<string>,
                            env: Env, tmp: string)
    requires ManagerInv(m)
    requires engine == Coqui || engine == Bark
    requires engine in m.engines
    ensures Speak(m, text, engine, voiceId, clonePath, env, tmp).2.Some?
            <==> (m.engines[engine].modelLoaded || env.loadOk) && env.renderOk && env.fileOk
  {
    assert KindName(m.engines[engine]) == engine;
    SpeakAudioIsSynthesis(m, engine, text, voiceId, clonePath, env, tmp);
    LazySynthesisSucceeds(m.engines[engine], text, voiceId, clonePath, env, tmp);
  }

  /** Through the manager's cache: once `speak` has loaded the Coqui or Bark model, the cached
      engine keeps it, and the next `speak` with that engine succeeds whatever loading would
      do; after a failed load the cache holds an unloaded engine and the next call loads again. */
  lemma SpeakLoadsOnce(m: Manager, engine: string, text: string, voiceId: Option<string>, clonePath: Option<string>,
                       env: Env, tmp: string, env2: Env, tmp2: string)
    requires ManagerInv(m)
    requires engine == Coqui || engine == Bark
    ensures var m1 := Speak(m, text, engine, voiceId, clonePath, env, tmp).0;
            && engine in m1.engines
            && (m1.engines[engine].modelLoaded <==> (engine in m.engines && m.engines[engine].modelLoaded) || env.loadOk)
            && (m1.engines[engine].modelLoaded ==>
                  (Speak(m1, text, engine, voiceId, clonePath, env2, tmp2).2.Some? <==> env2.renderOk && env2.fileOk))
            && (!m1.engines[engine].modelLoaded ==>
                  (Speak(m1, text, engine, voiceId, clonePath, env2, tmp2).2.Some? <==> env2.loadOk && env2.renderOk && env2.fileOk))
  {
    SpeakCachesLoadState(m, engine, text, voiceId, clonePath, env, tmp);
    var m1 := Speak(m, text, engine, voiceId, clonePath, env, tmp).0;
    CachedEngineDecides(m1, engine, text, voiceId, clonePath, env2, tmp2);
  }
}
