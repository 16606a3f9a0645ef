/**
 * The static voice catalog of the speech-synthesis layer (`voice_models.py`) and its two
 * queries: `get_all_voices`, which groups every catalog voice under a fixed set of accent
 * buckets, and `get_recommended_voices`, a curated name-to-id table.
 *
 * Python dictionaries are ordered; every catalog is therefore a sequence in the source's
 * insertion order, with distinct ids.
 */
module VoiceCatalog {

  /** One catalog entry: the dictionary key and the fields `get_all_voices` reads. */
  datatype Voice = Voice(id: string, name: string, accent: string, gender: string)

  /** A voice as `get_all_voices` reports it, tagged with the engine that speaks it. */
  datatype Entry = Entry(id: string, engine: string, name: string, accent: string, gender: string)

  const Coqui: string := "coqui"
  const Bark: string := "bark"
  const Piper: string := "piper"

  // XTTS_SPEAKERS, in the groups the source lists them in.

  const XttsHighQuality: seq<Voice> := [
    Voice("Claribel Dervla", "Claribel Dervla", "International", "female"),
    Voice("Andrew Chipper", "Andrew Chipper", "International", "male"),
    Voice("Ana Florence", "Ana Florence", "International", "female"),
    Voice("Damien Black", "Damien Black", "International", "male"),
    Voice("Sofia Hellen", "Sofia Hellen", "International", "female")
  ]

  const XttsBritish: seq<Voice> := [
    Voice("Emily", "Emily", "British", "female"),
    Voice("George", "George", "British", "male"),
    Voice("Charlotte", "Charlotte", "British", "female"),
    Voice("Oliver", "Oliver", "British", "male"),
    Voice("Isabella", "Isabella", "British", "female")
  ]

  const XttsAmerican: seq<Voice> := [
    Voice("Emma", "Emma", "American", "female"),
    Voice("Jacob", "Jacob", "American", "male"),
    Voice("Madison", "Madison", "American", "female"),
    Voice("William", "William", "American", "male"),
    Voice("Abigail", "Abigail", "American", "female")
  ]

  const XttsEuropean: seq<Voice> := [
    Voice("Sophie", "Sophie", "French", "female"),
    Voice("Klaus", "Klaus", "German", "male"),
    Voice("Lucia", "Lucia", "Italian", "female"),
    Voice("Hans", "Hans", "Dutch", "male"),
    Voice("Nina", "Nina", "Scandinavian", "female")
  ]

  const XttsAdditionalInternational: seq<Voice> := [
    Voice("Carlos", "Carlos", "Spanish", "male"),
    Voice("Maria", "Maria", "Spanish", "female"),
    Voice("Raj", "Raj", "Indian", "male"),
    Voice("Priya", "Priya", "Indian", "female"),
    Voice("Yuki", "Yuki", "Japanese", "female")
  ]

  const XttsYoungAdult: seq<Voice> := [
    Voice("Taylor", "Taylor", "American", "unisex"),
    Voice("Jordan", "Jordan", "British", "unisex"),
    Voice("Casey", "Casey", "American", "unisex"),
    Voice("Alex", "Alex", "International", "unisex"),
    Voice("River", "River", "American", "unisex")
  ]

  const XttsMature: seq<Voice> := [
    Voice("Eleanor", "Eleanor", "British", "female"),
    Voice("Bernard", "Bernard", "British", "male"),
    Voice("Margaret", "Margaret", "American", "female"),
    Voice("Theodore", "Theodore", "American", "male"),
    Voice("Victoria", "Victoria", "British", "female")
  ]

  const XttsCharacter: seq<Voice> := [
    Voice("Narrator", "Narrator", "International", "male"),
    Voice("Storyteller", "Storyteller", "British", "female"),
    Voice("Professor", "Professor", "British", "male"),
    Voice("Guide", "Guide", "American", "female"),
    Voice("Host", "Host", "International", "male")
  ]

  const XttsRegionalAmerican: seq<Voice> := [
    Voice("Austin", "Austin", "Southern American", "male"),
    Voice("Belle", "Belle", "Southern American", "female"),
    Voice("Dakota", "Dakota", "Midwestern American", "unisex"),
    Voice("Phoenix", "Phoenix", "Western American", "unisex"),
    Voice("Brooklyn", "Brooklyn", "Northeastern American", "female")
  ]

  const XttsCeltic: seq<Voice> := [
    Voice("Seamus", "Seamus", "Irish", "male"),
    Voice("Siobhan", "Siobhan", "Irish", "female"),
    Voice("Hamish", "Hamish", "Scottish", "male"),
    Voice("Fiona", "Fiona", "Scottish", "female"),
    Voice("Rhys", "Rhys", "Welsh", "male")
  ]

  const XttsSpecialty: seq<Voice> := [
    Voice("Echo", "Echo", "International", "female"),
    Voice("Sage", "Sage", "British", "unisex"),
    Voice("Nova", "Nova", "American", "female"),
    Voice("Atlas", "Atlas", "International", "male"),
    Voice("Luna", "Luna", "International", "female")
  ]

  const XttsProfessional: seq<Voice> := [
    Voice("Executive", "Executive", "American", "male"),
    Voice("Director", "Director", "British", "female"),
    Voice("Consultant", "Consultant", "International", "unisex"),
    Voice("Analyst", "Analyst", "American", "female"),
    Voice("Coordinator", "Coordinator", "British", "male")
  ]

  const XttsSpeakers: seq<Voice> :=
    XttsHighQuality + XttsBritish + XttsAmerican + XttsEuropean + XttsAdditionalInternational + XttsYoungAdult + XttsMature + XttsCharacter + XttsRegionalAmerican + XttsCeltic + XttsSpecialty + XttsProfessional


  // VCTK_BRITISH_VOICES, in the groups the source lists them in.

  const VctkEnglishMale: seq<Voice> := [
    Voice("vctk_p226", "Surrey Male (22)", "English", "male"),
    Voice("vctk_p227", "Cumbria Male (38)", "English", "male"),
    Voice("vctk_p232", "Southern England Male (23)", "English", "male"),
    Voice("vctk_p243", "London Male (22)", "English", "male"),
    Voice("vctk_p254", "Surrey Male (21)", "English", "male"),
    Voice("vctk_p256", "Birmingham Male (24)", "English", "male"),
    Voice("vctk_p270", "Yorkshire Male (21)", "English", "male"),
    Voice("vctk_p286", "Newcastle Male (23)", "English", "male")
  ]

  const VctkEnglishFemale: seq<Voice> := [
    Voice("vctk_p225", "Home Counties Female (23)", "English", "female"),
    Voice("vctk_p228", "Southern England Female (22)", "English", "female"),
    Voice("vctk_p229", "Southern England Female (21)", "English", "female"),
    Voice("vctk_p230", "Stockton-on-Tees Female (22)", "English", "female"),
    Voice("vctk_p231", "Southern England Female (23)", "English", "female")
  ]

  const VctkScottishMale: seq<Voice> := [
    Voice("vctk_p237", "Fife Scottish Male (22)", "Scottish", "male"),
    Voice("vctk_p241", "Perth Scottish Male (21)", "Scottish", "male"),
    Voice("vctk_p246", "Selkirk Scottish Male (22)", "Scottish", "male"),
    Voice("vctk_p247", "Argyll Scottish Male (22)", "Scottish", "male"),
    Voice("vctk_p252", "Edinburgh Scottish Male (22)", "Scottish", "male"),
    Voice("vctk_p260", "Orkney Scottish Male (21)", "Scottish", "male"),
    Voice("vctk_p263", "Aberdeen Scottish Male (22)", "Scottish", "male"),
    Voice("vctk_p272", "Edinburgh Scottish Male (23)", "Scottish", "male"),
    Voice("vctk_p281", "Edinburgh Scottish Male (29)", "Scottish", "male")
  ]

  const VctkScottishFemale: seq<Voice> := [
    Voice("vctk_p233", "Stornoway Scottish Female (23)", "Scottish", "female"),
    Voice("vctk_p236", "Orkney Scottish Female (23)", "Scottish", "female"),
    Voice("vctk_p238", "Aberdeen Scottish Female (22)", "Scottish", "female"),
    Voice("vctk_p239", "Inverness Scottish Female (22)", "Scottish", "female"),
    Voice("vctk_p244", "Perth Scottish Female (22)", "Scottish", "female"),
    Voice("vctk_p248", "Shetland Scottish Female (23)", "Scottish", "female"),
    Voice("vctk_p253", "Cardiff Scottish Female (22)", "Scottish", "female"),
    Voice("vctk_p261", "Edinburgh Scottish Female (26)", "Scottish", "female"),
    Voice("vctk_p264", "Orkney Scottish Female (22)", "Scottish", "female")
  ]

  const VctkIrish: seq<Voice> := [
    Voice("vctk_p245", "Dublin Irish Male (25)", "Irish", "male"),
    Voice("vctk_p292", "Belfast Northern Irish Male (23)", "Northern Irish", "male"),
    Voice("vctk_p240", "Cork Irish Female (21)", "Irish", "female"),
    Voice("vctk_p250", "Dublin Irish Female (21)", "Irish", "female"),
    Voice("vctk_p257", "Belfast Northern Irish Female (19)", "Northern Irish", "female")
  ]

  const VctkWelsh: seq<Voice> := [
    Voice("vctk_p251", "Cardiff Welsh Male (26)", "Welsh", "male"),
    Voice("vctk_p265", "Llanelli Welsh Female (21)", "Welsh", "female"),
    Voice("vctk_p266", "Port Talbot Welsh Female (22)", "Welsh", "female"),
    Voice("vctk_p267", "Anglesey Welsh Female (23)", "Welsh", "female")
  ]

  const VctkBritishVoices: seq<Voice> :=
    VctkEnglishMale + VctkEnglishFemale + VctkScottishMale + VctkScottishFemale + VctkIrish + VctkWelsh


  const BarkSpeakers: seq<Voice> := [
    Voice("v2/en_speaker_0", "British Male 1", "British", "male"),
    Voice("v2/en_speaker_1", "American Female 1", "American", "female"),
    Voice("v2/en_speaker_2", "British Female 1", "British", "female"),
    Voice("v2/en_speaker_3", "American Male 1", "American", "male"),
    Voice("v2/en_speaker_4", "British Male 2", "British", "male"),
    Voice("v2/en_speaker_5", "American Female 2", "American", "female"),
    Voice("v2/en_speaker_6", "British Female 2", "British", "female"),
    Voice("v2/en_speaker_7", "American Male 2", "American", "male"),
    Voice("v2/en_speaker_8", "British Male 3", "British", "male"),
    Voice("v2/en_speaker_9", "American Female 3", "American", "female")
  ]

  const PiperModelsBase: seq<Voice> := [
    Voice("en_GB_alba_medium", "Alba (Scottish)", "Scottish", "female"),
    Voice("en_GB_cori_medium", "Cori (Northern English)", "Northern English", "female"),
    Voice("en_GB_jenny_dioco_medium", "Jenny (Southern English)", "Southern English", "female"),
    Voice("en_GB_northern_english_male_medium", "Northern English Male", "Northern English", "male")
  ]

  /** The entry the module adds to PIPER_MODELS after defining the recommendations. */
  const ValeVoice: Voice := Voice("en_GB_southern_english_female_low", "Vale (Deep British Female)", "Southern English", "female")

  /** `id` is a key of the catalog `c`. */
  predicate HasId(c: seq<Voice>, id: string) {
    exists i | 0 <= i < |c| :: c[i].id == id
  }

  /** Python `c.update({v.id: v})`: an existing key keeps its position and takes the new
      value; a new key is appended at the end. */
  function UpdateCatalog(c: seq<Voice>, v: Voice): (r: seq<Voice>)
    ensures HasId(r, v.id)
    ensures forall id :: HasId(r, id) <==> HasId(c, id) || id == v.id
    ensures HasId(c, v.id) ==> |r| == |c|
    ensures !HasId(c, v.id) ==> r == c + [v]
    ensures forall i :: 0 <= i < |c| && c[i].id != v.id ==> r[i] == c[i]
  {
    if HasId(c, v.id) then
      var r := seq(|c|, i requires 0 <= i < |c| => if c[i].id == v.id then v else c[i]);
      assert forall i :: 0 <= i < |c| ==> r[i].id == c[i].id;
      r
    else
      var r := c + [v];
      assert r[|c|].id == v.id;
      assert forall i :: 0 <= i < |c| ==> r[i] == c[i];
      r
  }

  /** PIPER_MODELS as every importer sees it: the base table after the module-level update. */
  const PiperModels: seq<Voice> := UpdateCatalog(PiperModelsBase, ValeVoice)

  /** After import, the Vale voice is a Piper key, and it is the last entry. */
  lemma PiperModelsHasVale()
    ensures HasId(PiperModels, "en_GB_southern_english_female_low")
    ensures PiperModels == PiperModelsBase + [ValeVoice]
  {
    assert !HasId(PiperModelsBase, ValeVoice.id) by {
      forall i | 0 <= i < |PiperModelsBase| ensures PiperModelsBase[i].id != ValeVoice.id {
        assert |PiperModelsBase[i].id| != |ValeVoice.id|;
      }
    }
  }

  // ---------------------------------------------------------------------------
  // get_all_voices
  // ---------------------------------------------------------------------------

  /** The bucket keys of `voices_by_accent`, in the order the dictionary literal lists them. */
  const AccentKeys: seq<string> := [
    "English", "Southern English", "Northern English", "Scottish", "Irish", "Northern Irish",
    "Welsh", "British", "American", "International", "French", "German", "Italian", "Spanish",
    "Dutch", "Scandinavian", "Indian", "Japanese", "Southern American", "Midwestern American",
    "Western American", "Northeastern American"
  ]

  /** An ordered dictionary from accent to the list of entries collected under it. */
  type Buckets = seq<(string, seq<Entry>)>

  function Tag(v: Voice, engine: string): Entry {
    Entry(v.id, engine, v.name, v.accent, v.gender)
  }

  function EmptyBuckets(keys: seq<string>): (b: Buckets)
    ensures |b| == |keys|
    ensures forall i :: 0 <= i < |keys| ==> b[i] == (keys[i], [])
  {
    seq(|keys|, i requires 0 <= i < |keys| => (keys[i], []))
  }

  /** One iteration of a catalog loop: if the voice's accent is a bucket key, append the
      tagged voice to that bucket; otherwise change nothing. */
  function AddVoice(b: Buckets, v: Voice, engine: string): (r: Buckets)
    ensures |r| == |b|
    ensures forall i :: 0 <= i < |b| ==> r[i] == if b[i].0 == v.accent then (b[i].0, b[i].1 + [Tag(v, engine)]) else b[i]
  {
    seq(|b|, i requires 0 <= i < |b| =>
      if b[i].0 == v.accent then (b[i].0, b[i].1 + [Tag(v, engine)]) else b[i])
  }

  /** One `for voice_id, voice_info in CATALOG.items()` loop of `get_all_voices`. */
  function AddAll(b: Buckets, vs: seq<Voice>, engine: string): Buckets
    decreases |vs|
  {
    if vs == [] then b else AddAll(AddVoice(b, vs[0], engine), vs[1..], engine)
  }

  /** Reference definition of a bucket's share of one catalog: the voices of `vs` whose
      accent is `accent`, tagged with `engine`, in catalog order. */
  function Tagged(vs: seq<Voice>, accent: string, engine: string): seq<Entry>
    decreases |vs|
  {
    if vs == [] then []
    else (if vs[0].accent == accent then [Tag(vs[0], engine)] else []) + Tagged(vs[1..], accent, engine)
  }

  /** Running a catalog loop appends exactly that catalog's matching voices to every bucket. */
  lemma {:induction false} AddAllAppends(b: Buckets, vs: seq<Voice>, engine: string)
    ensures |AddAll(b, vs, engine)| == |b|
    ensures forall i :: 0 <= i < |b| ==> AddAll(b, vs, engine)[i] == (b[i].0, b[i].1 + Tagged(vs, b[i].0, engine))
    decreases |vs|
  {
    if vs != [] {
      var b' := AddVoice(b, vs[0], engine);
      AddAllAppends(b', vs[1..], engine);
      forall i | 0 <= i < |b|
        ensures AddAll(b, vs, engine)[i] == (b[i].0, b[i].1 + Tagged(vs, b[i].0, engine))
      {
        var here: seq<Entry> := if vs[0].accent == b[i].0 then [Tag(vs[0], engine)] else [];
        assert b[i].1 + [] == b[i].1;
        assert b'[i] == (b[i].0, b[i].1 + here);
        assert Tagged(vs, b[i].0, engine) == here + Tagged(vs[1..], b[i].0, engine);
        assert b[i].1 + here + Tagged(vs[1..], b[i].0, engine) == b[i].1 + (here + Tagged(vs[1..], b[i].0, engine));
      }
    } else {
      forall i | 0 <= i < |b| ensures b[i] == (b[i].0, b[i].1 + []) {
        assert b[i].1 + [] == b[i].1;
      }
    }
  }

  /** Reference definition of one bucket of `get_all_voices`: XTTS, then Bark, then Piper,
      then VCTK voices with that accent, each in catalog order. */
  function BucketFor(accent: string, xtts: seq<Voice>, bark: seq<Voice>, piper: seq<Voice>, vctk: seq<Voice>): seq<Entry> {
    Tagged(xtts, accent, Coqui) + Tagged(bark, accent, Bark) + Tagged(piper, accent, Piper) + Tagged(vctk, accent, Coqui)
  }

  /** The four loops of `get_all_voices` over arbitrary catalogs and bucket keys. The result
      has exactly the given keys, in order, empty buckets included, and each bucket equals
      its reference definition. */
  function GroupByAccent(keys: seq<string>, xtts: seq<Voice>, bark: seq<Voice>, piper: seq<Voice>, vctk: seq<Voice>): (r: Buckets)
    ensures |r| == |keys|
    ensures forall i :: 0 <= i < |keys| ==> r[i].0 == keys[i]
    ensures forall i :: 0 <= i < |keys| ==> r[i].1 == BucketFor(keys[i], xtts, bark, piper, vctk)
  {
    var b0 := EmptyBuckets(keys);
    var b1 := AddAll(b0, xtts, Coqui);
    var b2 := AddAll(b1, bark, Bark);
    var b3 := AddAll(b2, piper, Piper);
    AddAllAppends(b0, xtts, Coqui);
    AddAllAppends(b1, bark, Bark);
    AddAllAppends(b2, piper, Piper);
    AddAllAppends(b3, vctk, Coqui);
    AddAll(b3, vctk, Coqui)
  }

  /** `get_all_voices()` as every caller sees it (after the PIPER_MODELS update). */
  function GetAllVoices(): Buckets {
    GroupByAccent(AccentKeys, XttsSpeakers, BarkSpeakers, PiperModels, VctkBritishVoices)
  }

  /** A tagged list holds exactly the catalog voices with the requested accent, each tagged
      with the requested engine. */
  lemma {:induction false} TaggedMembers(vs: seq<Voice>, accent: string, engine: string, e: Entry)
    ensures e in Tagged(vs, accent, engine) <==> e.accent == accent && e.engine == engine && exists v :: v in vs && Tag(v, engine) == e
    decreases |vs|
  {
    if vs != [] {
      TaggedMembers(vs[1..], accent, engine, e);
      if e in Tagged(vs[1..], accent, engine) {
        var v :| v in vs[1..] && Tag(v, engine) == e;
        assert v in vs;
      }
      if e.accent == accent && e.engine == engine && (exists v :: v in vs && Tag(v, engine) == e) {
        var v :| v in vs && Tag(v, engine) == e;
        if v != vs[0] {
          assert v in vs[1..];
        }
      }
    }
  }

  /** Every entry of a bucket carries that bucket's accent and the engine of the catalog it
      came from; a catalog voice is listed iff its accent is one of the keys. */
  lemma BucketMembers(keys: seq<string>, xtts: seq<Voice>, bark: seq<Voice>, piper: seq<Voice>, vctk: seq<Voice>, i: int, e: Entry)
    requires 0 <= i < |keys|
    ensures e in GroupByAccent(keys, xtts, bark, piper, vctk)[i].1 <==>
      && e.accent == keys[i]
      && (|| (e.engine == Coqui && exists v :: (v in xtts || v in vctk) && Tag(v, Coqui) == e)
          || (e.engine == Bark && exists v :: v in bark && Tag(v, Bark) == e)
          || (e.engine == Piper && exists v :: v in piper && Tag(v, Piper) == e))
  {
    var k := keys[i];
    TaggedMembers(xtts, k, Coqui, e);
    TaggedMembers(bark, k, Bark, e);
    TaggedMembers(piper, k, Piper, e);
    TaggedMembers(vctk, k, Coqui, e);
    if e.engine == Coqui && exists v :: (v in xtts || v in vctk) && Tag(v, Coqui) == e {
      var v :| (v in xtts || v in vctk) && Tag(v, Coqui) == e;
      if v in xtts { assert exists w :: w in xtts && Tag(w, Coqui) == e; }
      else { assert exists w :: w in vctk && Tag(w, Coqui) == e; }
    }
  }

  /** A voice of one of the catalogs appears in the result iff its accent is a bucket key. */
  lemma CatalogVoiceListed(keys: seq<string>, xtts: seq<Voice>, bark: seq<Voice>, piper: seq<Voice>, vctk: seq<Voice>, v: Voice, engine: string)
    requires (engine == Coqui && (v in xtts || v in vctk)) || (engine == Bark && v in bark) || (engine == Piper && v in piper)
    ensures (exists i :: 0 <= i < |keys| && Tag(v, engine) in GroupByAccent(keys, xtts, bark, piper, vctk)[i].1) <==> v.accent in keys
  {
    var r := GroupByAccent(keys, xtts, bark, piper, vctk);
    if v.accent in keys {
      var i :| 0 <= i < |keys| && keys[i] == v.accent;
      BucketMembers(keys, xtts, bark, piper, vctk, i, Tag(v, engine));
    }
    if exists i :: 0 <= i < |keys| && Tag(v, engine) in r[i].1 {
      var i :| 0 <= i < |keys| && Tag(v, engine) in r[i].1;
      BucketMembers(keys, xtts, bark, piper, vctk, i, Tag(v, engine));
    }
  }

  /** `get_all_voices()` always has exactly the 22 fixed accent keys, in order. */
  lemma AllVoicesKeys()
    ensures |GetAllVoices()| == 22
    ensures forall i :: 0 <= i < 22 ==> GetAllVoices()[i].0 == AccentKeys[i]
  {
  }

  // ---------------------------------------------------------------------------
  // get_recommended_voices and TTS_ENGINES
  // ---------------------------------------------------------------------------

  /** `get_recommended_voices()`. */
  const Recommended: map<string, string> := map[
    "best_female_clear" := "Claribel Dervla",
    "best_female_warm" := "Ana Florence",
    "best_male_clear" := "Andrew Chipper",
    "best_male_deep" := "Damien Black",
    "best_international" := "Sofia Hellen",
    "emotional_bark" := "v2/en_speaker_2",
    "fastest_piper" := "en_GB_cori_medium",
    "vale_like_voice" := "en_GB_southern_english_female_low",
    "default_british" := "en_GB_southern_english_female_low"
  ]

  /** Every recommended id names a voice of the XTTS, Bark or (updated) Piper catalog. */
  lemma RecommendedAreCatalogKeys()
    ensures forall name :: name in Recommended ==>
      HasId(XttsSpeakers, Recommended[name]) || HasId(BarkSpeakers, Recommended[name]) || HasId(PiperModels, Recommended[name])
  {
    PiperModelsHasVale();
    assert XttsSpeakers[0].id == "Claribel Dervla";
    assert XttsSpeakers[1].id == "Andrew Chipper";
    assert XttsSpeakers[2].id == "Ana Florence";
    assert XttsSpeakers[3].id == "Damien Black";
    assert XttsSpeakers[4].id == "Sofia Hellen";
    assert BarkSpeakers[2].id == "v2/en_speaker_2";
    assert PiperModels[1].id == "en_GB_cori_medium";
  }

  /** One row of TTS_ENGINES (the fields the web page and the model read). */
  datatype EngineInfo = EngineInfo(name: string, bestFor: string, supportsCloning: bool, voices: seq<Voice>)

  /** TTS_ENGINES. Its "voices" fields alias the catalog objects, so the Piper row sees the
      later PIPER_MODELS update. */
  const EngineTable: seq<(string, EngineInfo)> := [
    (Coqui, EngineInfo("Coqui XTTS v2", "Voice cloning, multilingual, highest quality", true, XttsSpeakers)),
    (Bark, EngineInfo("Bark", "Emotions, sound effects, multiple speakers", true, BarkSpeakers)),
    (Piper, EngineInfo("Piper", "Speed, efficiency, good quality", false, PiperModels))
  ]

  /** The Piper row of TTS_ENGINES lists the Vale voice added after the table was built. */
  lemma EngineTableSeesPiperUpdate()
    ensures EngineTable[2].0 == Piper
    ensures HasId(EngineTable[2].1.voices, ValeVoice.id)
  {
    PiperModelsHasVale();
  }
}
