/**
 * The gates of the self-modification system: cached permission decisions, the modifiable
 * path check, backups before writes, appends, JSON configuration merges, the modification
 * history and rollback.
 *
 * The memory store is a map from keys to decoded JSON values. Project files are a map from
 * full path to text. The clock readings (`Clock`), Python's per-process string `hash()`
 * (`h`), and how each copy or write ends (`WriteOutcome`) are parameters.
 */
module SelfModifier {
  import opened Wrappers
  import opened Text
  import opened Sorting
  import opened Json

  datatype Modifier = Modifier(root: string, memory: map<string, Value>, files: map<string, string>)

  // ---------------------------------------------------------------------------
  // Permissions
  // ---------------------------------------------------------------------------

  /** The actions granted without asking. */
  const SafeActions: set<string> := {"backup", "read", "update_config", "add_memory"}

  /** The memory key of a decision; `h` is `hash()` of the joined file list. */
  function PermissionKey(action: string, h: int): string {
    "permission_" + action + "_" + IntText(h)
  }

  /** The `granted` field of a stored decision, `False` when missing. */
  predicate GrantedIn(v: Value)
    requires v.JObj?
  {
    IsTruthy(Get(v, "granted", JBool(false)))
  }

  /** A decision is cached under `key`: the recalled value is truthy. */
  predicate Decided(mem: map<string, Value>, key: string) {
    key in mem && IsTruthy(mem[key])
  }

  function PermissionRecord(granted: bool, action: string, files: seq<string>, reason: string, now: string): Value {
    JObj(map["granted" := JBool(granted), "action" := JStr(action),
             "files" := JArr(seq(|files|, i requires 0 <= i < |files| => JStr(files[i]))),
             "reason" := JStr(reason), "timestamp" := JStr(now)])
  }

  /** `request_permission`: a cached decision is answered from memory (a cached value that is
      no dict makes `.get` raise); otherwise the safe actions are granted, everything else
      refused, and the decision is stored. */
  function RequestPermission(mem: map<string, Value>, action: string, files: seq<string>, reason: string,
                             h: int, now: string): (r: (map<string, Value>, Result<bool, string>))
    ensures var key := PermissionKey(action, h);
            Decided(mem, key) ==>
              && r.0 == mem
              && (mem[key].JObj? ==> r.1 == Success(GrantedIn(mem[key])))
              && (!mem[key].JObj? ==> r.1.Failure?)
    ensures var key := PermissionKey(action, h);
            !Decided(mem, key) ==>
              && r.1 == Success(action in SafeActions)
              && r.0.Keys == mem.Keys + {key}
              && (forall k :: k in mem && k != key ==> r.0[k] == mem[k])
              && r.0[key].JObj? && Decided(r.0, key) && GrantedIn(r.0[key]) == (action in SafeActions)
  {
    var key := PermissionKey(action, h);
    if Decided(mem, key) then
      if mem[key].JObj? then (mem, Success(GrantedIn(mem[key])))
      else (mem, Failure("AttributeError: cached permission is not a dict"))
    else
      var granted := action in SafeActions;
      var record := PermissionRecord(granted, action, files, reason, now);
      assert "granted" in record.fields;
      (mem[key := record], Success(granted))
  }

  /** Asking again gives the same answer and stores nothing new. */
  lemma PermissionSticks(mem: map<string, Value>, action: string, files: seq<string>, reason: string,
                         h: int, now: string, files2: seq<string>, reason2: string, now2: string)
    requires RequestPermission(mem, action, files, reason, h, now).1.Success?
    ensures var (mem1, answer) := RequestPermission(mem, action, files, reason, h, now);
            RequestPermission(mem1, action, files2, reason2, h, now2) == (mem1, answer)
  {
  }

  /** "modify" is no safe action: without a cached grant it is refused. */
  lemma ModifyNeverAutoGranted(mem: map<string, Value>, files: seq<string>, reason: string, h: int, now: string)
    requires !Decided(mem, PermissionKey("modify", h))
    ensures RequestPermission(mem, "modify", files, reason, h, now).1 == Success(false)
  {
  }

  // ---------------------------------------------------------------------------
  // Paths
  // ---------------------------------------------------------------------------

  /** The files and directories the assistant may change. */
  const ModifiableFiles: set<string> := {
    "src/assistant/voice_models.py", "src/assistant/assistant_logic.py",
    "src/assistant/web_voice_assistant.py", "src/assistant/memory_manager.py",
    "src/assistant/self_modifier.py", ".claude/settings.json", "docs/", "memory/"
  }

  /** `project_root / file_path`: an absolute path replaces the root. */
  function FullPath(root: string, p: string): string {
    if StartsWith(p, "/") then p else root + "/" + p
  }

  /** The modifiable check as written: the full path ends with, or contains, a listed entry. */
  predicate IsModifiable(full: string) {
    exists m :: m in ModifiableFiles && (EndsWith(full, m) || Contains(full, m))
  }

  /** The `endswith` alternative adds nothing: the check is substring containment. */
  lemma ModifiableIsContainment(full: string)
    ensures IsModifiable(full) <==> exists m :: m in ModifiableFiles && Contains(full, m)
  {
    forall m | m in ModifiableFiles && EndsWith(full, m) ensures Contains(full, m) {
      EndsWithContains(full, m);
    }
  }

  /** A path through a listed directory that climbs back out with ".." passes the check. */
  lemma TraversalPassesGate(root: string, rest: string)
    ensures IsModifiable(FullPath(root, "docs/../" + rest))
    ensures !SafeModifiable("docs/../" + rest)
  {
    var p := "docs/../" + rest;
    var full := FullPath(root, p);
    assert !StartsWith(p, "/") by {
      assert p[0] == 'd';
    }
    assert OccursAt(full, "docs/", |root| + 1) by {
      assert full[|root| + 1..|root| + 6] == "docs/";
    }
    assert "docs/" in ModifiableFiles;
    assert OccursAt(p, "..", 5) by {
      assert p[5..7] == "..";
    }
  }

  /** The check the list evidently means: a relative path that is a listed file or lies
      under a listed directory, with no ".." anywhere in it. */
  predicate SafeModifiable(p: string) {
    && !StartsWith(p, "/")
    && !Contains(p, "..")
    && (p in ModifiableFiles || exists m :: m in ModifiableFiles && EndsWith(m, "/") && StartsWith(p, m))
  }

  /** The corrected check only narrows the written one, and what it accepts stays below the
      project root without climbing out of it. */
  lemma SafeModifiableNarrows(root: string, p: string)
    requires SafeModifiable(p)
    ensures IsModifiable(FullPath(root, p))
    ensures FullPath(root, p) == root + "/" + p && !Contains(p, "..")
  {
    var m;
    if p in ModifiableFiles {
      m := p;
      assert p[..|p|] == p;
    } else {
      m :| m in ModifiableFiles && EndsWith(m, "/") && StartsWith(p, m);
    }
    PrefixOccursBelowRoot(root, p, m);
  }

  /** A prefix of a relative path occurs in the path joined onto a root. */
  lemma PrefixOccursBelowRoot(root: string, p: string, m: string)
    requires StartsWith(p, m)
    ensures Contains(root + "/" + p, m)
  {
    var full := root + "/" + p;
    assert OccursAt(full, m, |root| + 1) by {
      assert full[|root| + 1..|root| + 1 + |m|] == p[..|m|];
    }
  }

  /** The last component of a path, Python `Path.name`. */
  function BaseName(full: string): string {
    var parts := Split(full, "/");
    parts[|parts| - 1]
  }

  /** Where `backup_file` copies a file: `<root>/backups/<name>_<stamp>.backup`. */
  function BackupPath(root: string, full: string, stamp: string): string {
    root + "/backups/" + BaseName(full) + "_" + stamp + ".backup"
  }

  /** Every backup lands in the backups directory under the root, named after the file's base
      name and the stamp, with the ".backup" suffix. */
  lemma BackupPathInBackups(root: string, full: string, stamp: string)
    ensures var bp := BackupPath(root, full, stamp);
            && StartsWith(bp, root + "/backups/" + BaseName(full) + "_" + stamp)
            && EndsWith(bp, ".backup")
  {
    var stem := root + "/backups/" + BaseName(full) + "_" + stamp;
    assert BackupPath(root, full, stamp) == stem + ".backup";
  }

  // ---------------------------------------------------------------------------
  // modify_file and add_to_file
  // ---------------------------------------------------------------------------

  /** How a file write ends: the text is written; opening the target fails and leaves it
      as it was; or the write breaks off after `open` truncated the target, leaving what was
      written so far. A `shutil.copy2` and an `open(..., 'w')` with its `write` both end in
      one of these ways. */
  datatype WriteOutcome = Written | OpenFailed | BrokenOff(partial: string)

  /** The files after writing `text` to `path` with outcome `w`. */
  function WriteFile(files: map<string, string>, path: string, text: string, w: WriteOutcome): map<string, string> {
    match w
    case Written => files[path := text]
    case OpenFailed => files
    case BrokenOff(partial) => files[path := partial]
  }

  /** The clock readings of one `modify_file` call: each `datetime.now()` is read separately,
      for the permission record, the modification key and the modification record, and
      `stamp` names the backup. */
  datatype Clock = Clock(asked: string, keyed: string, recorded: string, stamp: string)

  function ModificationKey(filePath: string, keyed: string): string {
    "modification_" + filePath + "_" + keyed
  }

  function ModificationRecord(filePath: string, reason: string, backup: Option<string>, recorded: string): Value {
    JObj(map["file" := JStr(filePath), "reason" := JStr(reason),
             "backup" := (if backup.Some? then JStr(backup.value) else JNull), "timestamp" := JStr(recorded)])
  }

  /** A stored "modify" grant: the only way `request_permission('modify', ...)` answers
      `True`, since "modify" is no safe action. */
  predicate ModifyGranted(mem: map<string, Value>, h: int) {
    var key := PermissionKey("modify", h);
    Decided(mem, key) && mem[key].JObj? && GrantedIn(mem[key])
  }

  /** The permission `modify_file` asks for is granted exactly when a grant is stored. */
  lemma ModifyGrantedIsPermission(mem: map<string, Value>, files: seq<string>, reason: string, h: int, asked: string)
    ensures RequestPermission(mem, "modify", files, reason, h, asked).1 == Success(true) <==> ModifyGranted(mem, h)
  {
    assert "modify" !in SafeActions;
  }

  /** The gates `modify_file` passes before it touches a file: a modifiable path and a
      stored "modify" grant. */
  predicate ModifyPermitted(s: Modifier, filePath: string, h: int) {
    IsModifiable(FullPath(s.root, filePath)) && ModifyGranted(s.memory, h)
  }

  /** The record a successful `modify_file` stores, naming the backup of an existing file. */
  function RecordFor(s: Modifier, filePath: string, reason: string, clock: Clock): Value {
    var full := FullPath(s.root, filePath);
    ModificationRecord(filePath, reason, if full in s.files then Some(BackupPath(s.root, full, clock.stamp)) else None,
                       clock.recorded)
  }

  /** `modify_file`: the gates in order (modifiable path, "modify" permission, a backup of an
      existing file), then the write and a modification record. Any exception after the
      gates is caught and answered with `False`, keeping what the failed copy or write left. */
  function ModifyFile(s: Modifier, filePath: string, content: string, reason: string,
                      h: int, clock: Clock, backup: WriteOutcome, write: WriteOutcome): (r: (Modifier, bool))
    ensures r.0.root == s.root
    ensures var full := FullPath(s.root, filePath);
            r.1 <==> && ModifyPermitted(s, filePath, h)
                     && (full in s.files ==> backup.Written?)
                     && write.Written?
    ensures !IsModifiable(FullPath(s.root, filePath)) ==> r == (s, false)
    ensures !ModifyPermitted(s, filePath, h) ==> r.0.files == s.files
    ensures var full := FullPath(s.root, filePath);
            var bp := BackupPath(s.root, full, clock.stamp);
            && r.0.files.Keys <= s.files.Keys + {full, bp}
            && (forall p :: p in s.files && p != full && p != bp ==> p in r.0.files && r.0.files[p] == s.files[p])
    ensures var key := PermissionKey("modify", h);
            !r.1 ==> && r.0.memory.Keys <= s.memory.Keys + {key}
                     && (forall k :: k in s.memory && k != key ==> k in r.0.memory && r.0.memory[k] == s.memory[k])
    ensures r.1 ==> r.0.memory == s.memory[ModificationKey(filePath, clock.keyed) := RecordFor(s, filePath, reason, clock)]
  {
    var full := FullPath(s.root, filePath);
    if !IsModifiable(full) then (s, false)
    else
      var (mem1, permission) := RequestPermission(s.memory, "modify", [filePath], reason, h, clock.asked);
      ModifyGrantedIsPermission(s.memory, [filePath], reason, h, clock.asked);
      if permission != Success(true) then (s.(memory := mem1), false)
      else BackupStage(s, full, filePath, content, reason, clock, backup, write)
  }

  /** What follows the gates: the backup of an existing file and, when it succeeds, the
      write. A failed backup leaves the target alone and answers `False`. */
  function BackupStage(s: Modifier, full: string, filePath: string, content: string,
                       reason: string, clock: Clock, backup: WriteOutcome, write: WriteOutcome): (r: (Modifier, bool))
    requires full == FullPath(s.root, filePath)
    ensures r.0.root == s.root
    ensures r.1 <==> (full in s.files ==> backup.Written?) && write.Written?
    ensures r.1 ==> r.0.memory == s.memory[ModificationKey(filePath, clock.keyed) := RecordFor(s, filePath, reason, clock)]
    ensures !r.1 ==> r.0.memory == s.memory
    ensures var bp := BackupPath(s.root, full, clock.stamp);
            && r.0.files.Keys <= s.files.Keys + {full, bp}
            && (forall p :: p in s.files && p != full && p != bp ==> p in r.0.files && r.0.files[p] == s.files[p])
    ensures var bp := BackupPath(s.root, full, clock.stamp);
            full in s.files && bp != full && !backup.Written? ==>
              && full in r.0.files && r.0.files[full] == s.files[full]
              && (backup.OpenFailed? ==> r.0.files == s.files)
              && (backup.BrokenOff? ==> bp in r.0.files && r.0.files[bp] == backup.partial)
    ensures var bp := BackupPath(s.root, full, clock.stamp);
            (full in s.files ==> backup.Written?) ==>
              && (full in s.files && bp != full ==> bp in r.0.files && r.0.files[bp] == s.files[full])
              && (write.Written? ==> full in r.0.files && r.0.files[full] == content)
              && (write.BrokenOff? ==> full in r.0.files && r.0.files[full] == write.partial)
              && (write.OpenFailed? && full in s.files && bp != full ==> full in r.0.files && r.0.files[full] == s.files[full])
              && (write.OpenFailed? && full !in s.files ==> r.0.files == s.files)
  {
    if full in s.files && !backup.Written? then
      (s.(files := WriteFile(s.files, BackupPath(s.root, full, clock.stamp), s.files[full], backup)), false)
    else Commit(s, full, filePath, content, reason, clock, write)
  }

  /** A failed backup of an existing file stops `modify_file` before the write: the target
      keeps its text, and a copy that broke off leaves a partial backup behind. */
  lemma FailedBackupKeepsTarget(s: Modifier, filePath: string, content: string, reason: string,
                                h: int, clock: Clock, backup: WriteOutcome, write: WriteOutcome)
    requires ModifyPermitted(s, filePath, h)
    requires FullPath(s.root, filePath) in s.files && !backup.Written?
    requires BackupPath(s.root, FullPath(s.root, filePath), clock.stamp) != FullPath(s.root, filePath)
    ensures var r := ModifyFile(s, filePath, content, reason, h, clock, backup, write);
            var full := FullPath(s.root, filePath);
            var bp := BackupPath(s.root, full, clock.stamp);
            && !r.1 && full in r.0.files && r.0.files[full] == s.files[full]
            && (backup.OpenFailed? ==> r.0.files == s.files)
            && (backup.BrokenOff? ==> bp in r.0.files && r.0.files[bp] == backup.partial)
  {
    var full := FullPath(s.root, filePath);
    assert ModifyFile(s, filePath, content, reason, h, clock, backup, write)
        == BackupStage(s, full, filePath, content, reason, clock, backup, write);
  }

  /** After a good backup the write decides: the content, or nothing when `open` fails, or
      the text written before the error; the backup holds the old text in every case. */
  lemma WriteOutcomeAfterBackup(s: Modifier, filePath: string, content: string, reason: string,
                                h: int, clock: Clock, backup: WriteOutcome, write: WriteOutcome)
    requires ModifyPermitted(s, filePath, h)
    requires FullPath(s.root, filePath) in s.files ==> backup.Written?
    ensures var r := ModifyFile(s, filePath, content, reason, h, clock, backup, write);
            var full := FullPath(s.root, filePath);
            var bp := BackupPath(s.root, full, clock.stamp);
            && (full in s.files && bp != full ==> bp in r.0.files && r.0.files[bp] == s.files[full])
            && (write.Written? ==> full in r.0.files && r.0.files[full] == content)
            && (write.BrokenOff? ==> full in r.0.files && r.0.files[full] == write.partial)
            && (write.OpenFailed? && full in s.files && bp != full ==> full in r.0.files && r.0.files[full] == s.files[full])
            && (write.OpenFailed? && full !in s.files ==> r.0.files == s.files)
  {
    var full := FullPath(s.root, filePath);
    assert ModifyFile(s, filePath, content, reason, h, clock, backup, write)
        == BackupStage(s, full, filePath, content, reason, clock, backup, write);
  }

  /** The write of a permitted `modify_file` whose backup, if any, succeeded: the old text is
      in the backup, then the content is written and, only if that succeeds, the
      modification recorded. */
  function Commit(s: Modifier, full: string, filePath: string, content: string,
                  reason: string, clock: Clock, write: WriteOutcome): (r: (Modifier, bool))
    requires full == FullPath(s.root, filePath)
    ensures r.0.root == s.root
    ensures r.1 <==> write.Written?
    ensures r.1 ==> r.0.memory == s.memory[ModificationKey(filePath, clock.keyed) := RecordFor(s, filePath, reason, clock)]
    ensures !r.1 ==> r.0.memory == s.memory
    ensures var bp := BackupPath(s.root, full, clock.stamp);
            && (full in s.files && bp != full ==> bp in r.0.files && r.0.files[bp] == s.files[full])
            && r.0.files.Keys <= s.files.Keys + {full, bp}
            && (forall p :: p in s.files && p != full && p != bp ==> p in r.0.files && r.0.files[p] == s.files[p])
            && (write.Written? ==> full in r.0.files && r.0.files[full] == content)
            && (write.BrokenOff? ==> full in r.0.files && r.0.files[full] == write.partial)
            && (write.OpenFailed? && full in s.files && bp != full ==> full in r.0.files && r.0.files[full] == s.files[full])
            && (write.OpenFailed? && full !in s.files ==> r.0.files == s.files)
  {
    var backup := if full in s.files then Some(BackupPath(s.root, full, clock.stamp)) else None;
    var files1 := if backup.Some? then s.files[backup.value := s.files[full]] else s.files;
    var files2 := WriteFile(files1, full, content, write);
    if write.Written? then
      var record := ModificationRecord(filePath, reason, backup, clock.recorded);
      (Modifier(s.root, s.memory[ModificationKey(filePath, clock.keyed) := record], files2), true)
    else (s.(files := files2), false)
  }

  /** A write that breaks off after the backup answers `False` and stores no record: the old
      text survives only in the backup, and no rollback can reach it by the modification's
      key. */
  lemma BrokenWriteOrphansBackup(s: Modifier, filePath: string, content: string, reason: string,
                                 h: int, clock: Clock, partial: string, copy: WriteOutcome)
    requires ModifyPermitted(s, filePath, h)
    requires FullPath(s.root, filePath) in s.files
    requires BackupPath(s.root, FullPath(s.root, filePath), clock.stamp) != FullPath(s.root, filePath)
    requires ModificationKey(filePath, clock.keyed) !in s.memory
    ensures var r := ModifyFile(s, filePath, content, reason, h, clock, Written, BrokenOff(partial));
            var full := FullPath(s.root, filePath);
            && !r.1
            && r.0.files[full] == partial
            && r.0.files[BackupPath(s.root, full, clock.stamp)] == s.files[full]
            && !Rollback(r.0, ModificationKey(filePath, clock.keyed), copy).1
  {
    var r := ModifyFile(s, filePath, content, reason, h, clock, Written, BrokenOff(partial));
    var mk := ModificationKey(filePath, clock.keyed);
    assert mk != PermissionKey("modify", h) by {
      assert mk[0] == 'm' && PermissionKey("modify", h)[0] == 'p';
    }
    assert mk !in r.0.memory;
  }

  /** `add_to_file`: a missing file gets the content alone; "start" puts the content and a
      newline before the existing text, any other position puts a newline and the content
      after it. The result is `modify_file`'s. */
  function AddToFile(s: Modifier, filePath: string, content: string, position: string, reason: string,
                     h: int, clock: Clock, backup: WriteOutcome, write: WriteOutcome): (r: (Modifier, bool))
    ensures var full := FullPath(s.root, filePath);
            r.1 <==> && ModifyPermitted(s, filePath, h)
                     && (full in s.files ==> backup.Written?)
                     && write.Written?
    ensures !ModifyPermitted(s, filePath, h) ==> r.0.files == s.files
    ensures var full := FullPath(s.root, filePath);
            var bp := BackupPath(s.root, full, clock.stamp);
            && r.0.files.Keys <= s.files.Keys + {full, bp}
            && (forall p :: p in s.files && p != full && p != bp ==> p in r.0.files && r.0.files[p] == s.files[p])
    ensures r.1 ==> r.0.memory == s.memory[ModificationKey(filePath, clock.keyed) := RecordFor(s, filePath, reason, clock)]
    ensures var full := FullPath(s.root, filePath);
            r.1 ==> (full in r.0.files &&
              if full !in s.files then r.0.files[full] == content
              else if position == "start" then
                StartsWith(r.0.files[full], content + "\n") && EndsWith(r.0.files[full], s.files[full])
                && |r.0.files[full]| == |content| + 1 + |s.files[full]|
              else
                StartsWith(r.0.files[full], s.files[full]) && EndsWith(r.0.files[full], "\n" + content)
                && |r.0.files[full]| == |s.files[full]| + 1 + |content|)
  {
    var full := FullPath(s.root, filePath);
    if full !in s.files then ModifyFile(s, filePath, content, reason, h, clock, backup, write)
    else
      var existing := s.files[full];
      var updated := if position == "start" then content + "\n" + existing else existing + "\n" + content;
      assert position == "start" ==> updated[..|content| + 1] == content + "\n" && updated[|updated| - |existing|..] == existing;
      assert position != "start" ==> updated[..|existing|] == existing && updated[|updated| - |content| - 1..] == "\n" + content;
      ModifyFile(s, filePath, updated, reason, h, clock, backup, write)
  }

  // ---------------------------------------------------------------------------
  // update_config
  // ---------------------------------------------------------------------------

  /** The configuration `update_config` starts from: the parsed file, or `{}` when there is
      none; `None` when the text is no JSON. */
  function LoadedConfig(files: map<string, string>, full: string, parse: string -> Option<Value>): Option<Value> {
    if full in files then parse(files[full]) else Some(JObj(map[]))
  }

  /** The merged configuration. A loaded value that is no object only survives an empty
      update: any key assignment on it raises. */
  function MergedConfig(config: Value, updates: map<string, Value>): (r: Option<Value>)
    ensures r.Some? && r.value.JObj? ==> Subsumes(r.value.fields, updates)
    ensures config.JObj? ==> r.Some? && r.value.JObj? && r.value.fields.Keys == config.fields.Keys + updates.Keys
    ensures !config.JObj? ==> (r.Some? <==> updates == map[])
  {
    if config.JObj? then
      DeepUpdateSubsumes(config.fields, updates);
      Some(JObj(DeepUpdate(config.fields, updates)))
    else if updates == map[] then Some(config)
    else None
  }

  /** `update_config`: the "update_config" permission (granted by default, its record stamped
      `asked`), the merge, and `modify_file` with the dumped text. `parse` and `dumps` are
      `json.load` and `json.dumps(..., indent=2)`. */
  function UpdateConfig(s: Modifier, configPath: string, updates: map<string, Value>, reason: string,
                        h: int, asked: string, clock: Clock, backup: WriteOutcome, write: WriteOutcome,
                        parse: string -> Option<Value>, dumps: Value -> string): (r: (Modifier, bool))
    ensures var full := FullPath(s.root, configPath);
            var loaded := LoadedConfig(s.files, full, parse);
            (|| RequestPermission(s.memory, "update_config", [configPath], reason, h, asked).1 != Success(true)
             || loaded.None? || MergedConfig(loaded.value, updates).None?) ==> !r.1 && r.0.files == s.files
    ensures var full := FullPath(s.root, configPath);
            var bp := BackupPath(s.root, full, clock.stamp);
            && r.0.files.Keys <= s.files.Keys + {full, bp}
            && (forall p :: p in s.files && p != full && p != bp ==> p in r.0.files && r.0.files[p] == s.files[p])
    ensures r.1 ==> ModifyGranted(s.memory, h)
    ensures r.1 ==> backup.Written? || FullPath(s.root, configPath) !in s.files
    ensures r.1 ==> write.Written?
    ensures var full := FullPath(s.root, configPath);
            r.1 ==>
              && LoadedConfig(s.files, full, parse).Some?
              && MergedConfig(LoadedConfig(s.files, full, parse).value, updates).Some?
              && full in r.0.files
              && r.0.files[full] == dumps(MergedConfig(LoadedConfig(s.files, full, parse).value, updates).value)
    ensures var ukey := PermissionKey("update_config", h);
            var key := PermissionKey("modify", h);
            var mk := ModificationKey(configPath, clock.keyed);
            forall k :: k in s.memory && k != ukey && k != key && k != mk ==> k in r.0.memory && r.0.memory[k] == s.memory[k]
  {
    var (mem1, permission) := RequestPermission(s.memory, "update_config", [configPath], reason, h, asked);
    if permission != Success(true) then (s.(memory := mem1), false)
    else
      ConfigPermissionKeepsGrant(s.memory, [configPath], reason, h, asked);
      WriteConfig(s.(memory := mem1), configPath, updates, reason, h, clock, backup, write, parse, dumps)
  }

  /** The part of `update_config` after its permission: load, merge, and `modify_file`. */
  function WriteConfig(s: Modifier, configPath: string, updates: map<string, Value>, reason: string,
                       h: int, clock: Clock, backup: WriteOutcome, write: WriteOutcome,
                       parse: string -> Option<Value>, dumps: Value -> string): (r: (Modifier, bool))
    ensures r.0.root == s.root
    ensures var full := FullPath(s.root, configPath);
            var loaded := LoadedConfig(s.files, full, parse);
            loaded.None? || MergedConfig(loaded.value, updates).None? ==> r == (s, false)
    ensures var full := FullPath(s.root, configPath);
            var bp := BackupPath(s.root, full, clock.stamp);
            && r.0.files.Keys <= s.files.Keys + {full, bp}
            && (forall p :: p in s.files && p != full && p != bp ==> p in r.0.files && r.0.files[p] == s.files[p])
    ensures r.1 ==> ModifyGranted(s.memory, h) && write.Written?
    ensures r.1 ==> backup.Written? || FullPath(s.root, configPath) !in s.files
    ensures var full := FullPath(s.root, configPath);
            r.1 ==>
              && LoadedConfig(s.files, full, parse).Some?
              && MergedConfig(LoadedConfig(s.files, full, parse).value, updates).Some?
              && full in r.0.files
              && r.0.files[full] == dumps(MergedConfig(LoadedConfig(s.files, full, parse).value, updates).value)
    ensures var key := PermissionKey("modify", h);
            var mk := ModificationKey(configPath, clock.keyed);
            forall k :: k in s.memory && k != key && k != mk ==> k in r.0.memory && r.0.memory[k] == s.memory[k]
  {
    var full := FullPath(s.root, configPath);
    match LoadedConfig(s.files, full, parse)
    case None => (s, false)
    case Some(config) =>
      match MergedConfig(config, updates)
      case None => (s, false)
      case Some(merged) => ModifyFile(s, configPath, dumps(merged), reason, h, clock, backup, write)
  }

  /** Asking for "update_config" touches only its own key: the "modify" grant and every
      other key are as before. */
  lemma ConfigPermissionKeepsGrant(mem: map<string, Value>, files: seq<string>, reason: string, h: int, asked: string)
    ensures var mem1 := RequestPermission(mem, "update_config", files, reason, h, asked).0;
            var ukey := PermissionKey("update_config", h);
            && (ModifyGranted(mem1, h) <==> ModifyGranted(mem, h))
            && mem1.Keys <= mem.Keys + {ukey}
            && (forall k :: k in mem && k != ukey ==> k in mem1 && mem1[k] == mem[k])
  {
    PermissionKeysDiffer(h);
  }

  lemma PermissionKeysDiffer(h: int)
    ensures PermissionKey("update_config", h) != PermissionKey("modify", h)
  {
    assert PermissionKey("update_config", h)[11] == 'u';
    assert PermissionKey("modify", h)[11] == 'm';
  }

  /** A new configuration file holds the merge of `{}` with the updates: exactly their keys,
      and every update at every depth where both sides are objects. */
  lemma UpdateConfigWritesUpdates(s: Modifier, configPath: string, updates: map<string, Value>, reason: string,
                                  h: int, asked: string, clock: Clock, backup: WriteOutcome, write: WriteOutcome,
                                  parse: string -> Option<Value>, dumps: Value -> string)
    requires UpdateConfig(s, configPath, updates, reason, h, asked, clock, backup, write, parse, dumps).1
    requires FullPath(s.root, configPath) !in s.files
    ensures MergedConfig(JObj(map[]), updates).Some? && MergedConfig(JObj(map[]), updates).value.JObj?
    ensures var r := UpdateConfig(s, configPath, updates, reason, h, asked, clock, backup, write, parse, dumps);
            var cfg := MergedConfig(JObj(map[]), updates).value.fields;
            && r.0.files[FullPath(s.root, configPath)] == dumps(JObj(cfg))
            && cfg.Keys == updates.Keys && Subsumes(cfg, updates)
  {
    assert LoadedConfig(s.files, FullPath(s.root, configPath), parse) == Some(JObj(map[]));
  }

  // ---------------------------------------------------------------------------
  // History and rollback
  // ---------------------------------------------------------------------------

  const ModificationPrefix := "modification_"

  predicate IsModificationEntry(e: (string, Value)) {
    StartsWith(e.0, ModificationPrefix)
  }

  /** The values stored under "modification_" keys, in listing order. */
  function ModificationValues(entries: seq<(string, Value)>): (r: seq<Value>)
    ensures |r| <= |entries|
    ensures forall i :: 0 <= i < |entries| && IsModificationEntry(entries[i]) ==> entries[i].1 in r
    ensures forall v :: v in r ==> exists i :: 0 <= i < |entries| && IsModificationEntry(entries[i]) && entries[i].1 == v
  {
    if entries == [] then []
    else
      var rest := ModificationValues(entries[1..]);
      forall v | v in rest
        ensures exists i :: 0 <= i < |entries| && IsModificationEntry(entries[i]) && entries[i].1 == v
      {
        var i :| 0 <= i < |entries[1..]| && IsModificationEntry(entries[1..][i]) && entries[1..][i].1 == v;
        assert entries[i + 1] == entries[1..][i];
      }
      forall i | 1 <= i < |entries| && IsModificationEntry(entries[i]) ensures entries[i].1 in rest {
        assert entries[i] == entries[1..][i - 1];
      }
      if IsModificationEntry(entries[0]) then [entries[0].1] + rest else rest
  }

  /** Each entry contributes on its own, in listing order: every modification record is
      kept once per entry that holds it. */
  lemma {:induction false} ModificationValuesAppend(a: seq<(string, Value)>, b: seq<(string, Value)>)
    ensures ModificationValues(a + b) == ModificationValues(a) + ModificationValues(b)
    ensures multiset(ModificationValues(a + b)) == multiset(ModificationValues(a)) + multiset(ModificationValues(b))
    decreases |a|
  {
    if a == [] {
      assert a + b == b;
    } else {
      assert (a + b)[0] == a[0] && (a + b)[1..] == a[1..] + b;
      ModificationValuesAppend(a[1..], b);
    }
  }

  /** One entry's contribution: its value, when its key has the "modification_" prefix. */
  lemma ModificationValuesOfEntry(e: (string, Value))
    ensures ModificationValues([e]) == if IsModificationEntry(e) then [e.1] else []
  {
    assert [e][1..] == [];
  }

  /** The sort key `x.get('timestamp', '')` of a record `sorted` can order. */
  function TimestampOf(v: Value): string {
    if v.JObj? && "timestamp" in v.fields && v.fields["timestamp"].JStr? then v.fields["timestamp"].s else ""
  }

  /** How `sorted` fails: the key function calls `.get` on a record that is not a dict
      (AttributeError), or it compares a timestamp that is not a string with another key
      (TypeError). */
  datatype HistoryError = RecordNotDict | TimestampNotString

  /** A timestamp `sorted` compares as a string: missing (the `''` default) or a string. */
  predicate StringTimestamp(v: Value)
    requires v.JObj?
  {
    "timestamp" !in v.fields || v.fields["timestamp"].JStr?
  }

  /** Records `sorted` can order: all dicts and, once there are two to compare, all with
      string keys. */
  predicate Sortable(vs: seq<Value>) {
    && (forall k :: 0 <= k < |vs| ==> vs[k].JObj?)
    && (|vs| >= 2 ==> forall k :: 0 <= k < |vs| ==> StringTimestamp(vs[k]))
  }

  /** `get_modification_history`: the modification records, newest timestamp first; records
      with equal timestamps keep their listing order. `entries` is the memory store's listing.
      Nothing catches an exception from `sorted`, so it reaches the caller. */
  function ModificationHistory(entries: seq<(string, Value)>): (r: Result<seq<Value>, HistoryError>)
    ensures r.Success? <==> Sortable(ModificationValues(entries))
    ensures r == Failure(RecordNotDict) <==> exists v :: v in ModificationValues(entries) && !v.JObj?
    ensures r.Success? ==> multiset(r.value) == multiset(ModificationValues(entries))
    ensures r.Success? ==> forall v :: v in r.value <==> v in ModificationValues(entries)
    ensures r.Success? ==> NonIncreasing(r.value, TimestampOf, StrLt)
    ensures r.Success? ==> forall t :: WithKey(r.value, TimestampOf, t) == WithKey(ModificationValues(entries), TimestampOf, t)
  {
    var vs := ModificationValues(entries);
    if exists k :: 0 <= k < |vs| && !vs[k].JObj? then Failure(RecordNotDict)
    else if !Sortable(vs) then Failure(TimestampNotString)
    else
      StrLtIsStrictTotal();
      var r := SortDesc(vs, TimestampOf, StrLt);
      assert forall v :: v in r <==> v in multiset(r);
      Success(r)
  }

  /** What `rollback_modification` needs from a record: a truthy dict with a truthy string
      `backup` and a string `file`; the backup path and the file path. */
  function RollbackPlan(mem: map<string, Value>, id: string): (r: Option<(string, string)>)
    ensures r.Some? ==> id in mem && mem[id].JObj? && "backup" in mem[id].fields && "file" in mem[id].fields
    ensures r.Some? ==> mem[id].fields["backup"] == JStr(r.value.0) && r.value.0 != ""
    ensures r.Some? ==> mem[id].fields["file"] == JStr(r.value.1)
  {
    if !Decided(mem, id) || !mem[id].JObj? then None
    else
      var b := Get(mem[id], "backup", JNull);
      if !IsTruthy(b) || !b.JStr? || "file" !in mem[id].fields || !mem[id].fields["file"].JStr? then None
      else Some((b.s, mem[id].fields["file"].s))
  }

  /** `rollback_modification`: copies the recorded backup over the recorded file, when the
      backup still exists. A copy that fails answers `False` and keeps what it left. */
  function Rollback(s: Modifier, id: string, copy: WriteOutcome): (r: (Modifier, bool))
    ensures r.0.root == s.root && r.0.memory == s.memory
    ensures r.1 <==> RollbackPlan(s.memory, id).Some? && RollbackPlan(s.memory, id).value.0 in s.files && copy.Written?
    ensures RollbackPlan(s.memory, id).None? || RollbackPlan(s.memory, id).value.0 !in s.files || copy.OpenFailed? ==>
              r.0.files == s.files
    ensures RollbackPlan(s.memory, id).Some? && RollbackPlan(s.memory, id).value.0 in s.files ==>
              var (backup, file) := RollbackPlan(s.memory, id).value;
              && (copy.Written? ==> r.0.files == s.files[FullPath(s.root, file) := s.files[backup]])
              && (copy.BrokenOff? ==> r.0.files == s.files[FullPath(s.root, file) := copy.partial])
  {
    match RollbackPlan(s.memory, id)
    case None => (s, false)
    case Some((backup, file)) =>
      if backup in s.files then
        (s.(files := WriteFile(s.files, FullPath(s.root, file), s.files[backup], copy)), copy.Written?)
      else (s, false)
  }

  /** Rolling back a successful modification of an existing file restores its old text. */
  lemma ModifyThenRollbackRestores(s: Modifier, filePath: string, content: string, reason: string,
                                   h: int, clock: Clock, backup: WriteOutcome, write: WriteOutcome)
    requires ModifyFile(s, filePath, content, reason, h, clock, backup, write).1
    requires FullPath(s.root, filePath) in s.files
    requires BackupPath(s.root, FullPath(s.root, filePath), clock.stamp) != FullPath(s.root, filePath)
    ensures var s1 := ModifyFile(s, filePath, content, reason, h, clock, backup, write).0;
            var r := Rollback(s1, ModificationKey(filePath, clock.keyed), Written);
            r.1 && r.0.files[FullPath(s.root, filePath)] == s.files[FullPath(s.root, filePath)]
  {
    var s1 := ModifyFile(s, filePath, content, reason, h, clock, backup, write).0;
    var full := FullPath(s.root, filePath);
    var bp := BackupPath(s.root, full, clock.stamp);
    var mk := ModificationKey(filePath, clock.keyed);
    assert bp != "" by {
      assert |bp| >= |s.root + "/backups/"|;
    }
    RecordedBackupPlan(s1.memory, mk, filePath, reason, bp, clock.recorded);
    assert bp in s1.files && s1.files[bp] == s.files[full];
  }

  /** A stored record naming a backup gives the rollback plan that backup and its file. */
  lemma RecordedBackupPlan(mem: map<string, Value>, mk: string, filePath: string, reason: string, bp: string, recorded: string)
    requires mk in mem && mem[mk] == ModificationRecord(filePath, reason, Some(bp), recorded) && bp != ""
    ensures RollbackPlan(mem, mk) == Some((bp, filePath))
  {
    var record := mem[mk];
    assert record.fields["backup"] == JStr(bp) && IsTruthy(JStr(bp));
    assert record.fields["file"] == JStr(filePath);
    assert Decided(mem, mk);
  }

  /** A modification that created the file recorded no backup, so it cannot be rolled back. */
  lemma NewFileCannotRollBack(s: Modifier, filePath: string, content: string, reason: string,
                              h: int, clock: Clock, backup: WriteOutcome, write: WriteOutcome, copy: WriteOutcome)
    requires ModifyFile(s, filePath, content, reason, h, clock, backup, write).1
    requires FullPath(s.root, filePath) !in s.files
    ensures var s1 := ModifyFile(s, filePath, content, reason, h, clock, backup, write).0;
            !Rollback(s1, ModificationKey(filePath, clock.keyed), copy).1
  {
    var s1 := ModifyFile(s, filePath, content, reason, h, clock, backup, write).0;
    var mk := ModificationKey(filePath, clock.keyed);
    assert s1.memory[mk].fields["backup"] == JNull;
  }
}
