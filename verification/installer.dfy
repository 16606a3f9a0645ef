/**
 * The package installer script: how a package spec becomes pip's argument list, how one
 * pip run becomes a success flag and an error text, how the attempts split into successes
 * and failures, and the summary drawn from them.
 *
 * pip itself is a parameter: a function from the command line to its outcome. Colours,
 * printing and the half-second pauses are not modelled.
 */
module Installer {
  import opened Wrappers
  import opened Text

  // ---------------------------------------------------------------------------
  // Specs to pip arguments
  // ---------------------------------------------------------------------------

  predicate IsFlag(part: string) {
    StartsWith(part, "--")
  }

  /** Some already collected argument holds `part` as a substring. */
  predicate InSomeArg(part: string, extra: seq<string>) {
    exists a :: a in extra && Contains(a, part)
  }

  /** The loop over `spec.split()` as written, from token `i` on: a flag joins the extra
      arguments together with the next token when that is no flag; the package is the first
      token that no collected argument contains; the loop stops there. */
  function ScanParts(parts: seq<string>, i: nat, extra: seq<string>): (string, seq<string>)
    requires i <= |parts|
    decreases |parts| - i
  {
    if i == |parts| then ("", extra)
    else if IsFlag(parts[i]) then
      var value := if i + 1 < |parts| && !IsFlag(parts[i + 1]) then [parts[i + 1]] else [];
      ScanParts(parts, i + 1, extra + [parts[i]] + value)
    else if InSomeArg(parts[i], extra) then ScanParts(parts, i + 1, extra)
    else (parts[i], extra)
  }

  /** What the scan yields: extra arguments taken from the spec's words, in collection order;
      a package that is a word, no flag and in no extra argument; and an empty package only
      when every remaining word that is no flag sits inside an extra argument. */
  lemma {:induction false} ScanPartsSound(parts: seq<string>, i: nat, extra: seq<string>)
    requires i <= |parts|
    requires forall k :: 0 <= k < |parts| ==> parts[k] != ""
    requires forall a :: a in extra ==> a in parts
    ensures var r := ScanParts(parts, i, extra);
            && (forall a :: a in r.1 ==> a in parts)
            && |extra| <= |r.1| && r.1[..|extra|] == extra
            && (r.0 != "" ==> r.0 in parts[i..] && !IsFlag(r.0) && !InSomeArg(r.0, r.1))
            && (r.0 == "" ==> forall k :: i <= k < |parts| && !IsFlag(parts[k]) ==> InSomeArg(parts[k], r.1))
    decreases |parts| - i
  {
    if i == |parts| {
    } else if IsFlag(parts[i]) {
      var value := if i + 1 < |parts| && !IsFlag(parts[i + 1]) then [parts[i + 1]] else [];
      var extra1 := extra + [parts[i]] + value;
      ScanPartsSound(parts, i + 1, extra1);
      var r := ScanParts(parts, i + 1, extra1);
      assert extra1[..|extra|] == extra;
      assert r.1[..|extra|] == (r.1[..|extra1|])[..|extra|];
      if value != [] {
        var a := r.1[|extra| + 1];
        assert a == extra1[|extra| + 1] == parts[i + 1];
        assert OccursAt(a, parts[i + 1], 0);
        assert a in r.1 && Contains(a, parts[i + 1]);
      }
    } else if InSomeArg(parts[i], extra) {
      ScanPartsSound(parts, i + 1, extra);
      var r := ScanParts(parts, i + 1, extra);
      forall a | a in extra && Contains(a, parts[i]) ensures a in r.1 {
        var k :| 0 <= k < |extra| && extra[k] == a;
        assert r.1[..|extra|][k] == a;
      }
    }
  }

  /** What token `k` adds to the extra arguments: a flag, followed by the next token when
      that is no flag; any other token adds nothing. */
  function FlagArg(parts: seq<string>, k: nat): seq<string>
    requires k < |parts|
  {
    if IsFlag(parts[k]) then [parts[k]] + (if k + 1 < |parts| && !IsFlag(parts[k + 1]) then [parts[k + 1]] else [])
    else []
  }

  /** The extra arguments tokens `i` up to `j` add, in order. */
  function FlagArgs(parts: seq<string>, i: nat, j: nat): seq<string>
    requires i <= j <= |parts|
    decreases j - i
  {
    if i == j then [] else FlagArg(parts, i) + FlagArgs(parts, i + 1, j)
  }

  /** The scan from token `i` stopped at token `j`: the extra arguments are exactly those the
      tokens before `j` add, in order; token `j`, if any, is the package, a non-flag in no
      extra argument; every earlier non-flag token sat inside an extra argument collected
      before it. */
  ghost predicate StoppedAt(parts: seq<string>, i: nat, extra: seq<string>, r: (string, seq<string>), j: nat)
  {
    && i <= j <= |parts|
    && r.1 == extra + FlagArgs(parts, i, j)
    && (j < |parts| ==> r.0 == parts[j] && !IsFlag(parts[j]) && !InSomeArg(parts[j], r.1))
    && (j == |parts| ==> r.0 == "")
    && (forall k :: i <= k < j && !IsFlag(parts[k]) ==> InSomeArg(parts[k], extra + FlagArgs(parts, i, k)))
  }

  /** A token that is a flag, or that an earlier argument contains, is skipped: the scan goes
      on with that token's extra arguments appended. */
  lemma ScanPartsSkips(parts: seq<string>, i: nat, extra: seq<string>)
    requires i < |parts| && (IsFlag(parts[i]) || InSomeArg(parts[i], extra))
    ensures ScanParts(parts, i, extra) == ScanParts(parts, i + 1, extra + FlagArg(parts, i))
  {
    if IsFlag(parts[i]) {
      var value := if i + 1 < |parts| && !IsFlag(parts[i + 1]) then [parts[i + 1]] else [];
      assert extra + [parts[i]] + value == extra + FlagArg(parts, i);
    } else {
      assert extra + FlagArg(parts, i) == extra;
    }
  }

  /** Stopping at `j` from `i + 1` after skipping token `i` is stopping at `j` from `i`. */
  lemma StoppedAtStep(parts: seq<string>, i: nat, extra: seq<string>, r: (string, seq<string>), j: nat)
    requires i < |parts| && (IsFlag(parts[i]) || InSomeArg(parts[i], extra))
    requires StoppedAt(parts, i + 1, extra + FlagArg(parts, i), r, j)
    ensures StoppedAt(parts, i, extra, r, j)
  {
    var extra1 := extra + FlagArg(parts, i);
    assert r.1 == extra + FlagArgs(parts, i, j) by {
      FlagArgsCons(parts, i, j, extra);
    }
    forall k | i <= k < j && !IsFlag(parts[k])
      ensures InSomeArg(parts[k], extra + FlagArgs(parts, i, k))
    {
      if k == i {
        assert extra + FlagArgs(parts, i, i) == extra;
      } else {
        assert InSomeArg(parts[k], extra1 + FlagArgs(parts, i + 1, k));
        FlagArgsCons(parts, i, k, extra);
      }
    }
  }

  /** Appending token `i`'s arguments and then those of `i + 1` up to `k` appends those of
      `i` up to `k`. */
  lemma FlagArgsCons(parts: seq<string>, i: nat, k: nat, extra: seq<string>)
    requires i < k <= |parts|
    ensures extra + FlagArg(parts, i) + FlagArgs(parts, i + 1, k) == extra + FlagArgs(parts, i, k)
  {
  }

  /** The scan is complete as well as sound: the package is the first token that no earlier
      collected argument contains, and the extra arguments are every flag before it, each
      with its value. */
  lemma {:induction false} ScanPartsExact(parts: seq<string>, i: nat, extra: seq<string>)
    requires i <= |parts|
    ensures exists j :: StoppedAt(parts, i, extra, ScanParts(parts, i, extra), j)
    decreases |parts| - i
  {
    var r := ScanParts(parts, i, extra);
    if i == |parts| {
      assert StoppedAt(parts, i, extra, r, i);
    } else if IsFlag(parts[i]) || InSomeArg(parts[i], extra) {
      ScanPartsSkips(parts, i, extra);
      ScanPartsExact(parts, i + 1, extra + FlagArg(parts, i));
      var j :| StoppedAt(parts, i + 1, extra + FlagArg(parts, i), r, j);
      StoppedAtStep(parts, i, extra, r, j);
    } else {
      assert StoppedAt(parts, i, extra, r, i);
    }
  }

  /** The tokenizer as written: a spec starting with "--" is split into words and scanned;
      any other spec is passed whole, as one argument. */
  function SpecArguments(spec: string): (r: (string, seq<string>))
    ensures !IsFlag(spec) ==> r == (spec, [])
    ensures IsFlag(spec) ==> forall a :: a in r.1 ==> a in Words(spec)
    ensures IsFlag(spec) && r.0 != "" ==> r.0 in Words(spec) && !IsFlag(r.0) && !InSomeArg(r.0, r.1)
    ensures IsFlag(spec) ==> exists j :: StoppedAt(Words(spec), 0, [], r, j)
  {
    if IsFlag(spec) then
      ScanPartsSound(Words(spec), 0, []);
      ScanPartsExact(Words(spec), 0, []);
      ScanParts(Words(spec), 0, [])
    else (spec, [])
  }

  /** `[sys.executable, "-m", "pip", "install"] + extra_args + [package]`. */
  function InstallCommand(python: string, package: string, extra: seq<string>): (cmd: seq<string>)
    ensures |cmd| == 5 + |extra|
    ensures cmd[..4] == [python, "-m", "pip", "install"]
    ensures cmd[4..|cmd| - 1] == extra && cmd[|cmd| - 1] == package
  {
    [python, "-m", "pip", "install"] + extra + [package]
  }

  lemma WordsOfThree(a: string, b: string, c: string)
    requires IsWord(a) && IsWord(b) && IsWord(c)
    ensures Words(a + " " + b + " " + c) == [a, b, c]
  {
    var parts := [a, b, c];
    assert Join(parts[2..], " ") == c;
    assert Join(parts[1..], " ") == b + " " + c;
    assert Join(parts, " ") == a + " " + b + " " + c;
    WordsJoin(parts);
  }

  /** The shape of the PyTorch specs, `--index-url <url> <package>`: the flag and its value
      become extra arguments and the package follows them. */
  lemma FlagValuePackageTokens(flag: string, value: string, package: string)
    requires IsWord(flag) && IsWord(value) && IsWord(package)
    requires IsFlag(flag) && !IsFlag(value) && !IsFlag(package)
    requires !Contains(flag, package) && !Contains(value, package)
    ensures SpecArguments(flag + " " + value + " " + package) == (package, [flag, value])
  {
    var parts := [flag, value, package];
    var spec := flag + " " + value + " " + package;
    WordsOfThree(flag, value, package);
    assert IsFlag(spec) by {
      assert spec[..2] == flag[..2];
    }
    var extra := [flag, value];
    assert parts[0] == flag && parts[1] == value && [] + [flag] + [value] == extra;
    assert ScanParts(parts, 0, []) == ScanParts(parts, 1, extra);
    assert InSomeArg(value, extra) by {
      assert OccursAt(value, value, 0);
      assert Contains(value, value);
    }
    assert ScanParts(parts, 1, extra) == ScanParts(parts, 2, extra);
    assert !InSomeArg(package, extra);
    assert ScanParts(parts, 2, extra) == (package, extra);
  }

  /** As written, "pip --upgrade" reaches pip as a single argument with a space inside. */
  lemma PipUpgradeIsOneArgument(python: string)
    ensures SpecArguments("pip --upgrade") == ("pip --upgrade", [])
    ensures InstallCommand(python, "pip --upgrade", []) == [python, "-m", "pip", "install", "pip --upgrade"]
    ensures IsSpace("pip --upgrade"[3])
  {
    assert !IsFlag("pip --upgrade") by {
      assert "pip --upgrade"[0] == 'p';
    }
  }

  /** As written, a package that happens to be a substring of the flag's value is taken for
      part of the value and dropped: pip is asked to install "". */
  lemma PackageInsideValueDropped(flag: string, value: string, package: string)
    requires IsFlag(flag) && !IsFlag(value) && !IsFlag(package) && Contains(value, package)
    ensures ScanParts([flag, value, package], 0, []) == ("", [flag, value])
  {
    var parts := [flag, value, package];
    var extra := [flag, value];
    assert parts[0] == flag && parts[1] == value && [] + [flag] + [value] == extra;
    assert ScanParts(parts, 0, []) == ScanParts(parts, 1, extra);
    assert InSomeArg(value, extra) by {
      assert OccursAt(value, value, 0);
      assert Contains(value, value);
    }
    assert ScanParts(parts, 1, extra) == ScanParts(parts, 2, extra);
    assert InSomeArg(package, extra);
    assert ScanParts(parts, 2, extra) == ScanParts(parts, 3, extra);
  }

  /** A hypothetical spec built from the recommended CUDA index URL, flag first,
      "--index-url https://download.pytorch.org/whl/cu121 torch", loses its package. */
  lemma SubstringRuleDropsPackage()
    ensures ScanParts(["--index-url", "https://download.pytorch.org/whl/cu121", "torch"], 0, [])
            == ("", ["--index-url", "https://download.pytorch.org/whl/cu121"])
  {
    var url := "https://download.pytorch.org/whl/cu121";
    assert IsFlag("--index-url");
    assert !IsFlag(url) by {
      assert url[0] == 'h';
    }
    assert !IsFlag("torch") by {
      assert "torch"[0] == 't';
    }
    assert Contains(url, "torch") by {
      assert url[19..24] == "torch";
      assert OccursAt(url, "torch", 19);
    }
    PackageInsideValueDropped("--index-url", url, "torch");
  }

  /** When neither the flag nor its value contains the package token, the scan keeps it. */
  lemma PackageOutsideValueKept(flag: string, value: string, package: string)
    requires IsFlag(flag) && !IsFlag(value) && !IsFlag(package)
    requires !Contains(flag, package) && !Contains(value, package)
    ensures ScanParts([flag, value, package], 0, []) == (package, [flag, value])
  {
    var parts := [flag, value, package];
    var extra := [flag, value];
    assert parts[0] == flag && parts[1] == value && [] + [flag] + [value] == extra;
    assert ScanParts(parts, 0, []) == ScanParts(parts, 1, extra);
    assert InSomeArg(value, extra) by {
      assert OccursAt(value, value, 0);
      assert Contains(value, value);
    }
    assert ScanParts(parts, 1, extra) == ScanParts(parts, 2, extra);
    assert !InSomeArg(package, extra);
  }

  /** An "--index-url <url> <package>" spec whose package token carries a '>' version bound
      that the URL lacks keeps its package. */
  lemma BoundedPackageKept(url: string, package: string)
    requires '>' in package && '>' !in url && !IsFlag(url) && !IsFlag(package)
    ensures ScanParts(["--index-url", url, package], 0, []) == (package, ["--index-url", url])
  {
    assert '>' !in "--index-url";
    var k :| 0 <= k < |package| && package[k] == '>';
    MissingCharNoOccurrence(url, package, k);
    MissingCharNoOccurrence("--index-url", package, k);
    assert IsFlag("--index-url");
    PackageOutsideValueKept("--index-url", url, package);
  }

  /** The nightly PyTorch specs the script installs keep their packages: each package token
      carries a '>' version bound, so under any index URL without a '>' (the script's nightly
      URL has none) the substring rule leaves the package alone. A bare "torch" after the
      recommended CUDA index URL, in a hypothetical flag-first spec, would meet it. */
  lemma NightlyPyTorchSpecsKeepPackage(url: string, k: nat)
    requires '>' !in url && !IsFlag(url)
    requires k < 4
    ensures ScanParts(["--index-url", url, NightlyPackage(k)], 0, []) == (NightlyPackage(k), ["--index-url", url])
  {
    NoDashFirstIsNoFlag(NightlyPackage(k));
    BoundedPackageKept(url, NightlyPackage(k));
  }

  /** The package tokens of the script's four nightly PyTorch specs, each with its bound. */
  function NightlyPackage(k: nat): (p: string)
    requires k < 4
    ensures '>' in p && |p| > 0 && p[0] != '-'
  {
    if k == 0 then
      var p := "torch>=2.9.0.dev"; assert p[5] == '>' && p[0] == 't'; p
    else if k == 1 then
      var p := "torchvision>=0.24.0.dev"; assert p[11] == '>' && p[0] == 't'; p
    else if k == 2 then
      var p := "torchaudio>=2.8.0.dev"; assert p[10] == '>' && p[0] == 't'; p
    else
      var p := "pytorch-triton>=3.4.0"; assert p[14] == '>' && p[0] == 'p'; p
  }

  lemma NoDashFirstIsNoFlag(part: string)
    ensures |part| > 0 && part[0] != '-' ==> !IsFlag(part)
  {
    if |part| >= 2 {
      assert part[..2][0] == part[0];
    }
  }

  /** The tokenizer the loop evidently means, applied to every spec's words: a flag takes the
      next token as its value when that is no flag; the first other token is the package;
      flags after the package still count. */
  function IntendedArguments(parts: seq<string>): (string, seq<string>)
    decreases |parts|
  {
    if parts == [] then ("", [])
    else if IsFlag(parts[0]) then
      if |parts| > 1 && !IsFlag(parts[1]) then
        var r := IntendedArguments(parts[2..]);
        (r.0, [parts[0], parts[1]] + r.1)
      else
        var r := IntendedArguments(parts[1..]);
        (r.0, [parts[0]] + r.1)
    else (parts[0], IntendedArguments(parts[1..]).1)
  }

  /** Every argument the corrected tokenizer yields is a word of the spec, the package is no
      flag, and every flag is passed on. */
  lemma {:induction false} IntendedArgumentsSound(parts: seq<string>)
    ensures var r := IntendedArguments(parts);
            && (forall a :: a in r.1 ==> a in parts)
            && (r.0 != "" ==> r.0 in parts && !IsFlag(r.0))
            && (forall k :: 0 <= k < |parts| && IsFlag(parts[k]) ==> parts[k] in r.1)
    decreases |parts|
  {
    if parts == [] {
    } else if IsFlag(parts[0]) && |parts| > 1 && !IsFlag(parts[1]) {
      IntendedArgumentsSound(parts[2..]);
      assert forall k :: 2 <= k < |parts| ==> parts[k] == parts[2..][k - 2];
    } else {
      IntendedArgumentsSound(parts[1..]);
      assert forall k :: 1 <= k < |parts| ==> parts[k] == parts[1..][k - 1];
    }
  }

  /** The corrected spec handling: every spec is split into words. */
  function CorrectedSpecArguments(spec: string): (r: (string, seq<string>))
    ensures forall a :: a in r.1 ==> a in Words(spec)
    ensures r.0 != "" ==> r.0 in Words(spec) && !IsFlag(r.0)
    ensures forall w :: w in Words(spec) && IsFlag(w) ==> w in r.1
  {
    IntendedArgumentsSound(Words(spec));
    IntendedArguments(Words(spec))
  }

  /** With the correction no argument after "install" holds a space, and every flag of the
      spec reaches pip. */
  lemma CorrectedArgumentsAreWords(python: string, spec: string)
    ensures var (package, extra) := CorrectedSpecArguments(spec);
            var cmd := InstallCommand(python, package, extra);
            && (forall k, i :: 4 <= k < |cmd| && 0 <= i < |cmd[k]| ==> !IsSpace(cmd[k][i]))
            && (forall w :: w in Words(spec) && IsFlag(w) ==> w in extra)
  {
    var (package, extra) := CorrectedSpecArguments(spec);
    var cmd := InstallCommand(python, package, extra);
    var ws := Words(spec);
    forall k, i | 4 <= k < |cmd| && 0 <= i < |cmd[k]| ensures !IsSpace(cmd[k][i]) {
      assert cmd[k] in ws by {
        if k < |cmd| - 1 {
          assert cmd[k] == extra[k - 4];
        }
      }
    }
  }

  lemma PackageThenFlag(package: string, flag: string)
    requires !IsFlag(package) && IsFlag(flag)
    ensures IntendedArguments([package, flag]) == (package, [flag])
  {
    assert [package, flag][1..] == [flag];
    assert [flag][1..] == [];
    assert IntendedArguments([flag][1..]) == ("", []);
    assert IntendedArguments([flag]) == ("", [flag] + []);
    assert [flag] + [] == [flag];
  }

  /** A package followed by a flag, corrected: pip gets both, as separate arguments. */
  lemma CorrectedSplitsFlagAfterPackage(package: string, flag: string)
    requires IsWord(package) && IsWord(flag) && !IsFlag(package) && IsFlag(flag)
    ensures CorrectedSpecArguments(package + " " + flag) == (package, [flag])
  {
    assert Join([package, flag][1..], " ") == flag;
    assert Join([package, flag], " ") == package + " " + flag;
    WordsJoin([package, flag]);
    PackageThenFlag(package, flag);
  }

  /** "pip --upgrade" corrected: pip gets the flag and the package separately. */
  lemma PipUpgradeCorrected()
    ensures CorrectedSpecArguments("pip --upgrade") == ("pip", ["--upgrade"])
  {
    assert IsWord("pip") && IsWord("--upgrade");
    assert !IsFlag("pip") by {
      assert "pip"[0] == 'p';
    }
    assert IsFlag("--upgrade");
    CorrectedSplitsFlagAfterPackage("pip", "--upgrade");
    assert "pip" + " " + "--upgrade" == "pip --upgrade";
  }

  /** The PyTorch shape corrected: the package after a flag and its value is kept even when
      the value contains it. */
  lemma CorrectedKeepsPackageAfterValue(flag: string, value: string, package: string)
    requires IsWord(flag) && IsWord(value) && IsWord(package)
    requires IsFlag(flag) && !IsFlag(value) && !IsFlag(package)
    ensures CorrectedSpecArguments(flag + " " + value + " " + package) == (package, [flag, value])
  {
    var parts := [flag, value, package];
    WordsOfThree(flag, value, package);
    assert parts[2..] == [package] && [package][1..] == [];
    assert IntendedArguments([package]) == (package, []);
    assert IntendedArguments(parts) == (package, [flag, value] + []);
    assert [flag, value] + [] == [flag, value];
  }

  /** On a one-word spec that is no flag, the correction changes nothing. */
  lemma CorrectedAgreesOnPlainSpecs(spec: string)
    requires IsWord(spec) && !IsFlag(spec)
    ensures CorrectedSpecArguments(spec) == SpecArguments(spec)
  {
    WordsJoin([spec]);
    assert Join([spec], " ") == spec;
    assert [spec][1..] == [];
    assert IntendedArguments([spec]) == (spec, []);
  }

  // ---------------------------------------------------------------------------
  // One pip run
  // ---------------------------------------------------------------------------

  /** What `subprocess.run` gives back: an exit status with both output streams, the
      300-second timeout, or another exception's text. */
  datatype PipRun = Exited(code: int, stdout: string, stderr: string) | TimedOut | Raised(message: string)

  const TimeoutMessage := "Installation timeout (5 minutes exceeded)"

  /** `install_package`: success with an empty error exactly for exit status 0; otherwise the
      stripped stderr, or the stripped stdout when stderr is blank, or the timeout or
      exception text. */
  function InstallPackage(run: PipRun): (r: (bool, string))
    ensures r.0 <==> run.Exited? && run.code == 0
    ensures r.0 ==> r.1 == ""
    ensures run.Exited? && run.code != 0 && Strip(run.stderr) != "" ==> r.1 == Strip(run.stderr)
    ensures run.Exited? && run.code != 0 && Strip(run.stderr) == "" ==> r.1 == Strip(run.stdout)
    ensures run.TimedOut? ==> r.1 == TimeoutMessage
    ensures run.Raised? ==> r.1 == run.message
  {
    match run
    case Exited(code, out, err) =>
      if code == 0 then (true, "")
      else (false, if Strip(err) != "" then Strip(err) else Strip(out))
    case TimedOut => (false, TimeoutMessage)
    case Raised(message) => (false, message)
  }

  /** One spec, tokenized and run. */
  function InstallSpec(python: string, spec: string, pip: seq<string> -> PipRun): (bool, string) {
    var (package, extra) := SpecArguments(spec);
    InstallPackage(pip(InstallCommand(python, package, extra)))
  }

  // ---------------------------------------------------------------------------
  // The attempts and the summary
  // ---------------------------------------------------------------------------

  datatype Outcome = Outcome(successful: seq<string>, failed: seq<(string, string)>)

  /** One attempt's result appended to the running outcome. */
  function Record(o: Outcome, spec: string, python: string, pip: seq<string> -> PipRun): Outcome {
    var (ok, error) := InstallSpec(python, spec, pip);
    if ok then o.(successful := o.successful + [spec]) else o.(failed := o.failed + [(spec, error)])
  }

  /** `install_package_list` over all specs in order, appending to the running outcome. */
  function InstallAll(o: Outcome, specs: seq<string>, python: string, pip: seq<string> -> PipRun): Outcome
    decreases |specs|
  {
    if specs == [] then o else InstallAll(Record(o, specs[0], python, pip), specs[1..], python, pip)
  }

  /** The attempts only append: the earlier lists stay as prefixes. */
  lemma {:induction false} InstallAllAppends(o: Outcome, specs: seq<string>, python: string, pip: seq<string> -> PipRun)
    ensures var r := InstallAll(o, specs, python, pip);
            && |r.successful| + |r.failed| == |o.successful| + |o.failed| + |specs|
            && |o.successful| <= |r.successful| && |o.failed| <= |r.failed|
            && r.successful[..|o.successful|] == o.successful && r.failed[..|o.failed|] == o.failed
    decreases |specs|
  {
    if specs != [] {
      var o1 := Record(o, specs[0], python, pip);
      InstallAllAppends(o1, specs[1..], python, pip);
      var r := InstallAll(o1, specs[1..], python, pip);
      assert r.successful[..|o.successful|] == r.successful[..|o1.successful|][..|o.successful|];
      assert r.failed[..|o.failed|] == r.failed[..|o1.failed|][..|o.failed|];
    }
  }

  /** Every spec is recorded once: successes and failures together are the specs. */
  lemma {:induction false} InstallAllCounts(o: Outcome, specs: seq<string>, python: string, pip: seq<string> -> PipRun)
    ensures var r := InstallAll(o, specs, python, pip);
            multiset(r.successful) + multiset(Firsts(r.failed))
            == multiset(o.successful) + multiset(Firsts(o.failed)) + multiset(specs)
    decreases |specs|
  {
    if specs != [] {
      var (ok, error) := InstallSpec(python, specs[0], pip);
      var o1 := Record(o, specs[0], python, pip);
      assert Firsts(o.failed + [(specs[0], error)]) == Firsts(o.failed) + [specs[0]];
      assert multiset(specs) == multiset{specs[0]} + multiset(specs[1..]) by {
        assert specs == [specs[0]] + specs[1..];
      }
      InstallAllCounts(o1, specs[1..], python, pip);
    }
  }

  /** Each new success installed, each new failure failed with its own error text. */
  lemma {:induction false} InstallAllVerdicts(o: Outcome, specs: seq<string>, python: string, pip: seq<string> -> PipRun)
    ensures var r := InstallAll(o, specs, python, pip);
            && (forall k :: |o.successful| <= k < |r.successful| ==> InstallSpec(python, r.successful[k], pip).0)
            && (forall k :: |o.failed| <= k < |r.failed| ==>
                  !InstallSpec(python, r.failed[k].0, pip).0 && r.failed[k].1 == InstallSpec(python, r.failed[k].0, pip).1)
    decreases |specs|
  {
    if specs != [] {
      var o1 := Record(o, specs[0], python, pip);
      InstallAllVerdicts(o1, specs[1..], python, pip);
      InstallAllAppends(o1, specs[1..], python, pip);
      var r := InstallAll(o1, specs[1..], python, pip);
      forall k | |o.successful| <= k < |o1.successful| ensures InstallSpec(python, r.successful[k], pip).0 {
        assert r.successful[k] == r.successful[..|o1.successful|][k] == o1.successful[k];
      }
      forall k | |o.failed| <= k < |o1.failed|
        ensures !InstallSpec(python, r.failed[k].0, pip).0 && r.failed[k].1 == InstallSpec(python, r.failed[k].0, pip).1
      {
        assert r.failed[k] == r.failed[..|o1.failed|][k] == o1.failed[k];
      }
    }
  }

  /** Each spec lands in exactly one of the two lists, as its own pip run decides. */
  lemma InstallAllPartitions(specs: seq<string>, python: string, pip: seq<string> -> PipRun, spec: string)
    requires spec in specs
    ensures var r := InstallAll(Outcome([], []), specs, python, pip);
            InstallSpec(python, spec, pip).0 ==> spec in r.successful && spec !in Firsts(r.failed)
    ensures var r := InstallAll(Outcome([], []), specs, python, pip);
            !InstallSpec(python, spec, pip).0 ==> spec !in r.successful && (spec, InstallSpec(python, spec, pip).1) in r.failed
  {
    var r := InstallAll(Outcome([], []), specs, python, pip);
    InstallAllCounts(Outcome([], []), specs, python, pip);
    InstallAllVerdicts(Outcome([], []), specs, python, pip);
    assert Firsts<string, string>([]) == [];
    RecordedOnce(r, specs, python, pip, spec);
  }

  /** The partition argument for any outcome that holds the specs once, each with its own verdict. */
  lemma RecordedOnce(r: Outcome, specs: seq<string>, python: string, pip: seq<string> -> PipRun, spec: string)
    requires spec in specs
    requires multiset(r.successful) + multiset(Firsts(r.failed)) == multiset(specs)
    requires forall k :: 0 <= k < |r.successful| ==> InstallSpec(python, r.successful[k], pip).0
    requires forall k :: 0 <= k < |r.failed| ==>
               !InstallSpec(python, r.failed[k].0, pip).0 && r.failed[k].1 == InstallSpec(python, r.failed[k].0, pip).1
    ensures InstallSpec(python, spec, pip).0 ==> spec in r.successful && spec !in Firsts(r.failed)
    ensures !InstallSpec(python, spec, pip).0 ==> spec !in r.successful && (spec, InstallSpec(python, spec, pip).1) in r.failed
  {
    var names := Firsts(r.failed);
    assert spec in multiset(r.successful) + multiset(names) by {
      assert spec in multiset(specs);
    }
    if spec in names {
      var k :| 0 <= k < |names| && names[k] == spec;
      assert r.failed[k].0 == spec;
    }
  }

  const EssentialPackages := ["pip --upgrade", "wheel", "setuptools", "fastapi>=0.104.0",
    "uvicorn[standard]>=0.24.0", "requests>=2.31.0", "python-multipart>=0.0.6", "numpy>=1.21.0", "scipy>=1.10.0"]
  const PytorchPackages := [
    "--index-url https://download.pytorch.org/whl/nightly/cu129 torch>=2.9.0.dev",
    "--index-url https://download.pytorch.org/whl/nightly/cu129 torchvision>=0.24.0.dev",
    "--index-url https://download.pytorch.org/whl/nightly/cu129 torchaudio>=2.8.0.dev",
    "--index-url https://download.pytorch.org/whl/nightly/cu129 pytorch-triton>=3.4.0"]
  const TtsPackages := ["coqui-tts>=0.27.0", "openai-whisper>=20231117", "transformers>=4.35.0", "accelerate>=0.24.0"]
  const AudioPackages := ["pyaudio>=0.2.11", "webrtcvad>=2.0.10", "openwakeword>=0.4.0", "soundfile>=0.12.0",
    "librosa>=0.10.0", "pydub>=0.25.0", "resampy>=0.4.0"]
  const OptionalPackages := ["jinja2>=3.1.2", "urllib3>=2.0.0", "pathlib2>=2.3.7", "json5>=0.9.0", "pyyaml>=6.0.0",
    "datasets>=2.14.0", "matplotlib>=3.7.0", "seaborn>=0.12.0", "plotly>=5.17.0", "coloredlogs>=15.0.1",
    "tqdm>=4.66.0", "rich>=13.6.0", "psutil>=5.9.0", "platformdirs>=3.10.0", "memory-profiler>=0.61.0",
    "pympler>=0.9.0", "cryptography>=41.0.0", "pillow>=10.0.0", "python-magic>=0.4.27", "sqlalchemy>=2.0.0",
    "python-dotenv>=1.0.0", "pydantic>=2.4.0", "tenacity>=8.2.0"]
  const NvidiaPackages := ["nvidia-ml-py>=12.535.0"]
  const AdvancedPackages := ["onnxruntime>=1.16.0", "tokenizers>=0.14.0", "optimum>=1.14.0", "pytest>=7.4.0",
    "pytest-asyncio>=0.21.0", "black>=23.9.0", "flake8>=6.0.0"]

  /** The categories in the order the script installs them. */
  const Categories: seq<seq<string>> := [EssentialPackages, PytorchPackages, TtsPackages, AudioPackages,
    OptionalPackages, NvidiaPackages, AdvancedPackages]

  const BarkSpec := "git+https://github.com/suno-ai/bark.git"
  const BarkName := "bark (from git)"

  /** The number of specs over all categories. */
  function Total(cats: seq<seq<string>>): nat {
    if cats == [] then 0 else |cats[0]| + Total(cats[1..])
  }

  function InstallCategories(o: Outcome, cats: seq<seq<string>>, python: string, pip: seq<string> -> PipRun): (r: Outcome)
    ensures |r.successful| + |r.failed| == |o.successful| + |o.failed| + Total(cats)
    decreases |cats|
  {
    if cats == [] then o
    else
      InstallAllAppends(o, cats[0], python, pip);
      InstallCategories(InstallAll(o, cats[0], python, pip), cats[1..], python, pip)
  }

  /** Bark from git, recorded under its display name. */
  function AddBark(o: Outcome, python: string, pip: seq<string> -> PipRun): (r: Outcome)
    ensures |r.successful| + |r.failed| == |o.successful| + |o.failed| + 1
    ensures var (ok, error) := InstallPackage(pip(InstallCommand(python, BarkSpec, [])));
            if ok then r.successful == o.successful + [BarkName] && r.failed == o.failed
            else r.failed == o.failed + [(BarkName, error)] && r.successful == o.successful
  {
    var (ok, error) := InstallPackage(pip(InstallCommand(python, BarkSpec, [])));
    if ok then o.(successful := o.successful + [BarkName]) else o.(failed := o.failed + [(BarkName, error)])
  }

  /** Every category in order, then Bark. */
  function InstallEverything(python: string, pip: seq<string> -> PipRun): (r: Outcome)
    ensures |r.successful| + |r.failed| == Total(Categories) + 1
  {
    AddBark(InstallCategories(Outcome([], []), Categories, python, pip), python, pip)
  }

  /** The specs of all categories, in install order. */
  function Flatten(cats: seq<seq<string>>): (specs: seq<string>)
    ensures |specs| == Total(cats)
  {
    if cats == [] then [] else cats[0] + Flatten(cats[1..])
  }

  /** Installing two lists one after the other is installing their concatenation. */
  lemma {:induction false} InstallAllConcat(o: Outcome, a: seq<string>, b: seq<string>, python: string,
                                            pip: seq<string> -> PipRun)
    ensures InstallAll(o, a + b, python, pip) == InstallAll(InstallAll(o, a, python, pip), b, python, pip)
    decreases |a|
  {
    if a == [] {
      assert a + b == b;
    } else {
      ConsAppend(a, b);
      InstallAllConcat(Record(o, a[0], python, pip), a[1..], b, python, pip);
    }
  }

  /** The categories are installed as one list: the outcome is that of `install_package_list`
      over all their specs, category by category, in order. */
  lemma {:induction false} InstallCategoriesFlat(o: Outcome, cats: seq<seq<string>>, python: string,
                                                 pip: seq<string> -> PipRun)
    ensures InstallCategories(o, cats, python, pip) == InstallAll(o, Flatten(cats), python, pip)
    decreases |cats|
  {
    if cats != [] {
      InstallCategoriesFlat(InstallAll(o, cats[0], python, pip), cats[1..], python, pip);
      InstallAllConcat(o, cats[0], Flatten(cats[1..]), python, pip);
    }
  }

  /** Installing some categories records exactly their specs, each in the list its own pip
      run decides. */
  lemma CategoriesRecorded(cats: seq<seq<string>>, python: string, pip: seq<string> -> PipRun, spec: string)
    ensures var r := InstallCategories(Outcome([], []), cats, python, pip);
            multiset(r.successful) + multiset(Firsts(r.failed)) == multiset(Flatten(cats))
    ensures var r := InstallCategories(Outcome([], []), cats, python, pip);
            spec in Flatten(cats) ==>
              && (InstallSpec(python, spec, pip).0 ==> spec in r.successful)
              && (!InstallSpec(python, spec, pip).0 ==> (spec, InstallSpec(python, spec, pip).1) in r.failed)
  {
    var o0 := Outcome([], []);
    var specs := Flatten(cats);
    InstallCategoriesFlat(o0, cats, python, pip);
    InstallAllCounts(o0, specs, python, pip);
    assert Firsts<string, string>([]) == [];
    if spec in specs {
      InstallAllPartitions(specs, python, pip, spec);
    }
  }

  /** Bark's install adds its name and keeps everything recorded before. */
  lemma BarkRecorded(o: Outcome, python: string, pip: seq<string> -> PipRun)
    ensures var r := AddBark(o, python, pip);
            multiset(r.successful) + multiset(Firsts(r.failed))
              == multiset(o.successful) + multiset(Firsts(o.failed)) + multiset{BarkName}
    ensures var r := AddBark(o, python, pip);
            (forall x :: x in o.successful ==> x in r.successful) && (forall f :: f in o.failed ==> f in r.failed)
  {
    var (ok, error) := InstallPackage(pip(InstallCommand(python, BarkSpec, [])));
    assert Firsts(o.failed + [(BarkName, error)]) == Firsts(o.failed) + [BarkName];
  }

  /** Every spec of every category is attempted once, and Bark once more. */
  lemma InstallEverythingOnce(python: string, pip: seq<string> -> PipRun, spec: string)
    ensures var r := InstallEverything(python, pip);
            multiset(r.successful) + multiset(Firsts(r.failed)) == multiset(Flatten(Categories)) + multiset{BarkName}
    ensures var r := InstallEverything(python, pip);
            spec in Flatten(Categories) ==>
              && (InstallSpec(python, spec, pip).0 ==> spec in r.successful)
              && (!InstallSpec(python, spec, pip).0 ==> (spec, InstallSpec(python, spec, pip).1) in r.failed)
  {
    CategoriesRecorded(Categories, python, pip, spec);
    BarkRecorded(InstallCategories(Outcome([], []), Categories, python, pip), python, pip);
  }

  /** The script attempts 56 installs. */
  lemma FiftySixAttempts(python: string, pip: seq<string> -> PipRun)
    ensures var r := InstallEverything(python, pip);
            |r.successful| + |r.failed| == 56
  {
    var c := Categories;
    assert Total(c[7..]) == 0;
    assert c[6..][1..] == c[7..];
    assert Total(c[6..]) == 7;
    assert c[5..][1..] == c[6..];
    assert Total(c[5..]) == 8;
    assert c[4..][1..] == c[5..];
    assert Total(c[4..]) == 31;
    assert c[3..][1..] == c[4..];
    assert Total(c[3..]) == 38;
    assert c[2..][1..] == c[3..];
    assert Total(c[2..]) == 42;
    assert c[1..][1..] == c[2..];
    assert Total(c[1..]) == 46;
    assert c[0..][1..] == c[1..];
    assert Total(c) == 55;
  }

  const EssentialNames := ["fastapi", "uvicorn", "requests", "numpy", "scipy"]

  predicate IsEssential(spec: string) {
    exists e :: e in EssentialNames && Contains(spec, e)
  }

  /** The failed specs that name an essential package, in failure order. */
  function EssentialFailures(failed: seq<(string, string)>): (r: seq<string>)
    ensures forall x :: x in r <==> x in Firsts(failed) && IsEssential(x)
  {
    if failed == [] then []
    else
      var rest := EssentialFailures(failed[1..]);
      assert Firsts(failed) == [failed[0].0] + Firsts(failed[1..]);
      if IsEssential(failed[0].0) then [failed[0].0] + rest else rest
  }

  /** Each failure contributes on its own, in failure order, duplicates included. */
  lemma {:induction false} EssentialFailuresAppend(a: seq<(string, string)>, b: seq<(string, string)>)
    ensures EssentialFailures(a + b) == EssentialFailures(a) + EssentialFailures(b)
    decreases |a|
  {
    if a == [] {
      assert a + b == b;
    } else {
      assert (a + b)[0] == a[0] && (a + b)[1..] == a[1..] + b;
      EssentialFailuresAppend(a[1..], b);
    }
  }

  /** One failure's contribution: its spec, when it names an essential package. */
  lemma EssentialFailuresOfOne(f: (string, string))
    ensures EssentialFailures([f]) == if IsEssential(f.0) then [f.0] else []
  {
    assert [f][1..] == [];
  }

  /** The summary the script prints and returns. */
  datatype Summary = Summary(
    succeeded: nat, total: nat, manyFailed: bool, essentialFailed: seq<string>,
    pyaudioHint: bool, nvidiaHint: bool, torchHint: bool, allInstalled: bool)

  function Summarize(o: Outcome): (s: Summary)
    ensures s.succeeded == |o.successful|
    ensures s.total == |o.successful| + |o.failed|
    ensures s.manyFailed <==> 10 * |o.failed| > 3 * s.total
    ensures s.allInstalled <==> o.failed == []
    ensures forall x :: x in s.essentialFailed <==> x in Firsts(o.failed) && IsEssential(x)
    ensures s.pyaudioHint <==> exists k :: 0 <= k < |o.failed| && Contains(o.failed[k].0, "pyaudio")
    ensures s.nvidiaHint <==> exists k :: 0 <= k < |o.failed| && Contains(Lower(o.failed[k].0), "nvidia")
    ensures s.torchHint <==> exists k :: 0 <= k < |o.failed| && Contains(o.failed[k].0, "torch")
  {
    var total := |o.successful| + |o.failed|;
    Summary(|o.successful|, total, 10 * |o.failed| > 3 * total, EssentialFailures(o.failed),
            exists k :: 0 <= k < |o.failed| && Contains(o.failed[k].0, "pyaudio"),
            exists k :: 0 <= k < |o.failed| && Contains(Lower(o.failed[k].0), "nvidia"),
            exists k :: 0 <= k < |o.failed| && Contains(o.failed[k].0, "torch"),
            o.failed == [])
  }

  /** A clean run warns about nothing; any essential failure means the script reports
      failure. */
  lemma SummaryConsistent(o: Outcome)
    ensures var s := Summarize(o);
            && (s.allInstalled ==> && !s.manyFailed && s.essentialFailed == []
                                   && !s.pyaudioHint && !s.nvidiaHint && !s.torchHint)
            && (s.essentialFailed != [] ==> !s.allInstalled)
            && (s.manyFailed ==> !s.allInstalled)
  {
    var s := Summarize(o);
    if s.essentialFailed != [] {
      assert s.essentialFailed[0] in Firsts(o.failed);
    }
  }
}
