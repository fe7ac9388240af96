/**
  The small JSON documents the helper writes: the `object.json` sidecar of an
  output directory (`output_path`, `output_generated_path`), the run list of
  `report`, and the warnings/errors merge of `finish`.

  Files are a map from path to parsed document; writing a document replaces
  the map entry. `os.path.realpath` is a parameter; directories are not
  modelled (`os.mkdir` always succeeds).
 */
module Metadata {
  import opened PyJson
  import opened Paths
  import opened Descriptor

  /* ---------------- the object.json sidecar ---------------- */

  const SidecarName: string := "object.json"

  /** The merge both output functions apply to the sidecar document:
      `files` becomes the one output file, and `name` is set unless the given
      name is None (`JNull`). */
  function MergeSidecar(prior: Json, file: string, name: Json): (r: Result<Json>)
    ensures r.Ok? <==> prior.JObj?
    ensures r.Ok? ==> r.value.JObj? && Get(r.value.members, "files") == Some(JArr([JStr(file)]))
    ensures r.Ok? && name != JNull ==> Get(r.value.members, "name") == Some(name)
    ensures r.Ok? && name == JNull ==> Get(r.value.members, "name") == Get(prior.members, "name")
    ensures r.Ok? ==> forall k :: k != "files" && k != "name" ==> Get(r.value.members, k) == Get(prior.members, k)
  {
    var withFiles :- Assign(prior, "files", JArr([JStr(file)]));
    if name != JNull then Assign(withFiles, "name", name) else Ok(withFiles)
  }

  /** Merging a merged sidecar again changes nothing. */
  lemma MergeSidecarIdempotent(prior: Json, file: string, name: Json)
    requires prior.JObj?
    ensures MergeSidecar(MergeSidecar(prior, file, name).value, file, name) == MergeSidecar(prior, file, name)
  {
    var once := MergeSidecar(prior, file, name).value;
    SetExisting(once.members, "files", JArr([JStr(file)]));
    if name != JNull {
      SetExisting(once.members, "name", name);
    }
  }

  /** Writing the sidecar in `dir` as the code does: the file is opened with
      'w+', which empties it before `json.load` reads it, so an existing
      sidecar makes the load fail; a new one is created from `{}`. Returns the
      files afterwards and the output file's path. */
  function WriteSidecarAsWritten(fs: FileSystem, dir: string, file: string, name: Json): Result<(FileSystem, string)>
  {
    var sidecar := Join2(dir, SidecarName);
    var prior :- if sidecar in fs then Err(JsonDecodeError(sidecar)) else Ok(JObj([]));
    var merged :- MergeSidecar(prior, file, name);
    Ok((fs[sidecar := merged], Join2(dir, file)))
  }

  /** Merging into the sidecar document at `sidecar`, `{}` when there is none. */
  function UpdateSidecar(fs: FileSystem, sidecar: string, file: string, name: Json): (r: Result<FileSystem>)
    ensures r.Ok? <==> (sidecar in fs ==> fs[sidecar].JObj?)
    ensures r.Ok? ==>
      r.value.Keys == fs.Keys + {sidecar} &&
      (forall p :: p in fs && p != sidecar ==> r.value[p] == fs[p]) &&
      MergeSidecar(if sidecar in fs then fs[sidecar] else JObj([]), file, name) == Ok(r.value[sidecar])
  {
    var prior := if sidecar in fs then fs[sidecar] else JObj([]);
    var merged :- MergeSidecar(prior, file, name);
    Ok(fs[sidecar := merged])
  }

  /** Merging into the same sidecar again changes nothing. */
  lemma UpdateSidecarIdempotent(fs: FileSystem, sidecar: string, file: string, name: Json)
    requires UpdateSidecar(fs, sidecar, file, name).Ok?
    ensures UpdateSidecar(UpdateSidecar(fs, sidecar, file, name).value, sidecar, file, name)
         == UpdateSidecar(fs, sidecar, file, name)
  {
    var prior := if sidecar in fs then fs[sidecar] else JObj([]);
    var merged := MergeSidecar(prior, file, name).value;
    var after := fs[sidecar := merged];
    MergeSidecarIdempotent(prior, file, name);
    assert after[sidecar := merged] == after;
  }

  /** Writing the sidecar as intended: an existing sidecar is read and merged,
      a missing one starts from `{}`. */
  function WriteSidecar(fs: FileSystem, dir: string, file: string, name: Json): (r: Result<(FileSystem, string)>)
    ensures r.Ok? <==> UpdateSidecar(fs, Join2(dir, SidecarName), file, name).Ok?
    ensures r.Ok? ==> r.value == (UpdateSidecar(fs, Join2(dir, SidecarName), file, name).value, Join2(dir, file))
  {
    var after :- UpdateSidecar(fs, Join2(dir, SidecarName), file, name);
    Ok((after, Join2(dir, file)))
  }

  /** On a directory without a sidecar the two agree. */
  lemma WriteSidecarFresh(fs: FileSystem, dir: string, file: string, name: Json)
    requires Join2(dir, SidecarName) !in fs
    ensures WriteSidecarAsWritten(fs, dir, file, name) == WriteSidecar(fs, dir, file, name)
  {
  }

  /** The code as written cannot write the same output twice: the second
      call finds the sidecar the first one wrote and fails to read it. */
  lemma WriteSidecarAsWrittenFailsTwice(dir: string, file: string, name: Json)
    ensures var first := WriteSidecarAsWritten(map[], dir, file, name);
      first.Ok? &&
      WriteSidecarAsWritten(first.value.0, dir, file, name) == Err(JsonDecodeError(Join2(dir, SidecarName)))
  {
  }

  /** As intended, writing over an existing sidecar keeps every key it had
      besides `files` and `name`. */
  lemma WriteSidecarKeepsKeys(fs: FileSystem, dir: string, file: string, name: Json)
    requires Join2(dir, SidecarName) in fs && fs[Join2(dir, SidecarName)].JObj?
    ensures var r := WriteSidecar(fs, dir, file, name);
      r.Ok? &&
      forall k :: k != "files" && k != "name" ==>
        Get(r.value.0[Join2(dir, SidecarName)].members, k) == Get(fs[Join2(dir, SidecarName)].members, k)
  {
    var sidecar := Join2(dir, SidecarName);
    var merged := MergeSidecar(fs[sidecar], file, name).value;
    assert WriteSidecar(fs, dir, file, name).value.0[sidecar] == merged;
  }

  /** As intended, repeating a write changes nothing. */
  lemma WriteSidecarIdempotent(fs: FileSystem, dir: string, file: string, name: Json)
    requires WriteSidecar(fs, dir, file, name).Ok?
    ensures var r := WriteSidecar(fs, dir, file, name);
      WriteSidecar(r.value.0, dir, file, name) == r
  {
    UpdateSidecarIdempotent(fs, Join2(dir, SidecarName), file, name);
  }

  /** `output_path(type, output_directory, output_file, output_name)`, with
      the sidecar written as intended; `realpath` stands for
      `os.path.realpath`. */
  function OutputPath(n: Node, realpath: string -> string, fs: FileSystem,
                      directory: string, file: string, name: Json): (r: Result<(FileSystem, string)>)
    requires Printable(n.index)
    ensures var dir := Join2(realpath(Path(n)), directory);
      r == WriteSidecar(fs, dir, file, name) &&
      (r.Ok? ==> IsSuffix(file, r.value.1) && (!IsAbsolute(file) ==> IsPrefix(dir, r.value.1)))
  {
    WriteSidecar(fs, Join2(realpath(Path(n)), directory), file, name)
  }

  /** `output_generated_path(type, output_directory, output_file, output_name)`
      with the sidecar written as intended: None when no output edge has the
      type, otherwise the sidecar goes into the first such output's volume
      (`output_directory` is not used). With no type the code reaches
      `os.path.exists(None)`, which raises. */
  function OutputGeneratedPath(n: Node, fs: FileSystem, qt: Json, file: string, name: Json): (r: Result<(FileSystem, Option<string>)>)
  {
    if qt == JNull then Err(TypeError("stat: path should be string, not NoneType"))
    else if !Resolved(n) then Err(AttributeError("'NoneType' object has no attribute 'get'"))
    else
      var outs :- Outputs(n, qt);
      if |outs| == 0 then Ok((fs, None))
      else if !VolumeDefined(outs[0]) then Err(TypeError("volume of the first output"))
      else
        var written :- WriteSidecar(fs, Volume(outs[0]), file, name);
        Ok((written.0, Some(written.1)))
  }

  /** `output_generated_path` returns None exactly when no output edge has
      the type, and then writes nothing; otherwise it writes into the volume
      of the first output of that type. */
  lemma OutputGeneratedPathSpec(n: Node, fs: FileSystem, qt: Json, file: string, name: Json)
    requires qt != JNull && Resolved(n) && Outputs(n, qt).Ok?
    ensures var outs := Outputs(n, qt).value;
      var r := OutputGeneratedPath(n, fs, qt, file, name);
      (|outs| == 0 <==> r == Ok((fs, None))) &&
      (|outs| > 0 && VolumeDefined(outs[0]) ==>
        (r.Ok? <==> WriteSidecar(fs, Volume(outs[0]), file, name).Ok?) &&
        (r.Ok? ==> r.value.1 == Some(Join2(Volume(outs[0]), file)) &&
                   r.value.0 == WriteSidecar(fs, Volume(outs[0]), file, name).value.0))
  {
  }

  /** Without a type nothing is returned: the call fails. */
  lemma OutputGeneratedPathNeedsType(n: Node, fs: FileSystem, file: string, name: Json)
    ensures OutputGeneratedPath(n, fs, JNull, file, name).Err?
  {
  }

  /* ---------------- report ---------------- */

  const StdoutName: string := "output.raw"

  /** One command step of the run list. */
  function CommandStep(env: Json, command: Json): Json
  {
    JObj([("variables", env), ("command", command), ("stdout", JStr(StdoutName))])
  }

  /** The commands a run list is built from: each element of a list, or the
      one command otherwise. */
  function CommandsOf(command: Json): seq<Json>
  {
    if command.JArr? then command.items else [command]
  }

  function CommandSteps(env: Json, commands: seq<Json>): (r: seq<Json>)
    ensures |r| == |commands|
    ensures forall i :: 0 <= i < |r| ==> r[i] == CommandStep(env, commands[i])
  {
    if |commands| == 0 then [] else [CommandStep(env, commands[0])] + CommandSteps(env, commands[1..])
  }

  /** The run list `report(command, finish, env)` builds. */
  function RunList(command: Json, finish: Json, env: Json): (r: seq<Json>)
    ensures |r| == |CommandsOf(command)| + (if finish == JNull then 0 else 1)
    ensures forall i :: 0 <= i < |CommandsOf(command)| ==> r[i] == CommandStep(env, CommandsOf(command)[i])
    ensures finish != JNull ==> r[|r| - 1] == JObj([("command", finish)])
  {
    CommandSteps(env, CommandsOf(command)) + (if finish == JNull then [] else [JObj([("command", finish)])])
  }

  /** The command a step runs. */
  function StepCommand(step: Json): Json
  {
    if step.JObj? && "command" in Keys(step.members) then Get(step.members, "command").value else JNull
  }

  /** Reading the commands back out of the run list gives the commands
      reported, in order, followed by the finishing command if any. */
  lemma RunListCommands(command: Json, finish: Json, env: Json)
    ensures var r := RunList(command, finish, env);
      seq(|r|, i requires 0 <= i < |r| => StepCommand(r[i]))
        == CommandsOf(command) + (if finish == JNull then [] else [finish])
  {
    var r := RunList(command, finish, env);
    var cs := CommandsOf(command) + (if finish == JNull then [] else [finish]);
    forall i | 0 <= i < |r| ensures StepCommand(r[i]) == cs[i] {
      if i < |CommandsOf(command)| {
        var c := CommandsOf(command)[i];
        assert Get(CommandStep(env, c).members, "command") == Some(c);
      } else {
        assert Get(JObj([("command", finish)]).members, "command") == Some(finish);
      }
    }
  }

  /** Where `report` writes: `./init/<tag>/run.json`. */
  function ReportFile(n: Node): string
    requires Printable(n.index)
  {
    Join(".", ["init", Tag(n), "run.json"])
  }

  /** `report(command, finish, env)` for the node `Occam.load` gives: the run
      list replaces whatever the report file held. */
  function Report(n: Node, fs: FileSystem, command: Json, finish: Json, env: Json): (r: FileSystem)
    requires Printable(n.index)
    ensures r.Keys == fs.Keys + {ReportFile(n)}
    ensures r[ReportFile(n)] == JArr(RunList(command, finish, env))
    ensures forall p :: p in fs && p != ReportFile(n) ==> r[p] == fs[p]
  {
    fs[ReportFile(n) := JArr(RunList(command, finish, env))]
  }

  /** For a referenced object the report lands in its initialisation
      directory; for the native object it does not, since that directory is
      `./occam-run/None` while the report goes to `./init/None`. */
  lemma ReportFileLocation(n: Node)
    requires n.index.JInt? || IsNative(n)
    ensures n.index.JInt? ==> ReportFile(n) == InitializationPath(n) + "/run.json"
    ensures IsNative(n) ==> ReportFile(n) == "./init/None/run.json" &&
                            InitializationPath(n) + "/run.json" == "./occam-run/None/run.json"
  {
    var t := Tag(n);
    if n.index.JInt? {
      TagIsComponent(n);
      InitRunFile(t);
      assert InitializationPath(n) == "./init/" + t;
    } else {
      InitRunFile(t);
      assert "./init/" + "None" + "/run.json" == "./init/None/run.json";
      assert InitializationPath(n) == "./occam-run/None";
      assert "./occam-run/None" + "/run.json" == "./occam-run/None/run.json";
    }
  }

  lemma InitRunFile(t: string)
    requires t != "" && !IsAbsolute(t) && !EndsInSlash(t)
    ensures Join(".", ["init", t, "run.json"]) == "./init/" + t + "/run.json"
  {
    JoinRelative3(".", "init", t, "run.json");
    assert "." + "/" + "init" + "/" + t + "/" + "run.json" == "./init/" + t + "/run.json";
  }

  /* ---------------- finish ---------------- */

  /** Where `finish` writes: `<path>/run.json`. */
  function FinishFile(n: Node): string
    requires Printable(n.index)
  {
    Path(n) + "/run.json"
  }

  /** The run information `finish` writes back: `warnings` and `errors`
      replaced, every other key kept. Assigning into a run file that is not a
      mapping raises. */
  function FinishMerge(prior: Json, warnings: Json, errors: Json): (r: Result<Json>)
    ensures r.Ok? <==> prior.JObj?
    ensures r.Ok? ==> (r.value.JObj? &&
      Get(r.value.members, "warnings") == Some(warnings) &&
      Get(r.value.members, "errors") == Some(errors) &&
      forall k :: k != "warnings" && k != "errors" ==> Get(r.value.members, k) == Get(prior.members, k))
  {
    var withWarnings :- Assign(prior, "warnings", warnings);
    Assign(withWarnings, "errors", errors)
  }

  /** Merging the same lists again changes nothing. */
  lemma FinishMergeIdempotent(prior: Json, warnings: Json, errors: Json)
    requires prior.JObj?
    ensures FinishMerge(FinishMerge(prior, warnings, errors).value, warnings, errors) == FinishMerge(prior, warnings, errors)
  {
    var once := FinishMerge(prior, warnings, errors).value;
    SetExisting(once.members, "warnings", warnings);
    SetExisting(once.members, "errors", errors);
  }

  /** `finish(warnings, errors)` for the node `Occam.load` gives: the run
      information at `<path>/run.json` (or `{}` when there is none) is merged
      and written back; no other file changes. */
  function Finish(n: Node, fs: FileSystem, warnings: Json, errors: Json): (r: Result<FileSystem>)
    requires Printable(n.index)
    ensures var prior := if FinishFile(n) in fs then fs[FinishFile(n)] else JObj([]);
      (r.Ok? <==> prior.JObj?) &&
      (r.Ok? ==> r.value == fs[FinishFile(n) := FinishMerge(prior, warnings, errors).value])
  {
    var file := FinishFile(n);
    var prior := if file in fs then fs[file] else JObj([]);
    var info :- FinishMerge(prior, warnings, errors);
    Ok(fs[file := info])
  }

  /** Finishing twice with the same lists is finishing once. */
  lemma FinishIdempotent(n: Node, fs: FileSystem, warnings: Json, errors: Json)
    requires Printable(n.index) && Finish(n, fs, warnings, errors).Ok?
    ensures Finish(n, Finish(n, fs, warnings, errors).value, warnings, errors) == Finish(n, fs, warnings, errors)
  {
    var file := FinishFile(n);
    var prior := if file in fs then fs[file] else JObj([]);
    var info := FinishMerge(prior, warnings, errors).value;
    var once := fs[file := info];
    assert Finish(n, fs, warnings, errors) == Ok(once);
    assert FinishMerge(once[file], warnings, errors) == Ok(info) by {
      FinishMergeIdempotent(prior, warnings, errors);
    }
    assert once[file := info] == once;
  }

  /** `report` and `finish` write different files for the nodes `Occam.load`
      gives, so a report is never merged into by `finish`. */
  lemma ReportAndFinishFilesDiffer(n: Node)
    requires n.index.JInt? || IsNative(n)
    ensures ReportFile(n) != FinishFile(n)
  {
    ReportFileLocation(n);
    if n.index.JInt? {
      TagIsComponent(n);
      assert ReportFile(n)[2] != FinishFile(n)[2];
    } else {
      assert ReportFile(n)[2] != FinishFile(n)[2];
    }
  }

  /** A report leaves the finish file alone, so finishing after a report
      fails exactly when finishing before it would, and merges the same
      run information. */
  lemma FinishAfterReport(n: Node, fs: FileSystem, command: Json, finish: Json, env: Json, warnings: Json, errors: Json)
    requires n.index.JInt? || IsNative(n)
    ensures Finish(n, Report(n, fs, command, finish, env), warnings, errors).Ok? <==> Finish(n, fs, warnings, errors).Ok?
    ensures Finish(n, fs, warnings, errors).Ok? ==>
      Finish(n, Report(n, fs, command, finish, env), warnings, errors).value[FinishFile(n)] ==
      Finish(n, fs, warnings, errors).value[FinishFile(n)]
  {
    ReportAndFinishFilesDiffer(n);
    var file := FinishFile(n);
    var reported := Report(n, fs, command, finish, env);
    assert file in reported <==> file in fs;
    var prior := if file in fs then fs[file] else JObj([]);
    assert prior == if file in reported then reported[file] else JObj([]);
  }
}
