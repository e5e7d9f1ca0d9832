/**
 * The single-command path of cli.py: interpreting a request, sanitising and
 * re-joining the command, stopping on ambiguity, and the confirmation step
 * that either moves an `rm` target to the trash directory, runs the tool, or
 * records a refusal, writing one audit record.
 */
module Cli {
  import opened Wrappers
  import opened Text
  import opened Paths
  import opened Validator
  import opened Audit

  // ---------------------------------------------------------------------
  // interpret_nl
  // ---------------------------------------------------------------------

  /** What the language model produced: the call and the JSON decoding are outside the model. */
  datatype Translation =
    | NotLoaded                                                   // no model was loaded
    | CallFailed                                                  // the completion call raised
    | NotJson                                                     // the reply was not valid JSON
    | Parsed(command: string, explanation: string, confidence: real)

  const DangerFlag: string := "dangerous_command"
  const RuleBasedMeta: map<string, string> := map["model" := "rule-based-v1"]
  const ModelMeta: map<string, string> := map["model" := "llama-cpp-python"]

  /** The command `interpret_nl` settles on: the model's, or "" on every fallback. */
  function Proposed(translation: Translation): string {
    if translation.Parsed? then translation.command else ""
  }

  /**
   * `interpret_nl` (cli.py:50-104): the parsed fields, or the empty
   * rule-based fallback, with the danger flag added when the command matches
   * a dangerous pattern.
   */
  method InterpretNl(translation: Translation) returns (r: Interpretation)
    ensures r.command == Proposed(translation)
    ensures r.safetyFlags == (if Dangerous(r.command) then [DangerFlag] else [])
    ensures r.ruleFallback <==> !translation.Parsed?
    ensures translation.Parsed? ==>
      r.explanation == translation.explanation && r.confidence == translation.confidence && r.meta == ModelMeta
    ensures !translation.Parsed? ==>
      r.command == "" && r.explanation == "" && r.confidence == 0.0 && r.safetyFlags == [] && r.meta == RuleBasedMeta
  {
    var command, explanation, confidence := "", "", 0.0;
    var ruleFallback := false;
    var meta := RuleBasedMeta;
    match translation {
      case Parsed(c, e, k) =>
        command, explanation, confidence := c, e, k;
        meta := ModelMeta;
      case _ =>
        ruleFallback := true;
    }
    var safetyFlags := [];
    var dangerous := IsDangerous(command);
    if dangerous {
      safetyFlags := safetyFlags + [DangerFlag];
    }
    EmptyNotDangerous();
    r := Interpretation(command, explanation, confidence, safetyFlags, ruleFallback, meta);
  }

  // ---------------------------------------------------------------------
  // Sanitising and re-joining (cli.py:161-166)
  // ---------------------------------------------------------------------

  /** The command after `" && ".join(sanitize_and_parse(command, cwd))`, or the error raised. */
  function Rejoin(command: string, cwd: string, processDir: string): Result<string, ValidationError>
    requires IsAbs(processDir)
  {
    match Sanitize(command, cwd, processDir)
    case Ok(ops) => Ok(Join(ops, " && "))
    case Err(e) => Err(e)
  }

  /** A re-joined command passes again and is left as it is. */
  lemma RejoinIdempotent(command: string, cwd: string, processDir: string)
    requires IsAbs(processDir) && Rejoin(command, cwd, processDir).Ok?
    ensures Rejoin(Rejoin(command, cwd, processDir).value, cwd, processDir) == Rejoin(command, cwd, processDir)
  {
    var ops := Sanitize(command, cwd, processDir).value;
    Resanitize(command, cwd, processDir, ops);
  }

  /** The command is rejected exactly when some operation has a checked argument outside the sandbox. */
  lemma RejoinRejects(command: string, cwd: string, processDir: string)
    requires IsAbs(processDir)
    ensures Rejoin(command, cwd, processDir).Err? <==>
      exists op | op in Split(command, "&&") :: !OpAdmitted(op, Sandbox(cwd, processDir))
  {
    var segments := Split(command, "&&");
    var admits := Sandbox(cwd, processDir);
    SanitizeOpsOk(segments, admits);
    if !(forall op | op in segments :: OpAdmitted(op, admits)) {
      var op :| op in segments && !OpAdmitted(op, admits);
    }
  }

  // ---------------------------------------------------------------------
  // Confirmation and the rm interception (cli.py:212-242)
  // ---------------------------------------------------------------------

  /** `confirm.lower() == 'y'`: only "y" and "Y" lower-case to "y". */
  predicate IsYes(reply: string) {
    reply == "y" || reply == "Y"
  }

  datatype RmDecision = NotRm | NoTarget | TrashTarget(file: string)

  /**
   * The interception test of cli.py:214-217: a command that starts with
   * "rm " once stripped has its second word taken as the file to move.
   */
  function ClassifyRm(command: string): RmDecision {
    var s := Strip(command);
    if "rm " <= s then
      var parts := Words(s);
      if |parts| > 1 then TrashTarget(parts[1]) else NoTarget
    else NotRm
  }

  /**
   * The "no file specified" branch cannot be taken: a stripped command that
   * starts with "rm " ends in a non-space, so it has a second word, and the
   * first word is "rm".
   */
  lemma RmHasTarget(command: string)
    requires "rm " <= Strip(command)
    ensures |Words(Strip(command))| > 1 && Words(Strip(command))[0] == "rm"
    ensures ClassifyRm(command) == TrashTarget(Words(Strip(command))[1])
  {
    var s := Strip(command);
    assert s[0] == 'r' && s[1] == 'm' && s[2] == ' ';
    assert IsSpace(s[2]);
    assert WordEnd(s, 2) == 2;
    assert WordEnd(s, 1) == 2;
    assert s[..2] == "rm";
    assert Words(s) == [s[..2]] + Words(s[2..]);
    assert !AllSpace(s[2..]) by {
      assert s[2..][|s| - 3] == s[|s| - 1];
    }
    WordsEmpty(s[2..]);
  }

  /** Only commands that start with "rm " are intercepted. */
  lemma InterceptedIffRm(command: string)
    ensures ClassifyRm(command).TrashTarget? <==> "rm " <= Strip(command)
    ensures ClassifyRm(command) != NoTarget
  {
    if "rm " <= Strip(command) {
      RmHasTarget(command);
    }
  }

  /**
   * The second word is taken whatever it is: in "rm -rf build" the option
   * "-rf" is the file the interception tries to move.
   */
  lemma SecondWordTaken(command: string, file: string, rest: string)
    requires Strip(command) == "rm " + file + rest
    requires file != [] && NoSpace(file) && (rest == [] || IsSpace(rest[0]))
    ensures ClassifyRm(command) == TrashTarget(file)
  {
    SecondWord(Strip(command), file, rest);
    RmHasTarget(command);
  }

  lemma SecondWord(s: string, file: string, rest: string)
    requires s == "rm " + file + rest
    requires file != [] && NoSpace(file) && (rest == [] || IsSpace(rest[0]))
    ensures |Words(s)| > 1 && Words(s)[1] == file
  {
    RmPrefix(s, file + rest);
    WordsTwo(s[..2], s[2], s[3..], file, rest);
  }

  lemma RmPrefix(s: string, after: string)
    requires s == "rm " + after
    ensures NoSpace(s[..2]) && s[..2] != [] && IsSpace(s[2]) && s[3..] == after
    ensures s == s[..2] + [s[2]] + s[3..]
  {
  }

  /** `os.path.join(os.path.expanduser("~"), ".trash")`. */
  function TrashDir(home: string): string {
    JoinPath(home, ".trash")
  }

  lemma TrashDirEnd(home: string)
    ensures TrashDir(home) != [] && TrashDir(home)[|TrashDir(home)| - 1] == 'h'
  {
  }

  /** `os.path.join(trash_dir, os.path.basename(file))`. */
  function TrashDestination(trashDir: string, file: string): string {
    JoinPath(trashDir, Basename(file))
  }

  /** The base name of a path that ends in "/" followed by a slash-free name is that name. */
  lemma BasenameAfterSlash(dir: string, name: string)
    requires '/' !in name
    ensures Basename(dir + "/" + name) == name
  {
    var p := dir + "/" + name;
    var r := Basename(p);
    assert p[|p| - |name| - 1] == '/';
    assert r == p[|p| - |name|..] == name;
  }

  /** Joining a relative name onto a directory that does not end in "/" inserts one "/". */
  lemma JoinBelow(dir: string, file: string)
    requires dir != [] && dir[|dir| - 1] != '/'
    ensures JoinPath(dir, Basename(file)) == dir + "/" + Basename(file)
    ensures Basename(JoinPath(dir, Basename(file))) == Basename(file)
  {
    var b := Basename(file);
    assert !IsAbs(b) by {
      if b != [] {
        assert b[0] in b;
      }
    }
    BasenameAfterSlash(dir, b);
  }

  /**
   * A trashed file lands directly in the trash directory under its own base
   * name, so files with the same base name collide there.
   */
  lemma TrashDestinationShape(home: string, file: string)
    ensures TrashDestination(TrashDir(home), file) == TrashDir(home) + "/" + Basename(file)
    ensures Basename(TrashDestination(TrashDir(home), file)) == Basename(file)
  {
    TrashDirEnd(home);
    JoinBelow(TrashDir(home), file);
  }

  /** The tool's answer, `run_shell_command` in tools.py, which is not part of this model. */
  datatype ToolResult =
    | Completed(stdout: string, stderr: string, returncode: int)  // {"stdout", "stderr", "returncode"}
    | ProcessFailed(error: string, stderr: string)                // {"error", "stderr"}: non-zero exit
    | NotFound(error: string)                                     // {"error"}: program not found

  /**
   * What the `try` of `execute_tool` meets: the tool's answer together with
   * what showing its output raised, if anything (rich reads the output as
   * console markup, so an unmatched closing tag raises), or an exception
   * from the tool itself.
   */
  datatype ToolOutcome =
    | Returned(value: ToolResult, printError: Option<string>)
    | Raised(message: string)

  /** `str(KeyError('stdout'))`. */
  const StdoutKeyError: string := "'stdout'"

  /**
   * The `execution_result` `execute_tool` logs (cli.py:113-124): reading
   * `stdout` from an error answer raises `KeyError`, so every failed run
   * is logged as that error; an exception while showing the output, or
   * from the tool, is logged as its text.
   */
  function LoggedResult(outcome: ToolOutcome): (r: ExecResult)
    ensures r.Output? <==> outcome.Returned? && outcome.value.Completed? && outcome.printError.None?
    ensures r.Output? ==> r.stdout == outcome.value.stdout && r.stderr == outcome.value.stderr
                          && r.returncode == outcome.value.returncode
    ensures outcome.Returned? && !outcome.value.Completed? ==> r == Failure(StdoutKeyError)
    ensures outcome.Returned? && outcome.value.Completed? && outcome.printError.Some? ==>
      r == Failure(outcome.printError.value)
    ensures outcome.Raised? ==> r == Failure(outcome.message)
  {
    match outcome
    case Raised(message) => Failure(message)
    case Returned(Completed(out, err, code), None) => Output(out, err, code)
    case Returned(Completed(_, _, _), Some(error)) => Failure(error)
    case Returned(_, _) => Failure(StdoutKeyError)
  }

  // ---------------------------------------------------------------------
  // The file system the trash interception touches
  // ---------------------------------------------------------------------

  /** The prefixes of a component list: a directory and all its ancestors, the root included. */
  function Ancestors(cs: seq<string>): (a: set<seq<string>>)
    ensures cs in a && [] in a
    ensures forall p | p in a :: p <= cs
  {
    assert cs[..|cs|] == cs && cs[..0] == [];
    set k | 0 <= k <= |cs| :: cs[..k]
  }

  /**
   * The paths that exist, as the components of their absolute form.
   * `cwd` is the process working directory relative paths resolve against.
   */
  class FileSystem {
    const cwd: string
    var entries: set<seq<string>>

    ghost predicate Valid()
      reads this
    {
      IsAbs(cwd)
    }

    /** The entry a path names. */
    function Key(p: string): seq<string>
      requires IsAbs(cwd)
    {
      AbsComponents(p, cwd)
    }

    /** `os.path.exists(p)`; the empty path never exists. */
    predicate Exists(p: string)
      reads this
      requires IsAbs(cwd)
    {
      p != "" && Key(p) in entries
    }

    constructor (cwd: string, entries: set<seq<string>>)
      requires IsAbs(cwd)
      ensures Valid() && this.cwd == cwd && this.entries == entries
    {
      this.cwd := cwd;
      this.entries := entries;
    }

    /** Opening `p` in append mode: the file exists afterwards, created empty if it was missing. */
    method Create(p: string)
      modifies this
      requires Valid()
      ensures Valid()
      ensures entries == old(entries) + {Key(p)}
    {
      entries := entries + {Key(p)};
    }

    /** Moving `file` to `destination` takes the audit log away from its path. */
    predicate MovesLog(file: string, destination: string)
      requires IsAbs(cwd)
    {
      Key(file) == Key(AuditLogFile) && Key(destination) != Key(AuditLogFile)
    }

    /** `os.makedirs(p)`: the directory and every missing ancestor come into existence. */
    method MakeDirs(p: string)
      modifies this
      requires Valid()
      ensures Valid()
      ensures entries == old(entries) + Ancestors(Key(p))
      ensures p != "" ==> Exists(p)
    {
      entries := entries + Ancestors(Key(p));
    }

    /**
     * `os.rename(src, dst)`: `failure` is the error the call raises, if
     * any. On success the source is gone and the destination exists, an
     * existing destination being replaced.
     */
    method Rename(src: string, dst: string, failure: Option<string>) returns (error: Option<string>)
      modifies this
      requires Valid()
      ensures Valid()
      ensures error == failure
      ensures failure.Some? ==> entries == old(entries)
      ensures failure.None? ==> entries == old(entries) - {Key(src)} + {Key(dst)}
    {
      error := failure;
      if failure.None? {
        entries := entries - {Key(src)} + {Key(dst)};
      }
    }

    /**
     * `create_trash_directory` (cli.py:106-109): afterwards the trash
     * directory exists, and a second call changes nothing.
     */
    method CreateTrashDirectory(home: string)
      modifies this
      requires Valid()
      ensures Valid()
      ensures Exists(TrashDir(home))
      ensures old(Exists(TrashDir(home))) ==> entries == old(entries)
      ensures !old(Exists(TrashDir(home))) ==> entries == old(entries) + Ancestors(Key(TrashDir(home)))
    {
      var trashDir := TrashDir(home);
      if !Exists(trashDir) {
        MakeDirs(trashDir);
      }
    }

    /**
     * The trash move of cli.py:218-231: a missing file is reported, a
     * failed rename is reported with its error, otherwise the file is
     * renamed to its base name inside the trash directory.
     */
    method MoveToTrash(file: string, home: string, renameError: Option<string>) returns (result: ExecResult)
      modifies this
      requires Valid()
      ensures Valid()
      ensures !old(Exists(file)) ==> result == Failure("File not found: " + file) && entries == old(entries)
      ensures old(Exists(file)) && renameError.Some? ==> result == Failure(renameError.value) && entries == old(entries)
      ensures old(Exists(file)) && renameError.None? ==>
        var destination := TrashDestination(TrashDir(home), file);
        && result == Trashed(file, destination)
        && entries == old(entries) - {Key(file)} + {Key(destination)}
        && Exists(destination)
        && (Key(file) != Key(destination) ==> !Exists(file))
    {
      if Exists(file) {
        var destination := TrashDestination(TrashDir(home), file);
        TrashDestinationShape(home, file);
        var error := Rename(file, destination, renameError);
        if error.Some? {
          result := Failure(error.value);
        } else {
          result := Trashed(file, destination);
        }
      } else {
        result := Failure("File not found: " + file);
      }
    }
  }

  // ---------------------------------------------------------------------
  // A session: history, audit log and file system
  // ---------------------------------------------------------------------

  /** How the first half of a turn ends. */
  datatype Stage =
    | Rejected(error: ValidationError)   // the sanitizer raised: nothing runs, nothing is logged
    | Ambiguous(explanation: string)     // the model answered "AMBIGUOUS": the user is asked again
    | Ready(result: Interpretation)      // the re-joined command goes on to confirmation

  /** The history lines a turn adds: the request and the command, when there is a command. */
  function Exchange(nlCommand: string, command: string): seq<string> {
    if command == "" then [] else ["User: " + nlCommand, "Assistant: " + command]
  }

  /**
   * cli.py:161-171: sanitise the command and re-join its operations,
   * stopping on a validation error or on the model's "AMBIGUOUS" answer.
   * The interpretation keeps every field but the command.
   */
  method Screen(result: Interpretation, cwd: string) returns (stage: Stage)
    requires IsAbs(cwd)
    ensures stage.Rejected? <==> Rejoin(result.command, cwd, cwd).Err?
    ensures stage.Rejected? ==> stage.error == Rejoin(result.command, cwd, cwd).error
    ensures stage.Ambiguous? <==> Rejoin(result.command, cwd, cwd) == Ok("AMBIGUOUS")
    ensures stage.Ambiguous? ==> stage.explanation == result.explanation
    ensures stage.Ready? ==>
      && Rejoin(result.command, cwd, cwd) == Ok(stage.result.command)
      && stage.result.command != "AMBIGUOUS"
      && stage.result == result.(command := stage.result.command)
  {
    var sanitized := SanitizeAndParse(result.command, cwd, cwd);
    var screened := result;
    match sanitized {
      case Err(e) =>
        return Rejected(e);
      case Ok(ops) =>
        screened := result.(command := Join(ops, " && "));
    }
    if screened.command == "AMBIGUOUS" {
      return Ambiguous(screened.explanation);
    }
    stage := Ready(screened);
  }

  /**
   * A session: the history, the audit log and the file system. The log's
   * text is the content of the file `audit_log.jsonl` in the working
   * directory, so a log with records implies that file exists.
   */
  class Session {
    const log: AuditLog
    const fs: FileSystem
    const home: string
    var history: seq<string>

    ghost predicate Valid()
      reads log, fs
    {
      log.Valid() && fs.Valid() && (log.text != "" ==> fs.Exists(AuditLogFile))
    }

    constructor (log: AuditLog, fs: FileSystem, home: string)
      requires log.Valid() && fs.Valid() && (log.text != "" ==> fs.Exists(AuditLogFile))
      ensures Valid()
      ensures this.log == log && this.fs == fs && this.home == home && history == []
    {
      this.log := log;
      this.fs := fs;
      this.home := home;
      history := [];
    }

    /**
     * cli.py:156-159: interpret the request and remember the exchange when
     * there is a command. Only the history changes.
     */
    method Interpret(nlCommand: string, translation: Translation) returns (result: Interpretation)
      modifies this
      ensures history == old(history) + Exchange(nlCommand, Proposed(translation))
      ensures result.command == Proposed(translation)
      ensures result.safetyFlags == (if Dangerous(result.command) then [DangerFlag] else [])
      ensures result.ruleFallback <==> !translation.Parsed?
      ensures translation.Parsed? ==>
        result.explanation == translation.explanation && result.confidence == translation.confidence
        && result.meta == ModelMeta
      ensures !translation.Parsed? ==>
        result.explanation == "" && result.confidence == 0.0 && result.meta == RuleBasedMeta
    {
      result := InterpretNl(translation);
      if result.command != "" {
        history := history + ["User: " + nlCommand, "Assistant: " + result.command];
      }
    }

    /**
     * `log_audit_record` (audit.py:7-10): the record is appended to the log,
     * and opening the file in append mode makes sure it exists.
     */
    method Log(record: AuditRecord)
      modifies log, fs
      requires Valid()
      ensures Valid()
      ensures log.Entries() == old(log.Entries()) + [log.dumps(record)]
      ensures fs.entries == old(fs.entries) + {fs.Key(AuditLogFile)}
    {
      log.Append(record);
      fs.Create(AuditLogFile);
    }

    /** `execute_tool` (cli.py:113-124): whatever the tool does, one approved record is written. */
    method ExecuteTool(nlCommand: string, result: Interpretation, tool: ToolOutcome, env: Environment)
      returns (record: AuditRecord)
      modifies log, fs
      requires Valid() && |env.entropy| == 8
      ensures Valid()
      ensures record == CreateAuditRecord(nlCommand, result, true, Some(LoggedResult(tool)), env)
      ensures log.Entries() == old(log.Entries()) + [log.dumps(record)]
      ensures fs.entries == old(fs.entries) + {fs.Key(AuditLogFile)}
    {
      var executionResult := LoggedResult(tool);
      record := CreateAuditRecord(nlCommand, result, true, Some(executionResult), env);
      Log(record);
    }

    /**
     * cli.py:217-231: move `file` to the trash. If it was the audit log, the
     * log's path is left empty and the next record starts the file over.
     */
    method MoveAside(file: string, renameError: Option<string>) returns (executionResult: ExecResult)
      modifies log, fs
      requires Valid()
      ensures log.Valid() && fs.Valid()
      ensures log.text != "" ==> fs.Exists(AuditLogFile)
      ensures var destination := TrashDestination(TrashDir(home), file);
        && executionResult == (if !old(fs.Exists(file)) then Failure("File not found: " + file)
                               else if renameError.Some? then Failure(renameError.value)
                               else Trashed(file, destination))
        && fs.entries == (if executionResult.Trashed?
                          then old(fs.entries) - {fs.Key(file)} + {fs.Key(destination)}
                          else old(fs.entries))
        && log.Entries() == (if executionResult.Trashed? && fs.MovesLog(file, destination) then []
                             else old(log.Entries()))
    {
      executionResult := fs.MoveToTrash(file, home, renameError);
      if !fs.Exists(AuditLogFile) {
        log.Restart();
      }
    }

    /**
     * cli.py:217-233: move the target to the trash and log the outcome,
     * whatever it is, as an approved run. When the target is the audit log
     * itself, the records so far go to the trash with it and the log starts
     * over with this record.
     */
    method TrashAndLog(nlCommand: string, result: Interpretation, file: string,
                       renameError: Option<string>, env: Environment)
      returns (record: AuditRecord)
      modifies log, fs
      requires Valid() && |env.entropy| == 8
      ensures Valid()
      ensures record == CreateAuditRecord(nlCommand, result, true, record.executionResult, env)
      ensures !old(fs.Exists(file)) ==> record.executionResult == Some(Failure("File not found: " + file))
      ensures old(fs.Exists(file)) && renameError.Some? ==>
        record.executionResult == Some(Failure(renameError.value))
      ensures var destination := TrashDestination(TrashDir(home), file);
        old(fs.Exists(file)) && renameError.None? ==>
          && record.executionResult == Some(Trashed(file, destination))
          && fs.entries == old(fs.entries) - {fs.Key(file)} + {fs.Key(destination)} + {fs.Key(AuditLogFile)}
      ensures !(old(fs.Exists(file)) && renameError.None?) ==>
        fs.entries == old(fs.entries) + {fs.Key(AuditLogFile)}
      ensures var moved := old(fs.Exists(file)) && renameError.None?;
        var destination := TrashDestination(TrashDir(home), file);
        && (moved && fs.MovesLog(file, destination) ==> log.Entries() == [log.dumps(record)])
        && (!(moved && fs.MovesLog(file, destination)) ==>
              log.Entries() == old(log.Entries()) + [log.dumps(record)])
    {
      var executionResult := MoveAside(file, renameError);
      record := CreateAuditRecord(nlCommand, result, true, Some(executionResult), env);
      Log(record);
    }

    /** cli.py:239-241: a declined command is logged as not approved, with no result. */
    method Decline(nlCommand: string, result: Interpretation, env: Environment) returns (record: AuditRecord)
      modifies log, fs
      requires Valid() && |env.entropy| == 8
      ensures Valid()
      ensures record == CreateAuditRecord(nlCommand, result, false, None, env)
      ensures log.Entries() == old(log.Entries()) + [log.dumps(record)]
      ensures fs.entries == old(fs.entries) + {fs.Key(AuditLogFile)}
    {
      record := CreateAuditRecord(nlCommand, result, false, None, env);
      Log(record);
    }

    /**
     * The confirmation of cli.py:212-242. A "y" moves an `rm` target to the
     * trash or runs the tool; any other reply is recorded as declined. Either
     * way exactly one record about this command is written.
     */
    method Confirm(nlCommand: string, result: Interpretation, reply: string, tool: ToolOutcome,
                   renameError: Option<string>, env: Environment)
      returns (record: AuditRecord)
      modifies log, fs
      requires Valid() && |env.entropy| == 8
      ensures Valid()
      ensures record == CreateAuditRecord(nlCommand, result, IsYes(reply), record.executionResult, env)
      ensures !IsYes(reply) ==>
        && record.executionResult == None
        && log.Entries() == old(log.Entries()) + [log.dumps(record)]
        && fs.entries == old(fs.entries) + {fs.Key(AuditLogFile)}
      ensures IsYes(reply) && ClassifyRm(result.command) == NotRm ==>
        && record.executionResult == Some(LoggedResult(tool))
        && log.Entries() == old(log.Entries()) + [log.dumps(record)]
        && fs.entries == old(fs.entries) + {fs.Key(AuditLogFile)}
      ensures IsYes(reply) && ClassifyRm(result.command).TrashTarget? ==>
        var file := ClassifyRm(result.command).file;
        var destination := TrashDestination(TrashDir(home), file);
        var moved := old(fs.Exists(file)) && renameError.None?;
        && (!old(fs.Exists(file)) ==> record.executionResult == Some(Failure("File not found: " + file)))
        && (old(fs.Exists(file)) && renameError.Some? ==>
              record.executionResult == Some(Failure(renameError.value)))
        && (moved ==>
              && record.executionResult == Some(Trashed(file, destination))
              && fs.entries == old(fs.entries) - {fs.Key(file)} + {fs.Key(destination)} + {fs.Key(AuditLogFile)})
        && (!moved ==> fs.entries == old(fs.entries) + {fs.Key(AuditLogFile)})
        && (moved && fs.MovesLog(file, destination) ==> log.Entries() == [log.dumps(record)])
        && (!(moved && fs.MovesLog(file, destination)) ==>
              log.Entries() == old(log.Entries()) + [log.dumps(record)])
    {
      if IsYes(reply) {
        InterceptedIffRm(result.command);
        var decision := ClassifyRm(result.command);
        match decision {
          case TrashTarget(file) =>
            record := TrashAndLog(nlCommand, result, file, renameError, env);
          case NotRm =>
            record := ExecuteTool(nlCommand, result, tool, env);
        }
      } else {
        record := Decline(nlCommand, result, env);
      }
    }
  }
}
