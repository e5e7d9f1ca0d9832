# Command safety core of Codemate AI Python CLI, in Dafny

Codemate turns a natural-language request into a shell command with a local
language model. Before anything runs, the command goes through a safety
pipeline:

- **Danger classifier** (`is_dangerous`): five regular expressions flag
  commands such as `rm -rf /`, `shutdown`, `reboot`, redirection into
  `/dev`, and `chmod 0…`.
- **Sanitizer** (`sanitize_and_parse`): splits the command on `&&`, drops
  blank segments, and checks every path-like argument with the sandbox test
  `is_path_sandboxed`. That test is lexical: `abspath`, `join` and
  `commonpath`. The sanitizer either returns the stripped operations or
  raises `ValidationError`.
- **Confirmation step** (`cli.py`): the user is asked once. On "y" or "Y",
  a command that starts with `rm ` is not run. Instead its second word is
  moved into `~/.trash`. Any other approved command goes to the tool.
- **Audit trail** (`audit.py`): each decision appends one JSON line to
  `audit_log.jsonl`.

The model is split into six files:

- `wrappers.dfy`: `Option` and `Result`.
- `text.dfy`: the Python string operations the pipeline uses, as pure
  functions. These are `isspace`, `strip`, `split()`, `split(sep)` and
  `join`.
- `paths.dfy`: the lexical `posixpath` functions.
- `validator.dfy`: the validator.
  - Each pattern is a predicate on a position. `IsDangerous` is a loop
    proved equal to "some pattern matches somewhere".
  - The sandbox test is characterised component-wise.
  - The sanitizer is a function. Its imperative loops (`FirstViolation`,
    `SanitizeSegments`) are proved equal to that function.
- `audit.dfy`: the record constructor and an `AuditLog` class. Each
  append adds exactly one line to the log's text. The text starts over
  only when the file itself is moved away.
- `cli.dfy`: the rest of the command path.
  - `interpret_nl` is a method.
  - The sanitise and re-join step is a function, `Rejoin`.
  - The rm interception test is a function, `ClassifyRm`.
  - A `FileSystem` class holds the set of existing paths.
  - The sanitise, re-join and "AMBIGUOUS" test of cli.py:161-171 is a
    method, `Screen`, that changes nothing.
  - A `Session` class holds the history, the log and the file system. Its
    `Interpret` (cli.py:156-159) and `Confirm` (cli.py:212-242) methods
    change state; `Confirm` hands its three outcomes to `TrashAndLog`,
    `ExecuteTool` and `Decline`.
  - The log is the file `audit_log.jsonl` in the working directory. The
    session invariant says that file exists whenever the log holds text.
    An approved `rm audit_log.jsonl` therefore moves the records so far
    into the trash, and the next append starts a new file holding only
    its own record.

What the outside world supplies appears as a parameter:

- the model's answer (`Translation`);
- the user's reply;
- the tool's answer, and any error raised while showing it (`ToolOutcome`);
- the error `os.rename` raises, if any;
- the random bytes, clock and login name (`Environment`);
- the process working directory;
- the home directory;
- `json.dumps`.

A command the sanitizer rejects writes no audit record: at cli.py:164-166
the loop prints the error and `continue`s. `Cli.Session.Interpret`
may modify only the session's history and `Cli.Screen` modifies nothing, so
a rejected command can touch neither the log nor the file system.

## Model

| member | source | states |
|---|---|---|
| Text.Strip | validator.py:34 | `strip()` leaves no whitespace at either end, and the result is empty exactly when the input is all whitespace |
| Text.Words | validator.py:34 | `split()` yields only non-empty words that contain no whitespace |
| Text.WordsEmpty | validator.py:34-36 | a segment has no words exactly when it is all whitespace, which is the `if not parts: continue` test |
| Text.WordsCons | cli.py:215 | a word that is followed by whitespace or by nothing is the first element of `split()` |
| Text.WordsTwo | cli.py:215 | two words separated by whitespace are the first two elements of `split()` |
| Text.StripPadded | validator.py:44 | stripping removes exactly the whitespace padding around a stripped text |
| Text.SplitPiecesFree | validator.py:30 | no piece of `split(sep)` contains `sep` |
| Text.SplitAtFirst | validator.py:30 | `split(sep)` cuts at the first occurrence of `sep` and continues after it |
| Paths.Basename | cli.py:221 | `basename` is the slash-free suffix that follows the last "/" |
| Paths.CommonPrefix | validator.py:26 | the common prefix is a prefix of both lists and stops at the first difference |
| Paths.CommonPrefixIsWhole | validator.py:26 | the common path equals the second list exactly when that list is a prefix of the first |
| Paths.NormJoin | validator.py:23 | normalising `join(a, b)` for a relative `b` walks `b`'s components from `a`'s normalised components |
| Paths.NormRender | validator.py:20 | normalising a rendered path gives back its components |
| Paths.RenderInjective | validator.py:26 | two normalised paths are equal as text exactly when their components are equal |
| Paths.ResolveExtends | validator.py:23 | walking components that contain no ".." never leaves the starting directory |
| Validator.Search | validator.py:13 | searching from a position finds a match exactly when one exists at or after that position |
| Validator.IsDangerous | validator.py:11-15 | the loop over the patterns answers true exactly when some pattern matches at some position |
| Validator.EmptyNotDangerous | validator.py:4-15 | the empty command is not dangerous |
| Validator.RmRfRootFlagged | validator.py:5 | "rm", whitespace, "-rf", whitespace and "/" is flagged when it starts the command or follows whitespace |
| Validator.ZeroModeFlagged | validator.py:5 | `chmod 000 f` is flagged |
| Validator.OctalModeNotFlagged | validator.py:5 | `chmod 0755 f` is not flagged, because a word boundary must follow the zeros |
| Validator.CaseSensitive | validator.py:5 | `shutdown` is flagged and `SHUTDOWN` is not |
| Validator.SandboxedIff | validator.py:17-26 | a path passes exactly when its resolved components extend the sandbox's components; an absolute path stands for itself |
| Validator.RootSandboxAdmitsAll | validator.py:17-26 | every path passes when the sandbox is "/" |
| Validator.DotIsSandboxed | validator.py:17-26 | "." passes in every sandbox |
| Validator.DescendingStaysInside | validator.py:17-26 | every relative path without a ".." component passes |
| Validator.ParentEscapes | validator.py:17-26 | ".." fails in every sandbox other than "/" |
| Validator.SharedTextPrefixOutside | validator.py:26 | "/root-evil" is not inside "/root": containment is by component, not by text prefix |
| Validator.AbsoluteBelowInside | validator.py:23-26 | "/root/notes" is inside "/root" |
| Validator.Message | validator.py:42 | the error message quotes the offending path |
| Validator.CheckedTokens | validator.py:38-40 | `../etc/passwd`, `/tmp`, `-C\temp` and `-x\y` are checked; `notes.txt`, `--prefix=/usr` and `-x/y` are not, following Python's precedence for `not a and b or c` |
| Validator.FirstWordUnchecked | validator.py:39 | the first word of a segment is never checked, so a one-word segment always passes |
| Validator.Violation | validator.py:39-42 | no violation exactly when every checked argument passes; otherwise the first checked argument that fails |
| Validator.FirstViolation | validator.py:39-42 | the inner loop returns exactly the first violation |
| Validator.SanitizeOpsOk | validator.py:30-46 | sanitising succeeds exactly when every segment passes, and it then returns every non-blank segment, stripped and in order, so a partial list is never returned |
| Validator.SanitizeOpsErr | validator.py:39-42 | a failure names a checked argument of some segment that fails the sandbox test, and every earlier segment passed |
| Validator.SanitizeSegments | validator.py:30-46 | the outer loop gives the same result as the sanitizer function |
| Validator.SanitizeAndParse | validator.py:28-46 | `sanitize_and_parse` splits on "&&" and runs the segment loop |
| Validator.StripIdempotent | validator.py:44 | stripping twice is stripping once |
| Validator.OperationsClean | validator.py:44 | every operation returned is stripped, free of "&&", non-blank and passing |
| Validator.RejoinSanitizes | validator.py:30-46 | a list of clean, passing operations joined with " && " sanitises back to the same list |
| Validator.Resanitize | validator.py:30-46 | re-sanitising the " && "-join of a sanitizer result returns the same list |
| Audit.Hex | audit.py:15 | the id has two lowercase hex digits per byte |
| Audit.UnhexHex | audit.py:15 | decoding the hex of the random bytes gives the bytes back |
| Audit.HexInjective | audit.py:15 | different random bytes never give the same id |
| Audit.CreateAuditRecord | audit.py:12-27 | the id is 16 lowercase hex digits that decode to the eight random bytes; every interpretation field, `approved` and `execution_result` is copied unchanged |
| Audit.LinesAppend | audit.py:9-10 | appending a newline-free line and "\n" to a log of whole lines adds exactly that line at the end |
| Audit.AuditLog.Append | audit.py:7-10 | the log text grows by the serialised record and one "\n"; the entries become the old entries plus this one |
| Audit.AuditLog.Restart | audit.py:5-9 | when the file at `audit_log.jsonl` has been moved away the log holds no text and no entries, so the next append opens a new file |
| Cli.InterpretNl | cli.py:50-104 | the safety flags are `["dangerous_command"]` exactly when the command is dangerous; every fallback gives the empty command, empty flags, `rule_fallback` true and the rule-based meta; a parsed answer is copied with the model's meta |
| Cli.RejoinIdempotent | cli.py:161-163 | a re-joined command passes again and is left unchanged |
| Cli.RejoinRejects | cli.py:161-166 | the command is rejected exactly when some "&&" segment has a checked argument outside the sandbox |
| Cli.RmHasTarget | cli.py:214-217 | a stripped command that starts with "rm " has at least two words, the first being "rm", and the second is the target |
| Cli.InterceptedIffRm | cli.py:214-236 | only commands starting with "rm " are intercepted, and the "no file specified" branch is unreachable |
| Cli.SecondWordTaken | cli.py:215-217 | the second word is the target whatever it is, including an option such as `-rf` |
| Cli.TrashDestinationShape | cli.py:218-222 | the destination is the trash directory, "/" and the target's base name, so targets with the same base name share a destination |
| Cli.LoggedResult | cli.py:113-121 | a successful tool answer is logged as output exactly when showing it raised nothing; an error answer is logged as the `KeyError` text `'stdout'`; an exception from showing the output or from the tool is logged as its message |
| Cli.Ancestors | cli.py:109 | the directories `makedirs` creates contain the target and the root, and are all prefixes of the target |
| Cli.FileSystem.Create | audit.py:9 | opening a file in append mode leaves it existing and adds no other entry |
| Cli.FileSystem.MakeDirs | cli.py:109 | the directory and all its ancestors exist afterwards |
| Cli.FileSystem.Rename | cli.py:223 | on success the source entry is replaced by the destination entry, silently overwriting it; on failure nothing changes |
| Cli.FileSystem.CreateTrashDirectory | cli.py:106-109 | afterwards the trash directory exists; if it already existed nothing changed, so a second call is a no-op |
| Cli.FileSystem.MoveToTrash | cli.py:218-231 | a missing target gives `File not found: <f>` and no change; a failed rename gives its error and no change; otherwise the target is absent (unless it already was its own destination), the destination exists, and nothing else changed |
| Cli.Screen | cli.py:161-171 | the turn stops with the validation error exactly when the re-join fails, and stops as ambiguous, keeping the explanation, exactly when the re-joined command is "AMBIGUOUS"; otherwise the interpretation goes on with only its command replaced by the re-joined one |
| Cli.Session.Interpret | cli.py:156-159 | the history gains "User: …" and "Assistant: …" exactly when there is a command; the interpretation carries the proposed command, the danger flag exactly when it is dangerous, and `rule_fallback` exactly when the model gave no usable answer; a usable answer's explanation and confidence are copied with the model's meta, otherwise they are empty and 0.0 with the rule-based meta; only the history changes |
| Cli.Session.Log | audit.py:7-10 | the record is appended as one entry and the log file exists afterwards; the session invariant is kept |
| Cli.Session.MoveAside | cli.py:217-231 | the result is "File not found", the rename error, or the move, in that order of precedence; only a move changes the files; moving the log file away empties the log, otherwise it is unchanged; the session invariant is kept |
| Cli.Session.TrashAndLog | cli.py:217-233 | exactly one approved record is written whatever happens; a missing target logs `File not found: <f>`, a failed rename logs its error, and both leave the files as they were apart from the log file; a successful move is logged and the files change by that move alone; when the move took the log file away the log holds only this record, otherwise it gains this record |
| Cli.Session.Decline | cli.py:239-241 | exactly one record is appended, not approved and with no execution result; the log file exists afterwards |
| Cli.Session.ExecuteTool | cli.py:113-124 | exactly one approved record with the logged tool result is appended; the log file exists afterwards |
| Cli.Session.Confirm | cli.py:212-242 | exactly one record is written, with `approved` true exactly for "y" or "Y"; a decline logs no execution result and leaves the files alone apart from the log file; an approved non-rm command logs the tool result; an approved rm never runs the command, logs `File not found`, the rename error or the move, moves at most the one target, and restarts the log when that target was the log file |

## Left out

- The language model, its loading and the JSON decoding of its reply (cli.py:34-48, 62-92). They are foreign code, so the reply is the `Translation` parameter.
- The console interface: prompts, tables, panels and colours.
- The "and then" branch (cli.py:144-154). It is a separate multi-command path.
- The low-confidence option menu (cli.py:173-207). It is user-interface code driven by a floating-point threshold. `Screen` ends before it and `Confirm` starts after it.
- The main loop, its exit words, and the catch-all exception handlers (cli.py:126-142, 244-248).
- `run_shell_command` (tools.py:5-13). It spawns a process, so its three answer shapes are the `ToolOutcome` parameter.
- Cli.Session.ExecuteTool: the shell command's own effects on the file system are not modelled, because the command runs in a separate process.
- `os.urandom`, `datetime.utcnow` and `os.getlogin` are supplied as `Environment`. A failing `os.getlogin` is not modelled; it would raise into the catch-all handler before any record is written.
- `json.dumps` is a function field of `AuditLog`. The model assumes only that its output has no raw newline, which JSON guarantees.
- Audit.AuditLog.Restart: only the case where the log file is moved away is modelled. The model keeps no contents for other files, so a file moved onto the log's path does not become the log's text.
- Cli.Session.TrashAndLog: when the trash destination is the log file itself (the working directory is the trash directory), the log keeps its text although a different file now sits at its path, because the model keeps no file contents.
- Audit.AuditLog.constructor: a log file that does not already end in a newline is not modelled.
- Concurrent writers to the log or the trash directory.
- Disk and permission errors while writing the log.
- Cli.FileSystem.Rename: it tracks only the entry that is renamed. The children of a renamed directory are not carried along.
- Cli.FileSystem.Rename: the reasons a rename fails (missing trash directory, another device, a directory in the way) are not derived. The error is an input.
- Paths are identified lexically: the normalised absolute components. Symbolic links, and the special meaning POSIX gives to a leading `//`, are not modelled.
- Only `posixpath` is modelled. The Windows path rules are not.
- Validator.IsDangerous: `\w` and `\b` are modelled on ASCII letters, digits and `_`. Python also counts other Unicode letters and digits as word characters, so a non-ASCII letter next to `shutdown`, `reboot` or `chmod` is read differently.
- Cli.InterpretNl: `confidence` is a `real`. Python would carry whatever JSON value the model sent; a non-number is not modelled.
- Cli.Screen: the safety flags describe the command before it is sanitised and re-joined, as in the code. The model does not relate them to the re-joined text.
