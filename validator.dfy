/**
 * validator.py: the danger classifier, the path sandbox test and the
 * `&&`-sequence sanitizer that fails closed.
 */
module Validator {
  import opened Wrappers
  import opened Text
  import opened Paths

  // ---------------------------------------------------------------------
  // Danger classification
  // ---------------------------------------------------------------------

  /** The entries of DANGEROUS_PATTERNS (validator.py:4-6), in their order. */
  datatype Pattern =
    | RmRfRoot          // (^|\s)rm\s+-rf\s+/
    | Shutdown          // \bshutdown\b
    | Reboot            // \breboot\b
    | RedirectToDevice  // >\s*/dev
    | ChmodZero         // \bchmod\s+0+\b

  const DangerousPatterns: seq<Pattern> := [RmRfRoot, Shutdown, Reboot, RedirectToDevice, ChmodZero]

  /** `w` occurs in `s` at position `i`. */
  predicate HasAt(s: string, i: nat, w: string) {
    i + |w| <= |s| && s[i..i + |w|] == w
  }

  /** The end of the run of whitespace that starts at `i` (a greedy `\s*`). */
  function SkipSpaces(s: string, i: nat): (j: nat)
    requires i <= |s|
    ensures i <= j <= |s|
    ensures forall k | i <= k < j :: IsSpace(s[k])
    ensures j == |s| || !IsSpace(s[j])
    decreases |s| - i
  {
    if i < |s| && IsSpace(s[i]) then SkipSpaces(s, i + 1) else i
  }

  /** The end of the run of '0' characters that starts at `i` (a greedy `0*`). */
  function SkipZeros(s: string, i: nat): (j: nat)
    requires i <= |s|
    ensures i <= j <= |s|
    ensures forall k | i <= k < j :: s[k] == '0'
    ensures j == |s| || s[j] != '0'
    decreases |s| - i
  {
    if i < |s| && s[i] == '0' then SkipZeros(s, i + 1) else i
  }

  /** `\b` in front of a word character at `i`. */
  predicate BoundaryBefore(s: string, i: nat)
    requires i <= |s|
  {
    i == 0 || !IsWordChar(s[i - 1])
  }

  /** `\b` behind a word character that ends at `j`. */
  predicate BoundaryAfter(s: string, j: nat)
    requires j <= |s|
  {
    j == |s| || !IsWordChar(s[j])
  }

  /**
   * Pattern `p` matches `s` with its first literal character at `i`.
   * Each `\s+` and `0+` is taken greedily: the character that must follow
   * such a run never belongs to it, so no backtracking can find another match.
   */
  predicate MatchesAt(p: Pattern, s: string, i: nat)
    requires i <= |s|
  {
    match p
    case RmRfRoot =>
      HasAt(s, i, "rm") && (i == 0 || IsSpace(s[i - 1]))
      && (var j := SkipSpaces(s, i + 2);
          j > i + 2 && HasAt(s, j, "-rf")
          && (var k := SkipSpaces(s, j + 3); k > j + 3 && HasAt(s, k, "/")))
    case Shutdown =>
      HasAt(s, i, "shutdown") && BoundaryBefore(s, i) && BoundaryAfter(s, i + 8)
    case Reboot =>
      HasAt(s, i, "reboot") && BoundaryBefore(s, i) && BoundaryAfter(s, i + 6)
    case RedirectToDevice =>
      HasAt(s, i, ">") && HasAt(s, SkipSpaces(s, i + 1), "/dev")
    case ChmodZero =>
      HasAt(s, i, "chmod") && BoundaryBefore(s, i)
      && (var j := SkipSpaces(s, i + 5);
          j > i + 5 && (var z := SkipZeros(s, j); z > j && BoundaryAfter(s, z)))
  }

  /** `re.search(p, s)` finds a match starting at or after `from`. */
  function Search(p: Pattern, s: string, from: nat): (found: bool)
    requires from <= |s|
    ensures found <==> exists i :: from <= i <= |s| && MatchesAt(p, s, i)
    decreases |s| - from
  {
    MatchesAt(p, s, from) || (from < |s| && Search(p, s, from + 1))
  }

  /** Some dangerous pattern matches somewhere in `command`. */
  ghost predicate Dangerous(command: string) {
    exists k, i :: 0 <= k < |DangerousPatterns| && 0 <= i <= |command|
                   && MatchesAt(DangerousPatterns[k], command, i)
  }

  /** `is_dangerous` (validator.py:11-15): the patterns are tried in order, the first hit answers. */
  method IsDangerous(command: string) returns (dangerous: bool)
    ensures dangerous <==> Dangerous(command)
  {
    for k := 0 to |DangerousPatterns|
      invariant forall m, i | 0 <= m < k && 0 <= i <= |command| :: !MatchesAt(DangerousPatterns[m], command, i)
    {
      if Search(DangerousPatterns[k], command, 0) {
        return true;
      }
    }
    return false;
  }

  lemma SkipSpacesOver(s: string, i: nat, j: nat)
    requires i <= j <= |s|
    requires forall k | i <= k < j :: IsSpace(s[k])
    requires j == |s| || !IsSpace(s[j])
    ensures SkipSpaces(s, i) == j
    decreases j - i
  {
    if i < j {
      SkipSpacesOver(s, i + 1, j);
    }
  }

  /** Every pattern begins with a fixed character. */
  function Lead(p: Pattern): char {
    match p
    case RmRfRoot => 'r'
    case Shutdown => 's'
    case Reboot => 'r'
    case RedirectToDevice => '>'
    case ChmodZero => 'c'
  }

  /** A pattern cannot match where its first character is missing. */
  lemma NoMatchWithoutLead(p: Pattern, s: string, i: nat)
    requires i <= |s| && (i == |s| || s[i] != Lead(p))
    ensures !MatchesAt(p, s, i)
  {
  }

  /** The empty command is never dangerous. */
  lemma EmptyNotDangerous()
    ensures !Dangerous("")
  {
  }

  lemma RmRfRootAt(s: string, i: nat, j: nat, k: nat)
    requires i + 2 < j && j + 3 < k < |s|
    requires s[i..i + 2] == "rm" && (i == 0 || IsSpace(s[i - 1]))
    requires forall m | i + 2 <= m < j :: IsSpace(s[m])
    requires s[j..j + 3] == "-rf"
    requires forall m | j + 3 <= m < k :: IsSpace(s[m])
    requires s[k] == '/'
    ensures MatchesAt(RmRfRoot, s, i)
  {
    assert s[j] == s[j..j + 3][0] == '-';
    SkipSpacesOver(s, i + 2, j);
    SkipSpacesOver(s, j + 3, k);
    assert HasAt(s, j, "-rf");
    assert HasAt(s, k, "/") by { assert s[k..k + 1] == [s[k]]; }
  }

  /** A match of any listed pattern at any position flags the command. */
  lemma FlaggedBy(n: nat, s: string, i: nat)
    requires n < |DangerousPatterns| && i <= |s| && MatchesAt(DangerousPatterns[n], s, i)
    ensures Dangerous(s)
  {
  }

  /** The characters of `gap` keep their places inside `pre + gap + post`. */
  lemma SpacesInside(pre: string, gap: string, s: string)
    requires AllSpace(gap) && pre + gap <= s
    ensures forall m | |pre| <= m < |pre| + |gap| :: IsSpace(s[m])
  {
    forall m | |pre| <= m < |pre| + |gap| ensures IsSpace(s[m]) {
      assert s[m] == (pre + gap)[m] == gap[m - |pre|];
    }
  }

  /**
   * "rm" at the start or after whitespace, then whitespace, "-rf",
   * whitespace and "/" is flagged, whatever surrounds it.
   */
  lemma RmRfRootFlagged(before: string, gap1: string, gap2: string, after: string)
    requires before == [] || IsSpace(before[|before| - 1])
    requires gap1 != [] && AllSpace(gap1) && gap2 != [] && AllSpace(gap2)
    ensures Dangerous(before + "rm" + gap1 + "-rf" + gap2 + "/" + after)
  {
    var head := before + "rm";
    var flag := head + gap1 + "-rf";
    var root := flag + gap2 + "/";
    var s := root + after;
    var i := |before|;
    var j := |head| + |gap1|;
    var k := |flag| + |gap2|;
    assert s[i..i + 2] == "rm" by {
      assert s[i..i + 2] == head[i..];
    }
    assert i == 0 || IsSpace(s[i - 1]) by {
      if i > 0 { assert s[i - 1] == head[i - 1] == before[i - 1]; }
    }
    assert s[j..j + 3] == "-rf" by {
      assert s[j..j + 3] == flag[j..];
    }
    assert s[k] == root[k] == '/';
    SpacesInside(head, gap1, s);
    SpacesInside(flag, gap2, s);
    RmRfRootAt(s, i, j, k);
    FlaggedBy(0, s, i);
  }

  /** Nothing matches when no pattern matches at any position. */
  lemma NoPatternMatches(s: string)
    requires forall p: Pattern, i | 0 <= i <= |s| :: !MatchesAt(p, s, i)
    ensures !Dangerous(s)
  {
  }

  /** A mode of zeros only is flagged. */
  lemma ZeroModeFlagged()
    ensures Dangerous("chmod 000 f")
  {
    var s := "chmod 000 f";
    SkipSpacesOver(s, 5, 6);
    assert SkipZeros(s, 6) == 9;
    assert s[0..5] == "chmod";
    assert MatchesAt(DangerousPatterns[4], s, 0);
  }

  /** A mode with a digit other than 0 is not: no word boundary follows its leading zero. */
  lemma OctalModeNotFlagged()
    ensures !Dangerous("chmod 0755 f")
  {
    var s := "chmod 0755 f";
    forall p: Pattern, i | 0 <= i <= |s| ensures !MatchesAt(p, s, i) {
      if i < |s| && s[i] == Lead(p) {
        assert i == 0 && p == ChmodZero;
        SkipSpacesOver(s, 5, 6);
        assert SkipZeros(s, 6) == 7;
        assert IsWordChar(s[7]);
      } else {
        NoMatchWithoutLead(p, s, i);
      }
    }
    NoPatternMatches(s);
  }

  /** Matching is case-sensitive. */
  lemma CaseSensitive()
    ensures Dangerous("sudo shutdown -h now")
    ensures !Dangerous("sudo SHUTDOWN -h now")
  {
    var s := "sudo shutdown -h now";
    assert s[5..13] == "shutdown";
    assert MatchesAt(DangerousPatterns[1], s, 5);
    var u := "sudo SHUTDOWN -h now";
    forall p: Pattern, i | 0 <= i <= |u| ensures !MatchesAt(p, u, i) {
      if i < |u| && u[i] == Lead(p) {
        assert i == 0 && p == Shutdown;
        assert u[0..8][1] != "shutdown"[1];
      } else {
        NoMatchWithoutLead(p, u, i);
      }
    }
    NoPatternMatches(u);
  }

  // ---------------------------------------------------------------------
  // Path sandbox
  // ---------------------------------------------------------------------

  /**
   * `is_path_sandboxed(path, sandbox_dir)`: `processDir` is the directory
   * `os.getcwd()` reports, against which a relative `sandbox_dir` resolves.
   */
  predicate IsPathSandboxed(path: string, sandboxDir: string, processDir: string)
    requires IsAbs(processDir)
  {
    var sandbox := Abspath(sandboxDir, processDir);
    var resolved := Abspath(JoinPath(sandbox, path), processDir);
    Commonpath(resolved, sandbox) == sandbox
  }

  /**
   * Where `path` lands, as components, seen from the sandbox with
   * components `sandbox`: an absolute path stands for itself, a relative
   * one is walked from the sandbox, ".." climbing out of it.
   */
  function Target(path: string, sandbox: seq<string>): seq<string> {
    if IsAbs(path) then NormComponents(path) else Resolve(sandbox, Split(path, "/"))
  }

  lemma TargetNames(path: string, sandbox: seq<string>)
    requires AllNames(sandbox)
    ensures AllNames(Target(path, sandbox))
  {
    if IsAbs(path) {
      NormNames(path);
    } else {
      SplitSlashFree(path);
      ResolveKeepsNames(sandbox, Split(path, "/"));
    }
  }

  /**
   * The sandbox test is a component-wise prefix test: `path` is inside
   * exactly when the sandbox's components begin where it lands.
   */
  lemma SandboxedIff(path: string, sandboxDir: string, processDir: string)
    requires IsAbs(processDir)
    ensures var s := AbsComponents(sandboxDir, processDir);
      IsPathSandboxed(path, sandboxDir, processDir) <==> s <= Target(path, s)
  {
    var s := AbsComponents(sandboxDir, processDir);
    var sandbox := Render(s);
    var t := Target(path, s);
    NormNames(if IsAbs(sandboxDir) then sandboxDir else JoinPath(processDir, sandboxDir));
    TargetNames(path, s);
    var joined := JoinPath(sandbox, path);
    assert IsAbs(joined);
    assert NormComponents(joined) == t by {
      if !IsAbs(path) {
        NormJoin(sandbox, path);
        NormRender(s);
      }
    }
    assert Abspath(joined, processDir) == Render(t);
    ComponentsRender(t);
    ComponentsRender(s);
    var c := CommonPrefix(t, s);
    assert Commonpath(Render(t), sandbox) == Render(c);
    assert AllNames(c) by {
      forall k | 0 <= k < |c| ensures IsName(c[k]) {
        assert c[k] == t[k];
      }
    }
    if Render(c) == sandbox {
      RenderInjective(c, s);
    }
    CommonPrefixIsWhole(t, s);
  }

  /** A sandbox at the root admits every path. */
  lemma RootSandboxAdmitsAll(path: string, processDir: string)
    requires IsAbs(processDir)
    ensures IsPathSandboxed(path, "/", processDir)
  {
    SandboxedIff(path, "/", processDir);
    assert Split("/", "/") == ["", ""];
    assert AbsComponents("/", processDir) == [];
  }

  /** A relative path without a ".." component stays inside. */
  lemma DescendingStaysInside(path: string, sandboxDir: string, processDir: string)
    requires IsAbs(processDir) && !IsAbs(path)
    requires forall c | c in Split(path, "/") :: c != ".."
    ensures IsPathSandboxed(path, sandboxDir, processDir)
  {
    var cs := Split(path, "/");
    forall k | 0 <= k < |cs| ensures cs[k] != ".." {
      assert cs[k] in cs;
    }
    SandboxedIff(path, sandboxDir, processDir);
    ResolveExtends(AbsComponents(sandboxDir, processDir), cs);
  }

  /** "." names the sandbox itself. */
  lemma DotIsSandboxed(sandboxDir: string, processDir: string)
    requires IsAbs(processDir)
    ensures IsPathSandboxed(".", sandboxDir, processDir)
  {
    var dot := ".";
    assert !("/" <= dot) by {
      assert dot[..1][0] == '.';
    }
    assert dot[1..] == [];
    assert Split(dot[1..], "/") == [""];
    assert Split(dot, "/") == [[dot[0]] + ""];
    DescendingStaysInside(".", sandboxDir, processDir);
  }

  /** ".." leaves any sandbox other than the root. */
  lemma ParentEscapes(sandboxDir: string, processDir: string)
    requires IsAbs(processDir) && AbsComponents(sandboxDir, processDir) != []
    ensures !IsPathSandboxed("..", sandboxDir, processDir)
  {
    var s := AbsComponents(sandboxDir, processDir);
    SandboxedIff("..", sandboxDir, processDir);
    SlashFreeNotContains("..");
    SplitWithout("..", "/");
    assert Resolve(s, [".."]) == Resolve(s[..|s| - 1], []);
  }

  /**
   * The test compares whole components, not characters: "/root-evil"
   * shares the prefix "/root" as text but is outside the sandbox "/root".
   */
  lemma SharedTextPrefixOutside(processDir: string)
    requires IsAbs(processDir)
    ensures !IsPathSandboxed("/root-evil", "/root", processDir)
  {
    assert "/root" == Render(["root"]);
    assert "/root-evil" == Render(["root-evil"]);
    NormRender(["root"]);
    NormRender(["root-evil"]);
    SandboxedIff("/root-evil", "/root", processDir);
  }

  /** An absolute path below the sandbox is inside it. */
  lemma AbsoluteBelowInside(processDir: string)
    requires IsAbs(processDir)
    ensures IsPathSandboxed("/root/notes", "/root", processDir)
  {
    assert "/root" == Render(["root"]);
    assert "/root/notes" == Render(["root", "notes"]);
    NormRender(["root"]);
    NormRender(["root", "notes"]);
    SandboxedIff("/root/notes", "/root", processDir);
  }

  // ---------------------------------------------------------------------
  // Sanitizer
  // ---------------------------------------------------------------------

  /** `ValidationError`, carrying the offending argument. */
  datatype ValidationError = ValidationError(path: string)

  /** The text the error is raised with: it quotes the offending path. */
  function Message(e: ValidationError): (m: string)
    ensures 6 + |e.path| <= |m| && m[..6] == "Path '" && m[6..6 + |e.path|] == e.path
  {
    "Path '" + e.path + "' is outside the allowed directory."
  }

  /**
   * An argument the sanitizer treats as a path: it contains "/" and does not
   * start with "-", or it contains a backslash (Python's `not a and b or c`
   * binds as `((not a) and b) or c`, so a backslash is checked even in an option).
   */
  predicate IsChecked(token: string) {
    (!("-" <= token) && '/' in token) || '\\' in token
  }

  /** The arguments of one operation: its words after the first. */
  function Arguments(op: string): seq<string> {
    var parts := Words(Strip(op));
    if parts == [] then [] else parts[1..]
  }

  /**
   * The sandbox test the sanitizer applies to each checked argument:
   * `is_path_sandboxed(part, cwd)`.
   */
  function Sandbox(cwd: string, processDir: string): (admits: string -> bool)
    requires IsAbs(processDir)
    ensures forall t :: admits(t) == IsPathSandboxed(t, cwd, processDir)
  {
    t => IsPathSandboxed(t, cwd, processDir)
  }

  /** Every checked token is admitted. */
  predicate AllAdmitted(tokens: seq<string>, admits: string -> bool) {
    forall k | 0 <= k < |tokens| :: IsChecked(tokens[k]) ==> admits(tokens[k])
  }

  /** The first checked token that is not admitted, as the inner loop meets it. */
  function Violation(tokens: seq<string>, admits: string -> bool): (r: Option<string>)
    ensures r.None? <==> AllAdmitted(tokens, admits)
    ensures r.Some? ==> exists k | 0 <= k < |tokens| ::
      tokens[k] == r.value && IsChecked(r.value) && !admits(r.value) && AllAdmitted(tokens[..k], admits)
  {
    if tokens == [] then None
    else if IsChecked(tokens[0]) && !admits(tokens[0]) then
      assert tokens[..0] == [];
      Some(tokens[0])
    else
      var r := Violation(tokens[1..], admits);
      assert AllAdmitted(tokens, admits) <==> AllAdmitted(tokens[1..], admits) by {
        assert forall k | 1 <= k < |tokens| :: tokens[k] == tokens[1..][k - 1];
      }
      if r.Some? then
        var k :| 0 <= k < |tokens[1..]| && tokens[1..][k] == r.value && IsChecked(r.value)
          && !admits(r.value) && AllAdmitted(tokens[1..][..k], admits);
        assert tokens[k + 1] == r.value;
        assert AllAdmitted(tokens[..k + 1], admits) by {
          assert forall m | 1 <= m < k + 1 :: tokens[m] == tokens[1..][..k][m - 1];
        }
        r
      else
        r
  }

  /** One operation passes: every checked argument is admitted. */
  predicate OpAdmitted(op: string, admits: string -> bool) {
    AllAdmitted(Arguments(op), admits)
  }

  /** What one segment contributes: nothing when blank, else the segment stripped. */
  function Survivor(op: string): seq<string> {
    if AllSpace(op) then [] else [Strip(op)]
  }

  /** The operations that survive: each non-blank segment, stripped, in order. */
  function Operations(ops: seq<string>): seq<string> {
    if ops == [] then [] else Survivor(ops[0]) + Operations(ops[1..])
  }

  /** The loop of `sanitize_and_parse` over the `&&`-separated segments. */
  function SanitizeOps(ops: seq<string>, admits: string -> bool): Result<seq<string>, ValidationError> {
    if ops == [] then Ok([])
    else
      var parts := Words(Strip(ops[0]));
      if parts == [] then SanitizeOps(ops[1..], admits)
      else match Violation(parts[1..], admits)
        case Some(part) => Err(ValidationError(part))
        case None =>
          match SanitizeOps(ops[1..], admits)
          case Ok(rest) => Ok([Strip(ops[0])] + rest)
          case Err(e) => Err(e)
  }

  /** `sanitize_and_parse(command_str, cwd)`: an error stands for the raised `ValidationError`. */
  function Sanitize(command: string, cwd: string, processDir: string): Result<seq<string>, ValidationError>
    requires IsAbs(processDir)
  {
    SanitizeOps(Split(command, "&&"), Sandbox(cwd, processDir))
  }

  /** A segment has no words exactly when it is blank. */
  lemma BlankSegment(op: string)
    ensures Words(Strip(op)) == [] <==> AllSpace(op)
  {
    WordsEmpty(Strip(op));
  }

  /** `head` in front of a successful result; an error stays as it is. */
  function Prepend(head: seq<string>, r: Result<seq<string>, ValidationError>): Result<seq<string>, ValidationError> {
    match r
    case Ok(v) => Ok(head + v)
    case Err(e) => Err(e)
  }

  lemma PrependNested(a: seq<string>, b: seq<string>, r: Result<seq<string>, ValidationError>)
    ensures Prepend(a, Prepend(b, r)) == Prepend(a + b, r)
    ensures Prepend([], r) == r
  {
    if r.Ok? {
      assert a + (b + r.value) == a + b + r.value;
      assert [] + r.value == r.value;
    }
  }

  /** A blank first segment is skipped. */
  lemma SanitizeHeadBlank(ops: seq<string>, admits: string -> bool)
    requires ops != [] && AllSpace(ops[0])
    ensures SanitizeOps(ops, admits) == SanitizeOps(ops[1..], admits)
  {
    BlankSegment(ops[0]);
  }

  /** A passing first segment that is not blank is kept, stripped, in front of the rest. */
  lemma SanitizeHeadKept(ops: seq<string>, admits: string -> bool)
    requires ops != [] && !AllSpace(ops[0]) && OpAdmitted(ops[0], admits)
    ensures SanitizeOps(ops, admits) == Prepend([Strip(ops[0])], SanitizeOps(ops[1..], admits))
  {
    BlankSegment(ops[0]);
    assert Violation(Words(Strip(ops[0]))[1..], admits) == None;
  }

  /** A passing first segment contributes its survivor in front of the rest. */
  lemma SanitizeHead(ops: seq<string>, admits: string -> bool)
    requires ops != [] && OpAdmitted(ops[0], admits)
    ensures SanitizeOps(ops, admits) == Prepend(Survivor(ops[0]), SanitizeOps(ops[1..], admits))
  {
    if AllSpace(ops[0]) {
      SanitizeHeadBlank(ops, admits);
      var rest := SanitizeOps(ops[1..], admits);
      assert rest.Ok? ==> [] + rest.value == rest.value;
    } else {
      SanitizeHeadKept(ops, admits);
    }
  }

  /** A failing first segment makes the whole sanitization fail with its violation. */
  lemma SanitizeHeadFails(ops: seq<string>, admits: string -> bool)
    requires ops != [] && !OpAdmitted(ops[0], admits)
    ensures SanitizeOps(ops, admits) == Err(ValidationError(Violation(Arguments(ops[0]), admits).value))
  {
    BlankSegment(ops[0]);
  }

  /**
   * The sanitizer fails closed: it succeeds exactly when every operation
   * passes, and then returns the surviving operations in order.
   */
  lemma {:induction false} SanitizeOpsOk(ops: seq<string>, admits: string -> bool)
    ensures SanitizeOps(ops, admits).Ok? <==> forall k | 0 <= k < |ops| :: OpAdmitted(ops[k], admits)
    ensures SanitizeOps(ops, admits).Ok? ==> SanitizeOps(ops, admits).value == Operations(ops)
  {
    if ops != [] {
      SanitizeOpsOk(ops[1..], admits);
      AllHoldCons(ops, Passes(admits));
      if OpAdmitted(ops[0], admits) {
        SanitizeHead(ops, admits);
      } else {
        SanitizeHeadFails(ops, admits);
      }
    }
  }

  /** `p` holds of every element. */
  predicate AllHold<T>(xs: seq<T>, p: T -> bool) {
    forall m | 0 <= m < |xs| :: p(xs[m])
  }

  lemma AllHoldCons<T>(xs: seq<T>, p: T -> bool)
    requires xs != []
    ensures AllHold(xs, p) <==> p(xs[0]) && AllHold(xs[1..], p)
  {
    assert forall k | 1 <= k < |xs| :: xs[k] == xs[1..][k - 1];
  }

  lemma AllHoldShift<T>(xs: seq<T>, k: nat, p: T -> bool)
    requires k < |xs| - 1 && p(xs[0]) && AllHold(xs[1..][..k], p)
    ensures AllHold(xs[..k + 1], p)
  {
    forall m | 0 <= m < k + 1 ensures p(xs[m]) {
      if m > 0 {
        assert xs[m] == xs[1..][..k][m - 1];
      }
    }
  }

  /** The test each segment must pass. */
  function Passes(admits: string -> bool): (pass: string -> bool)
    ensures forall op :: pass(op) == OpAdmitted(op, admits)
  {
    op => OpAdmitted(op, admits)
  }

  /** Segment `k` fails on `path`, and every segment before it passes. */
  predicate FailsAt(ops: seq<string>, k: int, path: string, admits: string -> bool) {
    0 <= k < |ops| && path in Arguments(ops[k]) && IsChecked(path) && !admits(path)
    && AllHold(ops[..k], Passes(admits))
  }

  lemma FailsAtShift(ops: seq<string>, k: int, path: string, admits: string -> bool)
    requires ops != [] && OpAdmitted(ops[0], admits) && FailsAt(ops[1..], k, path, admits)
    ensures FailsAt(ops, k + 1, path, admits)
  {
    AllHoldShift(ops, k, Passes(admits));
    assert ops[k + 1] == ops[1..][k];
  }

  /**
   * A rejection names an argument of some operation that is checked and
   * not admitted, and every operation before that one passed.
   */
  lemma {:induction false} SanitizeOpsErr(ops: seq<string>, admits: string -> bool)
    ensures var r := SanitizeOps(ops, admits);
      r.Err? ==> exists k :: FailsAt(ops, k, r.error.path, admits)
  {
    var r := SanitizeOps(ops, admits);
    if ops != [] && r.Err? {
      if OpAdmitted(ops[0], admits) {
        SanitizeHead(ops, admits);
        SanitizeOpsErr(ops[1..], admits);
        var k :| FailsAt(ops[1..], k, r.error.path, admits);
        FailsAtShift(ops, k, r.error.path, admits);
      } else {
        SanitizeHeadFails(ops, admits);
        var v := Violation(Arguments(ops[0]), admits);
        assert r.error.path == v.value;
        assert FailsAt(ops, 0, v.value, admits);
      }
    }
  }


  /** Which arguments count as paths. */
  lemma CheckedTokens()
    ensures IsChecked("../etc/passwd") && IsChecked("/tmp")
    ensures !IsChecked("notes.txt") && !IsChecked("--prefix=/usr")
    ensures IsChecked("-C\\temp") && IsChecked("-x\\y") && !IsChecked("-x/y")
  {
    assert "/tmp"[0] == '/' && !("-" <= "/tmp");
    assert "../etc/passwd"[2] == '/' && !("-" <= "../etc/passwd") by {
      assert "../etc/passwd"[..1][0] == '.';
    }
    assert "-C\\temp"[2] == '\\' && '\\' in "-C\\temp";
    assert "-x\\y"[2] == '\\' && '\\' in "-x\\y";
    assert "-x/y"[..1] == "-";
    assert !('\\' in "-x/y") by {
      assert forall k | 0 <= k < 4 :: "-x/y"[k] != '\\';
    }
  }

  // ---------------------------------------------------------------------
  // Rejoining the sanitized operations
  // ---------------------------------------------------------------------

  /** No two adjacent '&' characters. */
  predicate NoDoubleAmp(s: string) {
    forall i | 0 <= i < |s| - 1 :: !(s[i] == '&' && s[i + 1] == '&')
  }

  lemma DoubleAmp(s: string)
    ensures Contains(s, "&&") <==> !NoDoubleAmp(s)
  {
    if Contains(s, "&&") {
      var i :| 0 <= i <= |s| && "&&" <= s[i..];
      assert s[i] == s[i..][0] && s[i + 1] == s[i..][1];
    }
    if !NoDoubleAmp(s) {
      var i :| 0 <= i < |s| - 1 && s[i] == '&' && s[i + 1] == '&';
      assert s[i..][..2] == "&&";
    }
  }

  /** What a sanitized operation looks like. */
  predicate Clean(op: string) {
    op != [] && IsStripped(op) && !Contains(op, "&&")
  }

  lemma StripIdempotent(s: string)
    ensures Strip(Strip(s)) == Strip(s)
  {
    var r := Strip(s);
    if r != [] {
      assert [] + r + [] == r;
      StripPadded([], r, []);
    }
  }

  /** A non-blank passing segment without "&&" survives as a clean, passing operation. */
  lemma SurvivorClean(segment: string, admits: string -> bool)
    requires !Contains(segment, "&&") && OpAdmitted(segment, admits) && !AllSpace(segment)
    ensures Clean(Strip(segment)) && OpAdmitted(Strip(segment), admits)
  {
    StripKeepsAbsent(segment, "&&");
    StripIdempotent(segment);
    assert Arguments(Strip(segment)) == Arguments(segment);
  }

  /** The surviving operations are clean, and each passes when it passed as a segment. */
  lemma {:induction false} OperationsClean(ops: seq<string>, admits: string -> bool)
    requires forall k | 0 <= k < |ops| :: !Contains(ops[k], "&&") && OpAdmitted(ops[k], admits)
    ensures forall k | 0 <= k < |Operations(ops)| ::
      Clean(Operations(ops)[k]) && OpAdmitted(Operations(ops)[k], admits)
  {
    if ops != [] {
      assert forall k | 0 <= k < |ops[1..]| :: ops[1..][k] == ops[k + 1];
      OperationsClean(ops[1..], admits);
      if !AllSpace(ops[0]) {
        SurvivorClean(ops[0], admits);
        forall k | 0 <= k < |Operations(ops)|
          ensures Clean(Operations(ops)[k]) && OpAdmitted(Operations(ops)[k], admits)
        {
          if k > 0 {
            assert Operations(ops)[k] == Operations(ops[1..])[k - 1];
          }
        }
      }
    }
  }

  /** Whitespace followed by a clean operation holds no "&&". */
  lemma PaddedNoDoubleAmp(lead: string, op: string, trail: string)
    requires AllSpace(lead) && AllSpace(trail) && !Contains(op, "&&")
    ensures NoDoubleAmp(lead + op + trail)
  {
    DoubleAmp(op);
    var s := lead + op + trail;
    forall i | 0 <= i < |s| - 1 ensures !(s[i] == '&' && s[i + 1] == '&') {
      if i < |lead| {
        assert IsSpace(s[i]);
      } else if i + 1 >= |lead| + |op| {
        assert IsSpace(s[i + 1]) by { assert s[i + 1] == trail[i + 1 - |lead| - |op|]; }
      } else {
        assert s[i] == op[i - |lead|] && s[i + 1] == op[i + 1 - |lead|];
      }
    }
  }

  /** A clean, passing operation has a first word and no offending argument. */
  lemma CleanPasses(op: string, admits: string -> bool)
    requires Clean(op) && OpAdmitted(op, admits)
    ensures Words(op) != [] && Violation(Words(op)[1..], admits) == None
  {
    assert [] + op + [] == op;
    StripPadded([], op, []);
    BlankSegment(op);
  }

  /** One clean, passing operation between whitespace is sanitized to itself. */
  lemma PaddedOperation(lead: string, op: string, trail: string, admits: string -> bool)
    requires AllSpace(lead) && AllSpace(trail) && Clean(op) && OpAdmitted(op, admits)
    ensures Strip(lead + op + trail) == op
    ensures Words(op) != [] && Violation(Words(op)[1..], admits) == None
  {
    StripPadded(lead, op, trail);
    CleanPasses(op, admits);
  }

  lemma PrependHead(ops: seq<string>)
    requires ops != []
    ensures Prepend([ops[0]], Ok(ops[1..])) == Ok(ops)
  {
    assert [ops[0]] + ops[1..] == ops;
  }

  lemma SegmentKept(segment: string, op: string, admits: string -> bool)
    requires Strip(segment) == op && Words(op) != [] && Violation(Words(op)[1..], admits) == None
    ensures !AllSpace(segment) && OpAdmitted(segment, admits)
  {
  }

  /** A segment that strips to a passing operation is kept in front of the rest. */
  lemma SanitizeCons(segment: string, tail: seq<string>, ops: seq<string>, admits: string -> bool)
    requires ops != [] && Strip(segment) == ops[0]
    requires Words(ops[0]) != [] && Violation(Words(ops[0])[1..], admits) == None
    requires SanitizeOps(tail, admits) == Ok(ops[1..])
    ensures SanitizeOps([segment] + tail, admits) == Ok(ops)
  {
    var segments := [segment] + tail;
    assert segments[0] == segment && segments[1..] == tail;
    SegmentKept(segment, ops[0], admits);
    SanitizeHeadKept(segments, admits);
    PrependHead(ops);
  }

  /** Whitespace alone is sanitized to no operations. */
  lemma BlankAlone(lead: string, admits: string -> bool)
    requires AllSpace(lead)
    ensures SanitizeOps([lead], admits) == Ok([])
  {
    BlankSegment(lead);
    assert [lead][1..] == [];
  }

  lemma BlankWithoutAmp(lead: string)
    requires AllSpace(lead)
    ensures !Contains(lead, "&&")
  {
    PaddedNoDoubleAmp(lead, "", []);
    assert lead + "" + [] == lead;
    DoubleAmp(lead);
  }

  lemma RejoinBlank(lead: string, admits: string -> bool)
    requires AllSpace(lead)
    ensures SanitizeOps(Split(lead, "&&"), admits) == Ok([])
  {
    BlankWithoutAmp(lead);
    SplitWithout(lead, "&&");
    BlankAlone(lead, admits);
  }


  /** A clean operation after whitespace is not cut. */
  lemma SplitSingle(lead: string, op: string)
    requires AllSpace(lead) && Clean(op)
    ensures Split(lead + op + [], "&&") == [lead + op + []]
  {
    PaddedNoDoubleAmp(lead, op, []);
    DoubleAmp(lead + op + []);
    SplitWithout(lead + op + [], "&&");
  }

  /** A lone segment that strips to a passing operation is kept. */
  lemma SanitizeOne(segment: string, op: string, admits: string -> bool)
    requires Strip(segment) == op && Words(op) != [] && Violation(Words(op)[1..], admits) == None
    ensures SanitizeOps([segment], admits) == Ok([op])
  {
    assert [segment][0] == segment && [segment][1..] == [];
    assert SanitizeOps([], admits) == Ok([]);
    assert [op] + [] == [op];
  }

  /** A single clean, passing operation after whitespace is sanitized to itself. */
  lemma RejoinSingle(lead: string, op: string, admits: string -> bool)
    requires AllSpace(lead) && Clean(op) && OpAdmitted(op, admits)
    ensures SanitizeOps(Split(lead + op + [], "&&"), admits) == Ok([op])
  {
    SplitSingle(lead, op);
    PaddedOperation(lead, op, [], admits);
    SanitizeOne(lead + op + [], op, admits);
  }

  /** The first " && " of a join is where splitting first cuts. */
  lemma SplitAfterOperation(lead: string, op: string, rest: string)
    requires AllSpace(lead) && Clean(op)
    ensures Split(lead + op + " " + "&&" + rest, "&&") == [lead + op + " "] + Split(rest, "&&")
  {
    var a := lead + op + " ";
    PaddedNoDoubleAmp(lead, op, " ");
    forall i | 0 <= i < |a| ensures !("&&" <= (a + "&&" + rest)[i..]) {
      var s := a + "&&" + rest;
      assert s[i..][0] == s[i] == a[i];
      if i + 1 < |a| {
        assert s[i..][1] == s[i + 1] == a[i + 1];
      } else {
        assert a[i] == ' ';
      }
    }
    SplitAtFirst(a, "&&", rest);
  }

  lemma Regroup(x: string, y: string, z: string)
    ensures x + (y + " && " + z) == (x + y + " ") + "&&" + (" " + z)
  {
    var sep := " && ";
    assert sep == [' '] + ['&', '&'] + [' '] by {
      assert |sep| == 4 && sep[0] == ' ' && sep[1] == '&' && sep[2] == '&' && sep[3] == ' ';
    }
  }

  /** Splitting a join cuts off its first operation, padded with whitespace. */
  lemma SplitJoined(lead: string, ops: seq<string>)
    requires AllSpace(lead) && |ops| >= 2 && Clean(ops[0])
    ensures Split(lead + Join(ops, " && "), "&&")
      == [lead + ops[0] + " "] + Split(" " + Join(ops[1..], " && "), "&&")
  {
    var rest := " " + Join(ops[1..], " && ");
    assert Join(ops, " && ") == ops[0] + " && " + Join(ops[1..], " && ");
    Regroup(lead, ops[0], Join(ops[1..], " && "));
    SplitAfterOperation(lead, ops[0], rest);
  }

  /** The first operation in front of the rest of a join that sanitizes back to the rest. */
  lemma RejoinStep(lead: string, ops: seq<string>, admits: string -> bool)
    requires AllSpace(lead) && |ops| >= 2 && Clean(ops[0]) && OpAdmitted(ops[0], admits)
    requires SanitizeOps(Split(" " + Join(ops[1..], " && "), "&&"), admits) == Ok(ops[1..])
    ensures SanitizeOps(Split(lead + Join(ops, " && "), "&&"), admits) == Ok(ops)
  {
    SplitJoined(lead, ops);
    PaddedOperation(lead, ops[0], " ", admits);
    SanitizeCons(lead + ops[0] + " ", Split(" " + Join(ops[1..], " && "), "&&"), ops, admits);
  }

  lemma JoinOne(ops: seq<string>, sep: string)
    requires |ops| == 1
    ensures Join(ops, sep) == ops[0] && [ops[0]] == ops
  {
  }

  lemma RejoinNone(lead: string, ops: seq<string>, admits: string -> bool)
    requires AllSpace(lead) && ops == []
    ensures SanitizeOps(Split(lead + Join(ops, " && "), "&&"), admits) == Ok(ops)
  {
    assert lead + Join(ops, " && ") == lead;
    RejoinBlank(lead, admits);
  }

  lemma RejoinOne(lead: string, ops: seq<string>, admits: string -> bool)
    requires AllSpace(lead) && |ops| == 1 && Clean(ops[0]) && OpAdmitted(ops[0], admits)
    ensures SanitizeOps(Split(lead + Join(ops, " && "), "&&"), admits) == Ok(ops)
  {
    JoinOne(ops, " && ");
    assert lead + ops[0] == lead + ops[0] + [];
    RejoinSingle(lead, ops[0], admits);
  }

  /**
   * Clean, passing operations joined with " && " (after some leading
   * whitespace) are sanitized back to themselves.
   */
  lemma {:induction false} RejoinSanitizes(lead: string, ops: seq<string>, admits: string -> bool)
    requires AllSpace(lead)
    requires forall k | 0 <= k < |ops| :: Clean(ops[k]) && OpAdmitted(ops[k], admits)
    ensures SanitizeOps(Split(lead + Join(ops, " && "), "&&"), admits) == Ok(ops)
    decreases |ops|
  {
    if ops == [] {
      RejoinNone(lead, ops, admits);
    } else if |ops| == 1 {
      RejoinOne(lead, ops, admits);
    } else {
      var more := ops[1..];
      forall k | 0 <= k < |more| ensures Clean(more[k]) && OpAdmitted(more[k], admits) {
        assert more[k] == ops[k + 1];
      }
      RejoinSanitizes(" ", more, admits);
      RejoinStep(lead, ops, admits);
    }
  }

  /**
   * Sanitizing is idempotent on its output: the operations it returns,
   * joined again with " && ", pass and come back unchanged.
   */
  lemma Resanitize(command: string, cwd: string, processDir: string, ops: seq<string>)
    requires IsAbs(processDir) && Sanitize(command, cwd, processDir) == Ok(ops)
    ensures Sanitize(Join(ops, " && "), cwd, processDir) == Ok(ops)
  {
    var segments := Split(command, "&&");
    var admits := Sandbox(cwd, processDir);
    SanitizeOpsOk(segments, admits);
    SplitPiecesFree(command, "&&");
    OperationsClean(segments, admits);
    assert "" + Join(ops, " && ") == Join(ops, " && ");
    RejoinSanitizes("", ops, admits);
  }

  // ---------------------------------------------------------------------
  // The loops of sanitize_and_parse
  // ---------------------------------------------------------------------

  /** The violation is the first checked token that is not admitted. */
  lemma {:induction false} ViolationAt(tokens: seq<string>, j: nat, admits: string -> bool)
    requires j < |tokens| && AllAdmitted(tokens[..j], admits)
    requires IsChecked(tokens[j]) && !admits(tokens[j])
    ensures Violation(tokens, admits) == Some(tokens[j])
  {
    if j > 0 {
      assert tokens[0] == tokens[..j][0];
      assert tokens[1..][..j - 1] == tokens[..j][1..];
      ViolationAt(tokens[1..], j - 1, admits);
    }
  }

  /**
   * The inner loop of `sanitize_and_parse`: the arguments in order, stopping
   * at the first checked one the sandbox test refuses.
   */
  method FirstViolation(arguments: seq<string>, admits: string -> bool) returns (violation: Option<string>)
    ensures violation == Violation(arguments, admits)
  {
    for j := 0 to |arguments|
      invariant AllAdmitted(arguments[..j], admits)
    {
      var part := arguments[j];
      if IsChecked(part) && !admits(part) {
        ViolationAt(arguments, j, admits);
        return Some(part);
      }
      assert arguments[..j + 1] == arguments[..j] + [part];
    }
    assert arguments[..|arguments|] == arguments;
    return None;
  }

  /** A blank segment leaves the collected operations as they are. */
  lemma StepBlank(ops: seq<string>, i: nat, sanitized: seq<string>, admits: string -> bool)
    requires i < |ops| && AllSpace(ops[i])
    requires SanitizeOps(ops, admits) == Prepend(sanitized, SanitizeOps(ops[i..], admits))
    ensures SanitizeOps(ops, admits) == Prepend(sanitized, SanitizeOps(ops[i + 1..], admits))
  {
    assert ops[i..][0] == ops[i] && ops[i..][1..] == ops[i + 1..];
    SanitizeHeadBlank(ops[i..], admits);
  }

  /** A passing segment is collected, stripped. */
  lemma StepKept(ops: seq<string>, i: nat, sanitized: seq<string>, admits: string -> bool)
    requires i < |ops| && !AllSpace(ops[i]) && OpAdmitted(ops[i], admits)
    requires SanitizeOps(ops, admits) == Prepend(sanitized, SanitizeOps(ops[i..], admits))
    ensures SanitizeOps(ops, admits) == Prepend(sanitized + [Strip(ops[i])], SanitizeOps(ops[i + 1..], admits))
  {
    assert ops[i..][0] == ops[i] && ops[i..][1..] == ops[i + 1..];
    SanitizeHeadKept(ops[i..], admits);
    PrependNested(sanitized, [Strip(ops[i])], SanitizeOps(ops[i + 1..], admits));
  }

  /** A failing segment ends the sanitization with its violation. */
  lemma StepFails(ops: seq<string>, i: nat, sanitized: seq<string>, admits: string -> bool)
    requires i < |ops| && !OpAdmitted(ops[i], admits)
    requires SanitizeOps(ops, admits) == Prepend(sanitized, SanitizeOps(ops[i..], admits))
    ensures SanitizeOps(ops, admits) == Err(ValidationError(Violation(Arguments(ops[i]), admits).value))
  {
    assert ops[i..][0] == ops[i];
    SanitizeHeadFails(ops[i..], admits);
  }

  /** The first word of a segment is never checked: a one-word segment always passes. */
  lemma FirstWordUnchecked(op: string, admits: string -> bool)
    requires |Words(Strip(op))| == 1
    ensures OpAdmitted(op, admits)
  {
    assert Arguments(op) == [];
  }

  /** What the loop reads of a segment: its words, blank exactly when it has none. */
  lemma SegmentWords(op: string)
    ensures Words(Strip(op)) == [] <==> AllSpace(op)
    ensures Words(Strip(op)) != [] ==> Arguments(op) == Words(Strip(op))[1..]
  {
    BlankSegment(op);
  }

  /**
   * The outer loop of `sanitize_and_parse`: the segments in order,
   * skipping blank ones, returning at the first violation and otherwise
   * collecting the stripped segments.
   */
  method SanitizeSegments(ops: seq<string>, admits: string -> bool)
    returns (r: Result<seq<string>, ValidationError>)
    ensures r == SanitizeOps(ops, admits)
  {
    var sanitized: seq<string> := [];
    PrependNested([], [], SanitizeOps(ops, admits));
    assert ops[0..] == ops;
    for i := 0 to |ops|
      invariant SanitizeOps(ops, admits) == Prepend(sanitized, SanitizeOps(ops[i..], admits))
    {
      var parts := Words(Strip(ops[i]));
      SegmentWords(ops[i]);
      if parts == [] {
        StepBlank(ops, i, sanitized, admits);
      } else {
        var violation := FirstViolation(parts[1..], admits);
        if violation.Some? {
          StepFails(ops, i, sanitized, admits);
          return Err(ValidationError(violation.value));
        }
        StepKept(ops, i, sanitized, admits);
        sanitized := sanitized + [Strip(ops[i])];
      }
    }
    assert ops[|ops|..] == [] && sanitized + [] == sanitized;
    r := Ok(sanitized);
  }

  /** `sanitize_and_parse(command_str, cwd)`: split on "&&", then the segment loop. */
  method SanitizeAndParse(command: string, cwd: string, processDir: string)
    returns (r: Result<seq<string>, ValidationError>)
    requires IsAbs(processDir)
    ensures r == Sanitize(command, cwd, processDir)
  {
    var ops := Split(command, "&&");
    r := SanitizeSegments(ops, Sandbox(cwd, processDir));
  }
}
