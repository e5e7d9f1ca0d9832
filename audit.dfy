/**
 * audit.py: building an audit record from an interpretation and appending
 * its serialisation, one line per record, to a log opened for appending.
 */
module Audit {
  import opened Wrappers
  import opened Text

  /** The log file the records go to. */
  const AuditLogFile: string := "audit_log.jsonl"

  newtype byte = x: int | 0 <= x < 256

  // ---------------------------------------------------------------------
  // The record id: the lowercase hex of eight random bytes
  // ---------------------------------------------------------------------

  predicate IsHexDigit(c: char) {
    '0' <= c <= '9' || 'a' <= c <= 'f'
  }

  /** The lowercase hex digit of a value below 16, as `bytes.hex()` writes it. */
  function HexDigit(n: nat): (c: char)
    requires n < 16
    ensures IsHexDigit(c)
  {
    if n < 10 then ('0' as int + n) as char else ('a' as int + n - 10) as char
  }

  function DigitValue(c: char): (n: nat)
    requires IsHexDigit(c)
    ensures n < 16
  {
    if c <= '9' then c as int - '0' as int else c as int - 'a' as int + 10
  }

  /** `bytes.hex()`: two digits per byte, high half first. */
  function Hex(bs: seq<byte>): (h: string)
    ensures |h| == 2 * |bs|
    ensures forall i | 0 <= i < |h| :: IsHexDigit(h[i])
  {
    if bs == [] then ""
    else [HexDigit(bs[0] as int / 16), HexDigit(bs[0] as int % 16)] + Hex(bs[1..])
  }

  /** `bytes.fromhex` restricted to lowercase digit pairs: the decoder `Hex` is checked against. */
  function Unhex(h: string): Option<seq<byte>> {
    if h == [] then Some([])
    else if |h| < 2 || !IsHexDigit(h[0]) || !IsHexDigit(h[1]) then None
    else match Unhex(h[2..])
      case None => None
      case Some(rest) => Some([(DigitValue(h[0]) * 16 + DigitValue(h[1])) as byte] + rest)
  }

  lemma DigitRoundTrip(n: nat)
    requires n < 16
    ensures DigitValue(HexDigit(n)) == n
  {
  }

  /** Decoding the hex of some bytes gives the bytes back. */
  lemma {:induction false} UnhexHex(bs: seq<byte>)
    ensures Unhex(Hex(bs)) == Some(bs)
  {
    if bs != [] {
      var b := bs[0] as int;
      var h := Hex(bs);
      DigitRoundTrip(b / 16);
      DigitRoundTrip(b % 16);
      assert h[2..] == Hex(bs[1..]);
      UnhexHex(bs[1..]);
      assert (b / 16 * 16 + b % 16) as byte == bs[0];
      assert [bs[0]] + bs[1..] == bs;
    }
  }

  /** Different bytes never share an id. */
  lemma HexInjective(a: seq<byte>, b: seq<byte>)
    requires Hex(a) == Hex(b)
    ensures a == b
  {
    UnhexHex(a);
    UnhexHex(b);
  }

  // ---------------------------------------------------------------------
  // Records
  // ---------------------------------------------------------------------

  /** The `execution_result` values the records carry. */
  datatype ExecResult =
    | Output(stdout: string, stderr: string, returncode: int)  // what a successful tool run returns
    | Failure(error: string)                                     // {"error": ...}
    | Trashed(file: string, destination: string)                 // {"action": "trashed", ...}

  /** The interpretation dictionary `interpret_nl` returns. */
  datatype Interpretation = Interpretation(
    command: string,
    explanation: string,
    confidence: real,
    safetyFlags: seq<string>,
    ruleFallback: bool,
    meta: map<string, string>)

  /** What `os.urandom(8)`, `datetime.utcnow().isoformat()` and `os.getlogin()` return. */
  datatype Environment = Environment(entropy: seq<byte>, timestamp: string, user: string)

  datatype AuditRecord = AuditRecord(
    id: string,
    timestamp: string,
    user: string,
    nlInput: string,
    chosenCommand: string,
    explanation: string,
    confidence: real,
    safetyFlags: seq<string>,
    ruleFallback: bool,
    modelMeta: map<string, string>,
    approved: bool,
    executionResult: Option<ExecResult>)  // None is Python's None

  /**
   * `create_audit_record`: the id is the hex of the eight random bytes, the
   * interpretation's fields and the two arguments are copied unchanged.
   */
  function CreateAuditRecord(nlInput: string, result: Interpretation, approved: bool,
                             executionResult: Option<ExecResult>, env: Environment): (r: AuditRecord)
    requires |env.entropy| == 8
    ensures |r.id| == 16 && forall i | 0 <= i < 16 :: IsHexDigit(r.id[i])
    ensures Unhex(r.id) == Some(env.entropy)
    ensures r.timestamp == env.timestamp && r.user == env.user && r.nlInput == nlInput
    ensures r.chosenCommand == result.command && r.explanation == result.explanation
    ensures r.confidence == result.confidence && r.safetyFlags == result.safetyFlags
    ensures r.ruleFallback == result.ruleFallback && r.modelMeta == result.meta
    ensures r.approved == approved && r.executionResult == executionResult
  {
    UnhexHex(env.entropy);
    AuditRecord(Hex(env.entropy), env.timestamp, env.user, nlInput, result.command,
                result.explanation, result.confidence, result.safetyFlags, result.ruleFallback,
                result.meta, approved, executionResult)
  }

  // ---------------------------------------------------------------------
  // The log
  // ---------------------------------------------------------------------

  /** A log made of whole lines: empty, or ending in a newline. */
  predicate WellFormed(text: string) {
    text == [] || text[|text| - 1] == '\n'
  }

  /** The lines of a well-formed log, without their newlines. */
  function Lines(text: string): seq<string>
    requires WellFormed(text)
  {
    var pieces := Split(text, "\n");
    pieces[..|pieces| - 1]
  }

  /** Appending a line without a newline, then a newline, adds exactly that line at the end. */
  lemma LinesAppend(text: string, line: string)
    requires WellFormed(text) && '\n' !in line
    ensures WellFormed(text + line + "\n")
    ensures Lines(text + line + "\n") == Lines(text) + [line]
  {
    var nl := '\n';
    assert !Contains(line, [nl]) by {
      forall i | 0 <= i <= |line| ensures !([nl] <= line[i..]) {
        if i < |line| {
          assert line[i..][0] == line[i];
        }
      }
    }
    SplitWithout(line, [nl]);
    assert text + line + "\n" == (text + line) + [nl] + [];
    SplitCharConcat(text + line, nl, []);
    assert Split([], [nl]) == [""];
    if text == [] {
      assert text + line == line;
    } else {
      SplitAfterLine(text, line);
    }
  }

  /** Splitting a non-empty log followed by a line: the log's pieces, then the line. */
  lemma SplitAfterLine(text: string, line: string)
    requires text != [] && WellFormed(text)
    ensures Split(text + line, "\n") == Lines(text) + Split(line, "\n")
  {
    var nl := '\n';
    var front := text[..|text| - 1];
    assert text == front + [nl] + [];
    assert text + line == front + [nl] + line;
    SplitCharConcat(front, nl, []);
    SplitCharConcat(front, nl, line);
    assert Split([], [nl]) == [""];
  }

  /**
   * The audit log: `log_audit_record` opens the file in append mode and
   * writes one serialised record and a newline. `dumps` stands for
   * `json.dumps`, which never emits a raw newline.
   */
  class AuditLog {
    const dumps: AuditRecord -> string
    var text: string

    ghost predicate Valid()
      reads this
    {
      (forall r :: '\n' !in dumps(r)) && WellFormed(text)
    }

    /** The entries written so far, one per line. */
    function Entries(): seq<string>
      reads this
      requires Valid()
    {
      Lines(text)
    }

    constructor (dumps: AuditRecord -> string, initial: string)
      requires forall r :: '\n' !in dumps(r)
      requires WellFormed(initial)
      ensures Valid() && this.dumps == dumps && text == initial
    {
      this.dumps := dumps;
      text := initial;
    }

    /**
     * The file at the log's path has been moved away: the path holds no
     * records, and the next append creates the file afresh.
     */
    method Restart()
      modifies this
      requires Valid()
      ensures Valid() && text == ""
      ensures Entries() == []
    {
      text := "";
      assert Split("", "\n") == [""];
    }

    /** `log_audit_record(record)`. */
    method Append(record: AuditRecord)
      modifies this
      requires Valid()
      ensures Valid()
      ensures text == old(text) + dumps(record) + "\n"
      ensures Entries() == old(Entries()) + [dumps(record)]
    {
      LinesAppend(text, dumps(record));
      text := text + dumps(record) + "\n";
    }
  }
}
