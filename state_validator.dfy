/** The RAFAELIA state validator: the state matrix loaded from its rows,
    the membership checks on it, and the scan of an audit log that counts
    valid and invalid entries and collects errors and warnings. */
module StateValidation {
  import opened Text
  import RafaeliaAudit

  /** Python's `<` on `str`: code point by code point, a proper prefix
      coming first. */
  predicate Below(a: string, b: string)
    decreases |a|
  {
    if a == [] then b != []
    else b != [] && (a[0] < b[0] || (a[0] == b[0] && Below(a[1..], b[1..])))
  }

  lemma {:induction false} BelowIrreflexive(a: string)
    ensures !Below(a, a)
    decreases |a|
  {
    if a != [] {
      BelowIrreflexive(a[1..]);
    }
  }

  lemma {:induction false} BelowAsymmetric(a: string, b: string)
    ensures !(Below(a, b) && Below(b, a))
    decreases |a|
  {
    if a != [] && b != [] && a[0] == b[0] {
      BelowAsymmetric(a[1..], b[1..]);
    }
  }

  lemma {:induction false} BelowTotal(a: string, b: string)
    ensures a == b || Below(a, b) || Below(b, a)
    decreases |a|
  {
    if a != [] && b != [] && a[0] == b[0] {
      BelowTotal(a[1..], b[1..]);
      if a[1..] == b[1..] {
        assert a == [a[0]] + a[1..] && b == [b[0]] + b[1..];
      }
    }
  }

  lemma {:induction false} BelowTransitive(a: string, b: string, c: string)
    requires Below(a, b) && Below(b, c)
    ensures Below(a, c)
    decreases |a|
  {
    if a != [] && a[0] == b[0] && b[0] == c[0] {
      BelowTransitive(a[1..], b[1..], c[1..]);
    }
  }

  /** `s` has `m` as its least element. */
  predicate IsLeast(s: set<string>, m: string) {
    m in s && forall x :: x in s && x != m ==> Below(m, x)
  }

  /** Every non-empty set of strings has a least element. */
  lemma {:induction false} LeastExists(s: set<string>)
    requires s != {}
    ensures exists m :: IsLeast(s, m)
    decreases |s|
  {
    var x :| x in s;
    var rest := s - {x};
    if rest == {} {
      assert s == {x};
      assert IsLeast(s, x);
    } else {
      LeastExists(rest);
      var m :| IsLeast(rest, m);
      BelowTotal(m, x);
      if Below(m, x) {
        assert IsLeast(s, m);
      } else {
        forall y | y in s && y != x
          ensures Below(x, y)
        {
          if y != m {
            BelowTransitive(x, m, y);
          }
        }
        assert IsLeast(s, x);
      }
    }
  }

  /** The least element is unique. */
  lemma LeastUnique(s: set<string>, m: string, n: string)
    requires IsLeast(s, m) && IsLeast(s, n)
    ensures m == n
  {
    if m != n {
      BelowAsymmetric(m, n);
    }
  }

  function Least(s: set<string>): (m: string)
    requires s != {}
    ensures IsLeast(s, m)
  {
    LeastExists(s);
    forall m, n | IsLeast(s, m) && IsLeast(s, n)
      ensures m == n
    {
      LeastUnique(s, m, n);
    }
    var m :| IsLeast(s, m);
    m
  }

  /** `sorted(s)`: the elements of `s` in increasing order. */
  function Sorted(s: set<string>): (r: seq<string>)
    ensures |r| == |s|
    ensures forall x :: x in r <==> x in s
    ensures forall i, j :: 0 <= i < j < |r| ==> Below(r[i], r[j])
    decreases |s|
  {
    if s == {} then []
    else
      var m := Least(s);
      var rest := Sorted(s - {m});
      forall j | 0 <= j < |rest|
        ensures Below(m, rest[j])
      {
        assert rest[j] in rest;
        assert rest[j] in s - {m};
      }
      [m] + rest
  }

  /** `', '.join(sorted(s)[:5])`: the five smallest elements, in order. */
  function Available(s: set<string>): string {
    var r := Sorted(s);
    Join(r[..if |r| <= 5 then |r| else 5], ", ")
  }

  /** A row of the state-matrix CSV; a missing column reads as "". */
  datatype MatrixRow = MatrixRow(stateId: string, primitive: string, context: string)

  /** The `states` dict built from the rows: each non-empty state id with
      the last row that has it. */
  function RowsById(rows: seq<MatrixRow>): (m: map<string, MatrixRow>)
    ensures forall k :: k in m <==> k != "" && exists i :: 0 <= i < |rows| && rows[i].stateId == k
    ensures forall k :: k in m ==> m[k].stateId == k && m[k] in rows
    decreases |rows|
  {
    if rows == [] then map[]
    else
      var init, last := rows[..|rows| - 1], rows[|rows| - 1];
      assert forall i :: 0 <= i < |init| ==> init[i] == rows[i];
      var m := RowsById(init);
      if last.stateId != "" then m[last.stateId := last] else m
  }

  /** The primitives of the rows with a state id, when non-empty. */
  function PrimitivesOf(rows: seq<MatrixRow>): set<string> {
    set r | r in rows && r.stateId != "" && r.primitive != "" :: r.primitive
  }

  /** The contexts of the rows with a state id, when non-empty. */
  function ContextsOf(rows: seq<MatrixRow>): set<string> {
    set r | r in rows && r.stateId != "" && r.context != "" :: r.context
  }

  /** Loading one more row. */
  lemma RowsStep(rows: seq<MatrixRow>, i: nat)
    requires i < |rows|
    ensures var row := rows[i];
            RowsById(rows[..i + 1]) ==
              if row.stateId != "" then RowsById(rows[..i])[row.stateId := row] else RowsById(rows[..i])
    ensures var row := rows[i];
            PrimitivesOf(rows[..i + 1]) ==
              PrimitivesOf(rows[..i]) + if row.stateId != "" && row.primitive != "" then {row.primitive} else {}
    ensures var row := rows[i];
            ContextsOf(rows[..i + 1]) ==
              ContextsOf(rows[..i]) + if row.stateId != "" && row.context != "" then {row.context} else {}
  {
    assert rows[..i + 1] == rows[..i] + [rows[i]];
    assert rows[..i + 1][..i] == rows[..i];
  }

  /** A row with an empty state id contributes nothing: not its state, nor
      its primitive, nor its context. */
  lemma RowWithoutIdIgnored(rows: seq<MatrixRow>, row: MatrixRow)
    requires row.stateId == ""
    ensures RowsById(rows + [row]) == RowsById(rows)
    ensures PrimitivesOf(rows + [row]) == PrimitivesOf(rows)
    ensures ContextsOf(rows + [row]) == ContextsOf(rows)
  {
    assert (rows + [row])[..|rows|] == rows;
  }

  /** The outcome of a check: accepted, or rejected with a message. */
  datatype Verdict = Accepted | Rejected(message: string)

  /** An audit-log entry, already decoded: the fields the scan reads, a
      missing one reading as "". */
  datatype LogRecord = LogRecord(primitive: string, context: string, stateId: string)

  /** A line of the audit log: blank, not JSON, JSON that is not an object
      (its `get` raises, which ends the scan), or an object. */
  datatype LogLine = Blank | Unparsable(reason: string) | NotAnObject | Record(entry: LogRecord)

  /** An error or a warning, with its (1-based) line number. */
  datatype Issue = Issue(line: nat, message: string, entry: Option<LogRecord>)

  datatype AuditLogResults = AuditLogResults(
    totalEntries: nat,
    validEntries: nat,
    invalidEntries: nat,
    errors: seq<Issue>,
    warnings: seq<Issue>)

  /** The scan's state between lines: the results so far, `prev_state`,
      and whether the scan was ended by an exception. */
  datatype Scanning = Scanning(results: AuditLogResults, prev: Option<string>, aborted: bool)

  const Start: Scanning := Scanning(AuditLogResults(0, 0, 0, [], []), None, false)

  /** The warning for an entry whose state id is not the one its primitive
      and context give. */
  function MismatchWarning(got: string, expected: string): string {
    "State ID mismatch: got '" + got + "', expected '" + expected + "'"
  }

  /** One more invalid entry, with its error. */
  function Invalid(r: AuditLogResults, issue: Issue): (r': AuditLogResults)
    ensures r'.totalEntries == r.totalEntries && r'.validEntries == r.validEntries
    ensures r'.invalidEntries == r.invalidEntries + 1 && r'.errors == r.errors + [issue]
    ensures r'.warnings == r.warnings
  {
    r.(invalidEntries := r.invalidEntries + 1, errors := r.errors + [issue])
  }

  class StateValidator {
    var states: map<string, MatrixRow>
    var primitives: set<string>
    var contexts: set<string>

    /** `__init__` and `load_state_matrix` over the rows read from the CSV
      file (none when the file is missing). */
    constructor (rows: seq<MatrixRow>)
      ensures states == RowsById(rows)
      ensures primitives == PrimitivesOf(rows) && contexts == ContextsOf(rows)
    {
      var byId: map<string, MatrixRow> := map[];
      var prims: set<string> := {};
      var ctxs: set<string> := {};
      var i := 0;
      while i < |rows|
        invariant 0 <= i <= |rows|
        invariant byId == RowsById(rows[..i])
        invariant prims == PrimitivesOf(rows[..i]) && ctxs == ContextsOf(rows[..i])
      {
        var row := rows[i];
        RowsStep(rows, i);
        if row.stateId != "" {
          byId := byId[row.stateId := row];
          if row.primitive != "" {
            prims := prims + {row.primitive};
          }
          if row.context != "" {
            ctxs := ctxs + {row.context};
          }
        }
        i := i + 1;
      }
      assert rows[..i] == rows;
      states, primitives, contexts := byId, prims, ctxs;
    }

    /** `validate_state_id`. */
    function ValidateStateId(stateId: string): (r: Verdict)
      reads this
      ensures r.Accepted? <==> stateId in states
      ensures r.Rejected? ==> r.message == "State ID not found in matrix: " + stateId
    {
      if stateId in states then Accepted else Rejected("State ID not found in matrix: " + stateId)
    }

    /** `validate_primitive`. */
    function ValidatePrimitive(primitive: string): (r: Verdict)
      reads this
      ensures r.Accepted? <==> primitive in primitives
      ensures r.Rejected? ==>
                r.message == "Unknown primitive: " + primitive + ". Available: " + Available(primitives) + ", ..."
    {
      if primitive in primitives then Accepted
      else Rejected("Unknown primitive: " + primitive + ". Available: " + Available(primitives) + ", ...")
    }

    /** `validate_context`. */
    function ValidateContext(context: string): (r: Verdict)
      reads this
      ensures r.Accepted? <==> context in contexts
      ensures r.Rejected? ==>
                r.message == "Unknown context: " + context + ". Available: " + Available(contexts) + ", ..."
    {
      if context in contexts then Accepted
      else Rejected("Unknown context: " + context + ". Available: " + Available(contexts) + ", ...")
    }

    /** `validate_state_combination`: the state id of the pair is known. */
    function ValidateStateCombination(primitive: string, context: string): (r: Verdict)
      reads this
      ensures r.Accepted? <==> RafaeliaAudit.StateId(primitive, context) in states
      ensures r == ValidateStateId("PRIM_" + primitive + "_CTX_" + context)
    {
      ValidateStateId(RafaeliaAudit.StateId(primitive, context))
    }

    /** `validate_transition`: both states are known; a missing from-state
      is reported first. */
    function ValidateTransition(fromState: string, toState: string): (r: Verdict)
      reads this
      ensures r.Accepted? <==> fromState in states && toState in states
      ensures fromState !in states ==> r == ValidateStateId(fromState)
      ensures fromState in states && toState !in states ==> r == ValidateStateId(toState)
    {
      var from := ValidateStateId(fromState);
      if from.Rejected? then from
      else
        var to := ValidateStateId(toState);
        if to.Rejected? then to else Accepted
    }

    /** What the scan does with line `lineNum`: a blank line changes
      nothing; every other line counts as an entry, and an entry is
      invalid when it is not JSON or its primitive, its context or the
      state id they give is unknown. A state id that differs from that
      one, or a rejected transition from the previous valid entry, only
      warns. */
    function Step(s: Scanning, lineNum: nat, line: LogLine): Scanning
      reads this
    {
      if s.aborted || line.Blank? then s
      else
        var r := s.results.(totalEntries := s.results.totalEntries + 1);
        match line
        case Unparsable(reason) =>
          s.(results := Invalid(r, Issue(lineNum, "JSON parse error: " + reason, None)))
        case NotAnObject =>
          s.(results := r, aborted := true)
        case Record(e) =>
          RecordStep(r, s.prev, lineNum, e)
    }

    /** The checks of a record, on the results with the entry counted and
      `prev` the state of the previous valid entry. */
    function RecordStep(r: AuditLogResults, prev: Option<string>, lineNum: nat, e: LogRecord): Scanning
      reads this
    {
      var byPrimitive := ValidatePrimitive(e.primitive);
      var byContext := ValidateContext(e.context);
      if byPrimitive.Rejected? then
        Scanning(Invalid(r, Issue(lineNum, byPrimitive.message, Some(e))), prev, false)
      else if byContext.Rejected? then
        Scanning(Invalid(r, Issue(lineNum, byContext.message, Some(e))), prev, false)
      else
        var expected := RafaeliaAudit.StateId(e.primitive, e.context);
        var mismatch := if e.stateId != expected
                        then [Issue(lineNum, MismatchWarning(e.stateId, expected), Some(e))] else [];
        var r := r.(warnings := r.warnings + mismatch);
        var known := ValidateStateId(expected);
        if known.Rejected? then
          Scanning(Invalid(r, Issue(lineNum, known.message, Some(e))), prev, false)
        else
          var transition := if prev.Some? then ValidateTransition(prev.value, expected) else Accepted;
          var warnings := r.warnings + (if transition.Rejected? then [Issue(lineNum, transition.message, Some(e))] else []);
          Scanning(r.(validEntries := r.validEntries + 1, warnings := warnings), Some(expected), false)
    }

    /** The scan over the lines, numbered from 1. */
    function Scan(lines: seq<LogLine>): Scanning
      reads this
      decreases |lines|
    {
      if lines == [] then Start
      else Step(Scan(lines[..|lines| - 1]), |lines|, lines[|lines| - 1])
    }

    /** `validate_audit_log` over the lines of the file. */
    method ValidateAuditLog(lines: seq<LogLine>) returns (results: AuditLogResults)
      ensures results == Scan(lines).results
    {
      results := AuditLogResults(0, 0, 0, [], []);
      var prevState: Option<string> := None;
      var i := 0;
      while i < |lines|
        invariant 0 <= i <= |lines|
        invariant Scan(lines[..i]) == Scanning(results, prevState, false)
      {
        assert lines[..i + 1][..i] == lines[..i];
        var lineNum := i + 1;
        var line := lines[i];
        i := i + 1;
        if line.Blank? {
          continue;
        }
        results := results.(totalEntries := results.totalEntries + 1);
        match line {
          case Unparsable(reason) =>
            results := Invalid(results, Issue(lineNum, "JSON parse error: " + reason, None));
          case NotAnObject =>
            ScanAborted(lines, i);
            return;
          case Record(e) =>
            results, prevState := CheckRecord(results, prevState, lineNum, e);
        }
      }
      assert lines[..i] == lines;
    }

    /** The body of the scan for a line holding an object, the entry
      already counted. */
    method CheckRecord(counted: AuditLogResults, prevState: Option<string>, lineNum: nat, e: LogRecord)
      returns (results: AuditLogResults, prev: Option<string>)
      ensures Scanning(results, prev, false) == RecordStep(counted, prevState, lineNum, e)
    {
      results, prev := counted, prevState;
      var byPrimitive := ValidatePrimitive(e.primitive);
      if byPrimitive.Rejected? {
        results := Invalid(results, Issue(lineNum, byPrimitive.message, Some(e)));
        return;
      }
      var byContext := ValidateContext(e.context);
      if byContext.Rejected? {
        results := Invalid(results, Issue(lineNum, byContext.message, Some(e)));
        return;
      }
      var expected := RafaeliaAudit.StateId(e.primitive, e.context);
      if e.stateId != expected {
        results := results.(warnings := results.warnings +
                              [Issue(lineNum, MismatchWarning(e.stateId, expected), Some(e))]);
      }
      var known := ValidateStateId(expected);
      if known.Rejected? {
        results := Invalid(results, Issue(lineNum, known.message, Some(e)));
        return;
      }
      if prevState.Some? {
        var transition := ValidateTransition(prevState.value, expected);
        if transition.Rejected? {
          results := results.(warnings := results.warnings + [Issue(lineNum, transition.message, Some(e))]);
        }
      }
      results := results.(validEntries := results.validEntries + 1);
      prev := Some(expected);
    }

    /** Once an exception ends the scan, later lines change nothing. */
    lemma {:induction false} ScanAborted(lines: seq<LogLine>, k: nat)
      requires k <= |lines| && Scan(lines[..k]).aborted
      ensures Scan(lines) == Scan(lines[..k])
      decreases |lines| - k
    {
      if k < |lines| {
        var next := lines[..k + 1];
        assert next[..k] == lines[..k];
        ScanAborted(lines, k + 1);
      } else {
        assert lines[..k] == lines;
      }
    }

    /** What the scan keeps true: every entry is valid or invalid except
      the one that ended the scan, each invalid entry has exactly one
      error, and the previous state is a known state. */
    predicate Consistent(s: Scanning)
      reads this
    {
      && s.results.totalEntries == s.results.validEntries + s.results.invalidEntries + (if s.aborted then 1 else 0)
      && |s.results.errors| == s.results.invalidEntries
      && (s.prev.Some? ==> s.prev.value in states)
    }

    lemma StepConsistent(s: Scanning, lineNum: nat, line: LogLine)
      requires Consistent(s)
      ensures Consistent(Step(s, lineNum, line))
    {
    }

    lemma {:induction false} ScanConsistent(lines: seq<LogLine>)
      ensures Consistent(Scan(lines))
      decreases |lines|
    {
      if lines != [] {
        ScanConsistent(lines[..|lines| - 1]);
        StepConsistent(Scan(lines[..|lines| - 1]), |lines|, lines[|lines| - 1]);
      }
    }

    /** After the scan, total = valid + invalid (plus the entry that ended
      the scan, if one did) and there is one error per invalid entry. */
    lemma AuditLogCounters(lines: seq<LogLine>)
      ensures var s := Scan(lines);
              && s.results.totalEntries == s.results.validEntries + s.results.invalidEntries + (if s.aborted then 1 else 0)
              && |s.results.errors| == s.results.invalidEntries
    {
      ScanConsistent(lines);
    }

    /** A blank line is not counted and changes nothing. */
    lemma BlankNotCounted(lines: seq<LogLine>)
      ensures Scan(lines + [Blank]) == Scan(lines)
    {
      assert (lines + [Blank])[..|lines|] == lines;
    }

    /** Every error and warning carries the number of the line it is about:
      lines are numbered by position, blank ones included, and a blank line
      has none. */
    lemma {:induction false} IssueLines(lines: seq<LogLine>)
      ensures var r := Scan(lines).results;
              forall issue :: issue in r.errors + r.warnings ==>
                1 <= issue.line <= |lines| && !lines[issue.line - 1].Blank?
      decreases |lines|
    {
      if lines != [] {
        var init := lines[..|lines| - 1];
        IssueLines(init);
        var before := Scan(init).results;
        StepIssues(Scan(init), |lines|, lines[|lines| - 1]);
        forall issue | issue in before.errors + before.warnings
          ensures 1 <= issue.line <= |lines| && !lines[issue.line - 1].Blank?
        {
          assert lines[issue.line - 1] == init[issue.line - 1];
        }
      }
    }

    /** A step adds issues only about its own line, and none for a blank line. */
    lemma StepIssues(s: Scanning, lineNum: nat, line: LogLine)
      ensures var t := Step(s, lineNum, line).results;
              forall issue :: issue in t.errors + t.warnings ==>
                issue in s.results.errors + s.results.warnings || (issue.line == lineNum && !line.Blank?)
    {
      if !s.aborted && line.Record? {
        var r := s.results.(totalEntries := s.results.totalEntries + 1);
        RecordIssues(r, s.prev, lineNum, line.entry);
      }
    }

    /** The checks of a record add issues only about its line. */
    lemma RecordIssues(r: AuditLogResults, prev: Option<string>, lineNum: nat, e: LogRecord)
      ensures var t := RecordStep(r, prev, lineNum, e).results;
              forall issue :: issue in t.errors + t.warnings ==>
                issue in r.errors + r.warnings || issue.line == lineNum
    {
    }

    /** A record whose primitive, context and derived state id are known
      is valid even when its own state id differs: the mismatch only warns. */
    lemma MismatchOnlyWarns(s: Scanning, lineNum: nat, e: LogRecord)
      requires !s.aborted
      requires e.primitive in primitives && e.context in contexts
      requires RafaeliaAudit.StateId(e.primitive, e.context) in states
      requires e.stateId != RafaeliaAudit.StateId(e.primitive, e.context)
      ensures var t := Step(s, lineNum, Record(e));
              && t.results.validEntries == s.results.validEntries + 1
              && t.results.invalidEntries == s.results.invalidEntries
              && t.results.errors == s.results.errors
              && |t.results.warnings| >= |s.results.warnings| + 1
              && t.results.warnings[|s.results.warnings|] ==
                   Issue(lineNum, MismatchWarning(e.stateId, RafaeliaAudit.StateId(e.primitive, e.context)), Some(e))
    {
    }

    /** `prev_state` changes only on a valid entry, to that entry's state. */
    lemma PrevOnlyOnValid(s: Scanning, lineNum: nat, line: LogLine)
      ensures var t := Step(s, lineNum, line);
              t.prev != s.prev ==>
                && line.Record?
                && t.prev == Some(RafaeliaAudit.StateId(line.entry.primitive, line.entry.context))
                && t.results.validEntries == s.results.validEntries + 1
    {
    }

    /** The transition check never warns during a scan: the previous state
      and the entry's own are both known by then. */
    lemma {:induction false} NoTransitionWarning(lines: seq<LogLine>, e: LogRecord)
      requires var s := Scan(lines);
               s.prev.Some? && RafaeliaAudit.StateId(e.primitive, e.context) in states
      ensures ValidateTransition(Scan(lines).prev.value, RafaeliaAudit.StateId(e.primitive, e.context)).Accepted?
    {
      ScanConsistent(lines);
    }
  }
}
