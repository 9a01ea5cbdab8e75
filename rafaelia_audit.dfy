/** The RAFAELIA audit system: `AuditEntry` and its JSON-line rendering,
    and `AuditSystem`, which keeps a capped history of entries, a list of
    rollback points and an enable flag, and writes each entry to the
    session's log file. */
module RafaeliaAudit {
  import opened Text

  /** A Rust `u64`. */
  type U64 = x: int | 0 <= x < 0x1_0000_0000_0000_0000

  const MaxAuditHistory: nat := 1000

  /** The state id of a (primitive, context) pair. */
  function StateId(primitive: string, context: string): string {
    "PRIM_" + primitive + "_CTX_" + context
  }

  /** A state id is "PRIM_", the primitive, "_CTX_" and the context, in
      that order. */
  lemma StateIdParts(primitive: string, context: string)
    ensures var id := StateId(primitive, context);
            && |id| == 10 + |primitive| + |context| && id[..5] == "PRIM_"
            && id[5..5 + |primitive|] == primitive && id[5 + |primitive|..10 + |primitive|] == "_CTX_"
            && id[10 + |primitive|..] == context
  {
  }

  datatype AuditEntry = AuditEntry(
    timestamp: U64,
    sessionId: string,
    primitive: string,
    context: string,
    action: string,
    stateId: string,
    inputHash: Option<string>,
    outputHash: Option<string>,
    durationMs: U64,
    success: bool,
    errorMsg: Option<string>)

  /** `msg.replace('"', "\\\"")`: every double quote preceded by a
      backslash. */
  function Escape(s: string): (t: string)
    ensures |t| >= |s|
    ensures |s| > 0 ==> |t| > 0 && t[0] != '"'
    ensures |s| > 0 && s[|s| - 1] == '"' ==> t[|t| - 1] == '"'
  {
    if s == [] then []
    else (if s[0] == '"' then ['\\', '"'] else [s[0]]) + Escape(s[1..])
  }

  /** Undoing `Escape`: a backslash directly before a double quote is
      dropped. */
  function Unescape(t: string): string {
    if t == [] then []
    else if |t| >= 2 && t[0] == '\\' && t[1] == '"' then ['"'] + Unescape(t[2..])
    else [t[0]] + Unescape(t[1..])
  }

  /** The escaped message can be read back. */
  lemma {:induction false} EscapeRoundTrip(s: string)
    ensures Unescape(Escape(s)) == s
  {
    if s != [] {
      EscapeRoundTrip(s[1..]);
      var rest := Escape(s[1..]);
      if s[0] == '"' {
        assert Escape(s)[2..] == rest;
      } else {
        assert Escape(s)[1..] == rest;
        if s[0] == '\\' && rest != [] {
          assert rest[0] != '"';
        }
      }
    }
  }

  /** Every double quote of `t` comes right after a backslash. */
  predicate QuotesEscaped(t: string) {
    forall i :: 0 <= i < |t| && t[i] == '"' ==> i > 0 && t[i - 1] == '\\'
  }

  /** No double quote of the escaped message is left unescaped. */
  lemma {:induction false} EscapeQuotes(s: string)
    ensures QuotesEscaped(Escape(s))
  {
    if s != [] {
      EscapeQuotes(s[1..]);
      var head := if s[0] == '"' then ['\\', '"'] else [s[0]];
      var rest := Escape(s[1..]);
      var t := Escape(s);
      assert t == head + rest;
      forall i | 0 <= i < |t| && t[i] == '"'
        ensures i > 0 && t[i - 1] == '\\'
      {
        if i > |head| {
          assert t[i] == rest[i - |head|];
          assert t[i - 1] == rest[i - |head| - 1];
        }
      }
    }
  }

  /** The members a JSON line can have. */
  datatype MemberName =
    | Timestamp | SessionId | Primitive | Context | Action | StateIdMember
    | InputHash | OutputHash | DurationMs | Success | ErrorMsg

  /** A member's key in the JSON object. */
  function Key(n: MemberName): string {
    match n
    case Timestamp => "timestamp"
    case SessionId => "session_id"
    case Primitive => "primitive"
    case Context => "context"
    case Action => "action"
    case StateIdMember => "state_id"
    case InputHash => "input_hash"
    case OutputHash => "output_hash"
    case DurationMs => "duration_ms"
    case Success => "success"
    case ErrorMsg => "error_msg"
  }

  /** One `"key":value` member of the JSON object. */
  function Member(name: MemberName, value: string): string {
    "\"" + Key(name) + "\":" + value
  }

  /** A JSON string value, inserted verbatim between double quotes. */
  function Quoted(s: string): string {
    "\"" + s + "\""
  }

  function Rendered(b: bool): string {
    if b then "true" else "false"
  }

  /** The member `n` when `present`, and none otherwise. */
  function Optional(present: bool, n: MemberName): (ns: seq<MemberName>)
    ensures |ns| <= 1 && (n in ns <==> present) && forall m :: m in ns ==> m == n
  {
    if present then [n] else []
  }

  const FixedMembers: seq<MemberName> := [Timestamp, SessionId, Primitive, Context, Action, StateIdMember]

  /** The members of an entry's JSON line, in order: the six fixed text
      fields, the hashes that are present, duration and success, and the
      error message when present. */
  function Present(e: AuditEntry): (ns: seq<MemberName>)
    ensures 8 <= |ns| <= 11
  {
    FixedMembers + Optional(e.inputHash.Some?, InputHash) + Optional(e.outputHash.Some?, OutputHash)
    + [DurationMs, Success] + Optional(e.errorMsg.Some?, ErrorMsg)
  }

  /** The rendered value of a member: numbers and booleans bare, text
      between quotes, verbatim except that the error message is escaped. */
  function Value(e: AuditEntry, n: MemberName): string
    requires n in Present(e)
  {
    match n
    case Timestamp => NatToString(e.timestamp)
    case SessionId => Quoted(e.sessionId)
    case Primitive => Quoted(e.primitive)
    case Context => Quoted(e.context)
    case Action => Quoted(e.action)
    case StateIdMember => Quoted(e.stateId)
    case InputHash => Quoted(e.inputHash.value)
    case OutputHash => Quoted(e.outputHash.value)
    case DurationMs => NatToString(e.durationMs)
    case Success => Rendered(e.success)
    case ErrorMsg => Quoted(Escape(e.errorMsg.value))
  }

  /** The rendered members of an entry, in order. */
  function Body(e: AuditEntry): (rs: seq<string>)
    ensures |rs| == |Present(e)|
  {
    var ns := Present(e);
    seq(|ns|, i requires 0 <= i < |ns| => Member(ns[i], Value(e, ns[i])))
  }

  /** The JSON line of an entry: its members, comma-separated, in braces. */
  function JsonLine(e: AuditEntry): string {
    "{" + Join(Body(e), ",") + "}"
  }

  /** The fixed members always come first, in a fixed order, and duration
      and success are always present. */
  lemma FixedMembersFirst(e: AuditEntry)
    ensures Present(e)[..6] == FixedMembers
    ensures DurationMs in Present(e) && Success in Present(e)
  {
    var ns := Present(e);
    var k := 6 + |Optional(e.inputHash.Some?, InputHash)| + |Optional(e.outputHash.Some?, OutputHash)|;
    assert ns[k] == DurationMs && ns[k + 1] == Success;
  }

  /** Each optional member is present exactly when its field is `Some`. */
  lemma OptionalMembers(e: AuditEntry)
    ensures InputHash in Present(e) <==> e.inputHash.Some?
    ensures OutputHash in Present(e) <==> e.outputHash.Some?
    ensures ErrorMsg in Present(e) <==> e.errorMsg.Some?
  {
    var a, b, c := Optional(e.inputHash.Some?, InputHash), Optional(e.outputHash.Some?, OutputHash),
                   Optional(e.errorMsg.Some?, ErrorMsg);
    assert Present(e) == FixedMembers + a + b + [DurationMs, Success] + c;
  }

  /** No member occurs twice in `ns`. */
  predicate Distinct(ns: seq<MemberName>) {
    forall i, j :: 0 <= i < j < |ns| ==> ns[i] != ns[j]
  }

  /** Two lists without repeats and without common members join into one
      without repeats. */
  lemma DistinctAppend(a: seq<MemberName>, b: seq<MemberName>)
    requires Distinct(a) && Distinct(b)
    requires forall x :: x in a ==> x !in b
    ensures Distinct(a + b)
  {
    forall i, j | 0 <= i < j < |a + b| ensures (a + b)[i] != (a + b)[j] {
      if j >= |a| {
        assert (a + b)[j] == b[j - |a|];
        if i < |a| {
          assert (a + b)[i] in a;
        }
      }
    }
  }

  /** No member appears twice. */
  lemma MembersDistinct(e: AuditEntry)
    ensures Distinct(Present(e))
  {
    var a, b, c := Optional(e.inputHash.Some?, InputHash), Optional(e.outputHash.Some?, OutputHash),
                   Optional(e.errorMsg.Some?, ErrorMsg);
    var d := [DurationMs, Success];
    assert Distinct(FixedMembers);
    DistinctAppend(FixedMembers, a);
    DistinctAppend(FixedMembers + a, b);
    DistinctAppend(FixedMembers + a + b, d);
    DistinctAppend(FixedMembers + a + b + d, c);
  }

  /** The last character of a non-empty join is that of its last part. */
  lemma JoinEnds(parts: seq<string>, sep: string)
    requires parts != [] && parts[|parts| - 1] != []
    ensures var s := Join(parts, sep);
            |s| > 0 && s[|s| - 1] == parts[|parts| - 1][|parts[|parts| - 1]| - 1]
  {
    var last := parts[|parts| - 1];
    if |parts| > 1 {
      var init := parts[..|parts| - 1];
      assert parts == init + [last];
      JoinSnoc(init, last, sep);
    }
  }

  /** The last member is the error message when there is one, and success
      otherwise. */
  lemma LastMember(e: AuditEntry)
    ensures Present(e)[|Present(e)| - 1] == if e.errorMsg.Some? then ErrorMsg else Success
  {
    var init := FixedMembers + Optional(e.inputHash.Some?, InputHash) + Optional(e.outputHash.Some?, OutputHash)
                + [DurationMs, Success];
    var c := Optional(e.errorMsg.Some?, ErrorMsg);
    assert Present(e) == init + c;
    if c == [] {
      assert Present(e) == init;
    }
  }

  /** A member ends with the last character of its value. */
  lemma MemberEnds(n: MemberName, v: string)
    requires v != []
    ensures var m := Member(n, v); |m| > 0 && m[|m| - 1] == v[|v| - 1]
  {
  }

  /** A JSON line starts with '{' and ends with '}', and no comma comes
      right before the closing brace. */
  lemma JsonLineShape(e: AuditEntry)
    ensures var s := JsonLine(e);
            |s| >= 2 && s[0] == '{' && s[|s| - 1] == '}' && s[|s| - 2] != ','
  {
    var ns := Present(e);
    var rs := Body(e);
    LastMember(e);
    var n := ns[|ns| - 1];
    var v := Value(e, n);
    assert v[|v| - 1] == 'e' || v[|v| - 1] == '"';
    MemberEnds(n, v);
    assert rs[|rs| - 1] == Member(n, v);
    JoinEnds(rs, ",");
    var body := Join(rs, ",");
    var s := JsonLine(e);
    assert s == "{" + body + "}";
    assert s[|s| - 2] == body[|body| - 1];
  }

  /** The `,`-terminated members pushed so far. */
  function Terminated(parts: seq<string>): string {
    if parts == [] then [] else Terminated(parts[..|parts| - 1]) + parts[|parts| - 1] + ","
  }

  /** Terminating every part is joining and terminating the whole. */
  lemma {:induction false} TerminatedJoin(parts: seq<string>)
    requires parts != []
    ensures Terminated(parts) == Join(parts, ",") + ","
    decreases |parts|
  {
    var init, last := parts[..|parts| - 1], parts[|parts| - 1];
    if init != [] {
      TerminatedJoin(init);
      assert parts == init + [last];
      JoinSnoc(init, last, ",");
    }
  }

  /** The string buffer of `to_jsonl`: push '{', push each member followed
      by ',', pop the trailing ',' and push '}'. */
  method PushObject(members: seq<string>) returns (json: string)
    requires members != []
    ensures json == "{" + Join(members, ",") + "}"
  {
    json := "{";
    var i := 0;
    while i < |members|
      invariant 0 <= i <= |members|
      invariant json == "{" + Terminated(members[..i])
    {
      assert members[..i + 1][..i] == members[..i];
      json := json + members[i] + ",";
      i := i + 1;
    }
    assert members[..i] == members;
    TerminatedJoin(members);
    if |json| > 0 && json[|json| - 1] == ',' {
      json := json[..|json| - 1];
    }
    json := json + "}";
  }

  /** `AuditEntry::to_jsonl`. */
  method ToJsonl(e: AuditEntry) returns (json: string)
    ensures json == JsonLine(e)
  {
    json := PushObject(Body(e));
  }

  datatype RollbackPoint = RollbackPoint(
    id: string,
    timestamp: U64,
    primitive: string,
    context: string,
    stateSnapshot: seq<bv8>,
    auditIndex: nat)

  /** `points.iter().find(|p| p.id == point_id)`: the first point with the id. */
  function FindPoint(points: seq<RollbackPoint>, id: string): (r: Option<RollbackPoint>)
    ensures r.None? <==> forall i :: 0 <= i < |points| ==> points[i].id != id
    ensures r.Some? ==> exists i :: 0 <= i < |points| && points[i] == r.value && r.value.id == id &&
                                    forall j :: 0 <= j < i ==> points[j].id != id
  {
    if points == [] then None
    else if points[0].id == id then Some(points[0])
    else
      var r := FindPoint(points[1..], id);
      assert forall i :: 0 < i < |points| ==> points[i] == points[1..][i - 1];
      r
  }

  datatype IoError = NotFound(message: string) | WriteFailed(cause: string)

  datatype IoResult<T> = Ok(value: T) | Err(error: IoError)

  datatype AuditStatistics = AuditStatistics(
    totalOperations: nat,
    successfulOperations: nat,
    failedOperations: nat,
    avgDurationMs: nat,
    sessionId: string)

  /** The number of successful entries. */
  function CountSuccessful(h: seq<AuditEntry>): nat {
    if h == [] then 0 else CountSuccessful(h[..|h| - 1]) + (if h[|h| - 1].success then 1 else 0)
  }

  /** The count is the number of positions holding a successful entry. */
  lemma {:induction false} CountSuccessfulIsCardinality(h: seq<AuditEntry>)
    ensures CountSuccessful(h) == |set i | 0 <= i < |h| && h[i].success|
  {
    if h != [] {
      var init := h[..|h| - 1];
      CountSuccessfulIsCardinality(init);
      var below := set i | 0 <= i < |init| && init[i].success;
      var all := set i | 0 <= i < |h| && h[i].success;
      if h[|h| - 1].success {
        assert all == below + {|h| - 1};
      } else {
        assert all == below;
      }
    }
  }

  function SumDurations(h: seq<AuditEntry>): nat {
    if h == [] then 0 else SumDurations(h[..|h| - 1]) + h[|h| - 1].durationMs
  }

  /** `get_statistics`: counts and the truncated average duration of the
      history. */
  function Statistics(h: seq<AuditEntry>, sessionId: string): (s: AuditStatistics)
    ensures s.totalOperations == |h| && s.sessionId == sessionId
    ensures s.successfulOperations == |set i | 0 <= i < |h| && h[i].success|
    ensures s.successfulOperations + s.failedOperations == s.totalOperations
    ensures |h| == 0 ==> s.avgDurationMs == 0
    ensures |h| > 0 ==> s.avgDurationMs * |h| <= SumDurations(h) < (s.avgDurationMs + 1) * |h|
  {
    CountSuccessfulIsCardinality(h);
    CountBounded(h);
    var ok := CountSuccessful(h);
    AuditStatistics(|h|, ok, |h| - ok, if |h| > 0 then SumDurations(h) / |h| else 0, sessionId)
  }

  lemma {:induction false} CountBounded(h: seq<AuditEntry>)
    ensures CountSuccessful(h) <= |h|
  {
    if h != [] {
      CountBounded(h[..|h| - 1]);
    }
  }

  /** The entry `log_operation` builds. */
  function NewEntry(now: U64, sessionId: string, primitive: string, context: string, action: string,
                    durationMs: U64, success: bool, errorMsg: Option<string>): (e: AuditEntry)
    ensures e.stateId == StateId(primitive, context)
    ensures e.inputHash == None && e.outputHash == None
  {
    AuditEntry(now, sessionId, primitive, context, action, StateId(primitive, context), None, None,
               durationMs, success, errorMsg)
  }

  /** `pop_front` when full, then `push_back`: the last 1000 entries. */
  lemma CappedPush(h: seq<AuditEntry>, e: AuditEntry)
    requires |h| <= MaxAuditHistory
    ensures (if |h| >= MaxAuditHistory then h[1..] else h) + [e] == TakeLast(h + [e], MaxAuditHistory)
  {
    if |h| >= MaxAuditHistory {
      assert (h + [e])[1..] == h[1..] + [e];
    }
  }

  /** Whether the entry is kept: logging is enabled and the write to the
      log file did not fail. */
  predicate Logged(enabled: bool, writeError: Option<string>) {
    enabled && writeError.None?
  }

  /** The history after logging `e`: capped at 1000, the oldest going
      first, the new entry last. */
  function HistoryAfter(enabled: bool, writeError: Option<string>, h: seq<AuditEntry>, e: AuditEntry)
    : (r: seq<AuditEntry>)
    requires |h| <= MaxAuditHistory
    ensures |r| <= MaxAuditHistory
    ensures !Logged(enabled, writeError) ==> r == h
  {
    if Logged(enabled, writeError) then TakeLast(h + [e], MaxAuditHistory) else h
  }

  /** The lines of the log file after logging `e`. */
  function WrittenAfter(enabled: bool, writeError: Option<string>, w: seq<string>, e: AuditEntry)
    : seq<string>
  {
    if Logged(enabled, writeError) then w + [JsonLine(e)] else w
  }

  class AuditSystem {
    var sessionId: string
    var history: seq<AuditEntry>
    var rollbackPoints: seq<RollbackPoint>
    var enabled: bool
    /** The lines written to the session's log file. */
    var written: seq<string>

    ghost predicate Valid()
      reads this
    {
      |history| <= MaxAuditHistory
    }

    /** `AuditSystem::init`, with the session id given. */
    constructor (sessionId: string)
      ensures Valid()
      ensures this.sessionId == sessionId && enabled
      ensures history == [] && rollbackPoints == [] && written == []
    {
      this.sessionId := sessionId;
      history := [];
      rollbackPoints := [];
      enabled := true;
      written := [];
    }

    /** `log_operation`: nothing when disabled; otherwise write the
      entry's JSON line (an error there is returned and the entry is not
      kept) and append it to the capped history. */
    method LogOperation(primitive: string, context: string, action: string, durationMs: U64,
                        success: bool, errorMsg: Option<string>, now: U64, writeError: Option<string>)
      returns (r: IoResult<()>)
      requires Valid()
      modifies this
      ensures Valid()
      ensures var e := NewEntry(now, sessionId, primitive, context, action, durationMs, success, errorMsg);
              && history == HistoryAfter(old(enabled), writeError, old(history), e)
              && written == WrittenAfter(old(enabled), writeError, old(written), e)
      ensures r.Err? <==> old(enabled) && writeError.Some?
      ensures r.Err? ==> r.error == WriteFailed(writeError.value)
      ensures sessionId == old(sessionId) && rollbackPoints == old(rollbackPoints) && enabled == old(enabled)
    {
      if !enabled {
        return Ok(());
      }
      var entry := NewEntry(now, sessionId, primitive, context, action, durationMs, success, errorMsg);
      if writeError.Some? {
        return Err(WriteFailed(writeError.value));
      }
      var line := ToJsonl(entry);
      written := written + [line];
      CappedPush(history, entry);
      if |history| >= MaxAuditHistory {
        history := history[1..];
      }
      history := history + [entry];
      return Ok(());
    }

    /** `create_rollback_point`: record a point at the current history
      length, then log CREATE_ROLLBACK. The point is kept even when that
      log write fails. The clock is read twice: `now` stamps the point and
      `logNow` the log entry, as `log_operation` reads it again. */
    method CreateRollbackPoint(primitive: string, context: string, id: string, now: U64,
                               logNow: U64, writeError: Option<string>)
      returns (r: IoResult<RollbackPoint>)
      requires Valid()
      modifies this
      ensures Valid()
      ensures var point := RollbackPoint(id, now, primitive, context, [], |old(history)|);
              && rollbackPoints == old(rollbackPoints) + [point]
              && (r.Ok? <==> !(old(enabled) && writeError.Some?))
              && (r.Ok? ==> r.value == point)
      ensures var e := NewEntry(logNow, sessionId, primitive, context, "CREATE_ROLLBACK", 0, true, None);
              && history == HistoryAfter(old(enabled), writeError, old(history), e)
              && written == WrittenAfter(old(enabled), writeError, old(written), e)
      ensures sessionId == old(sessionId) && enabled == old(enabled)
    {
      var point := RollbackPoint(id, now, primitive, context, [], |history|);
      rollbackPoints := rollbackPoints + [point];
      var logged := LogOperation(primitive, context, "CREATE_ROLLBACK", 0, true, None, logNow, writeError);
      if logged.Err? {
        return Err(logged.error);
      }
      return Ok(point);
    }

    /** `perform_rollback`: NotFound when no point has the id; otherwise
      log PERFORM_ROLLBACK for the first such point. The points are never
      changed. */
    method PerformRollback(pointId: string, now: U64, writeError: Option<string>)
      returns (r: IoResult<()>)
      requires Valid()
      modifies this
      ensures Valid()
      ensures rollbackPoints == old(rollbackPoints)
      ensures (r.Err? && r.error.NotFound?) <==> forall i :: 0 <= i < |rollbackPoints| ==> rollbackPoints[i].id != pointId
      ensures r.Err? && r.error.NotFound? ==>
                r.error.message == "Rollback point not found: " + pointId &&
                history == old(history) && written == old(written)
      ensures FindPoint(old(rollbackPoints), pointId).Some? ==>
                var p := FindPoint(old(rollbackPoints), pointId).value;
                var e := NewEntry(now, sessionId, p.primitive, p.context, "PERFORM_ROLLBACK", 0, true,
                                  Some("Rollback to point: " + pointId));
                && history == HistoryAfter(old(enabled), writeError, old(history), e)
                && written == WrittenAfter(old(enabled), writeError, old(written), e)
                && (r.Err? <==> old(enabled) && writeError.Some?)
      ensures sessionId == old(sessionId) && enabled == old(enabled)
    {
      var found := FindPoint(rollbackPoints, pointId);
      if found.None? {
        return Err(NotFound("Rollback point not found: " + pointId));
      }
      var p := found.value;
      r := LogOperation(p.primitive, p.context, "PERFORM_ROLLBACK", 0, true,
                        Some("Rollback to point: " + pointId), now, writeError);
    }

    /** `get_statistics`. */
    function GetStatistics(): (s: AuditStatistics)
      reads this
      ensures s.totalOperations == |history| && s.sessionId == sessionId
      ensures s.successfulOperations + s.failedOperations == |history|
    {
      Statistics(history, sessionId)
    }

    /** `set_enabled`. */
    method SetEnabled(enabled: bool)
      modifies this
      ensures this.enabled == enabled
      ensures sessionId == old(sessionId) && history == old(history)
      ensures rollbackPoints == old(rollbackPoints) && written == old(written)
    {
      this.enabled := enabled;
    }
  }

  /** A logged entry is always last, and the entries before it are the
      newest 999 of the old history, in order: the oldest go first. */
  lemma NewestLast(h: seq<AuditEntry>, e: AuditEntry)
    requires |h| <= MaxAuditHistory
    ensures var r := HistoryAfter(true, None, h, e);
            && |r| == (if |h| < MaxAuditHistory then |h| + 1 else MaxAuditHistory)
            && r[|r| - 1] == e && r[..|r| - 1] == TakeLast(h, MaxAuditHistory - 1)
  {
    var r := HistoryAfter(true, None, h, e);
    assert r[..|r| - 1] == TakeLast(h, MaxAuditHistory - 1);
  }
}
