/**
 Idempotent mutations of the MCP adapter: a record cache in memory and durable records
 beside the run, both consulted before the runtime is invoked and written after it
 returns.  Calls do not overlap.
 */
module Idempotency {
  import opened Wrappers
  import opened Json
  import opened CanonicalText
  import opened Hashing

  datatype Outcome = Returns(response: Json) | Throws

  /** What writing a durable record does: a failing write may leave a damaged file. */
  datatype WriteOutcome = Written | LeftUntouched | LeftDamaged

  /**
   One tool call: its identity, where its durable record lives, and what the runtime and the
   write would do.  A call that names no root directory uses the working directory that the
   run was started in, which is read from the run's events before the runtime is invoked and
   again after it returned.
   */
  datatype Call = Call(
    mutates: bool, idempotencyKey: Option<string>,
    toolName: string, operation: string, args: Json,
    tenantId: string, clientId: Option<string>, subjectId: Option<string>,
    runId: Option<string>, rootDir: Option<string>,
    cwdAtCheck: Option<string>, cwdAtStore: Option<string>,
    outcome: Outcome, write: WriteOutcome)

  datatype Record = Record(identityHash: string, response: Json)

  datatype DurableRecord = Intact(record: Record) | Damaged

  datatype Path = Path(rootDir: string, runId: string, fileName: string)

  datatype Reply = Response(value: Json) | Conflict | RuntimeError

  datatype State = State(records: map<string, Record>, durable: map<Path, DurableRecord>)

  /** `JSON.parse(JSON.stringify(response))` */
  function Clone(j: Json): Json {
    match j
    case JUndefined => JNull
    case JArr(items) => JArr(CloneItems(items))
    case JObj(fields) => JObj(CloneFields(fields))
    case _ => j
  }

  function CloneItems(items: seq<Json>): seq<Json> {
    if items == [] then [] else [Clone(items[0])] + CloneItems(items[1..])
  }

  function CloneFields(fields: seq<Field>): seq<Field> {
    if fields == [] then []
    else if fields[0].value.JUndefined? then CloneFields(fields[1..])
    else [Field(fields[0].key, Clone(fields[0].value))] + CloneFields(fields[1..])
  }

  function IdentityJson(c: Call): Json {
    JObj([Field("toolName", JStr(c.toolName)), Field("runtimeOperation", JStr(c.operation)),
          Field("args", c.args), Field("tenantId", JStr(c.tenantId)),
          Field("clientId", OptionalText(c.clientId)), Field("subjectId", OptionalText(c.subjectId))])
  }

  function IdentityHash(sha: Sha, c: Call): string {
    Digest(sha, StableText(IdentityJson(c)))
  }

  function CacheKey(sha: Sha, idempotencyKey: string): string {
    Digest(sha, StableText(JObj([Field("idempotencyKey", JStr(idempotencyKey))])))
  }

  /** The cache key with the characters a file name may not have replaced. */
  function FileName(cacheKey: string): string {
    seq(|cacheKey|, i requires 0 <= i < |cacheKey| => if IsFileChar(cacheKey[i]) then cacheKey[i] else '_') + ".json"
  }

  predicate IsFileChar(c: char) {
    'a' <= c <= 'z' || 'A' <= c <= 'Z' || '0' <= c <= '9' || c == '.' || c == '-'
  }

  /** Calls that the protocol covers. */
  predicate IsTracked(c: Call) {
    c.mutates && c.idempotencyKey.Some?
  }

  function KeyOf(sha: Sha, c: Call): string
    requires IsTracked(c)
  {
    CacheKey(sha, c.idempotencyKey.value)
  }

  function PathIn(sha: Sha, c: Call, cwd: Option<string>): Option<Path>
    requires IsTracked(c)
  {
    if c.runId.None? then None
    else
      var rootDir := if c.rootDir.Some? then c.rootDir else cwd;
      if rootDir.None? then None else Some(Path(rootDir.value, c.runId.value, FileName(KeyOf(sha, c))))
  }

  function CheckPath(sha: Sha, c: Call): Option<Path>
    requires IsTracked(c)
  {
    PathIn(sha, c, c.cwdAtCheck)
  }

  function StorePath(sha: Sha, c: Call): Option<Path>
    requires IsTracked(c)
  {
    PathIn(sha, c, c.cwdAtStore)
  }

  /** What a stored record answers to a call. */
  function Answer(sha: Sha, record: Record, c: Call): Reply {
    if record.identityHash != IdentityHash(sha, c) then Conflict else Response(Clone(record.response))
  }

  /** The reply that the cache or the durable record gives without invoking the runtime, if any. */
  function Settled(sha: Sha, st: State, c: Call): Option<Reply> {
    if !IsTracked(c) then None
    else if KeyOf(sha, c) in st.records then Some(Answer(sha, st.records[KeyOf(sha, c)], c))
    else match CheckPath(sha, c)
      case None => None
      case Some(path) =>
        if path !in st.durable then None
        else match st.durable[path]
          case Damaged => Some(Conflict)
          case Intact(record) => Some(Answer(sha, record, c))
  }

  /** The state once a call has returned and its record is kept. */
  function Stored(sha: Sha, st: State, c: Call): State
    requires IsTracked(c) && c.outcome.Returns?
  {
    var record := Record(IdentityHash(sha, c), Clone(c.outcome.response));
    State(st.records[KeyOf(sha, c) := record], AfterWrite(st.durable, StorePath(sha, c), c.write, record))
  }

  /** The durable records after a write. */
  function AfterWrite(durable: map<Path, DurableRecord>, path: Option<Path>, write: WriteOutcome, record: Record)
    : map<Path, DurableRecord>
  {
    if path.None? || write.LeftUntouched? then durable
    else durable[path.value := if write.Written? then Intact(record) else Damaged]
  }

  /** `callMcpTool`: the next state, the reply, and whether the runtime was invoked. */
  function Step(sha: Sha, st: State, c: Call): (State, Reply, bool) {
    match Settled(sha, st, c)
    case Some(reply) => (st, reply, false)
    case None =>
      match c.outcome
      case Throws => (st, RuntimeError, true)
      case Returns(response) =>
        if IsTracked(c) then (Stored(sha, st, c), Response(response), true)
        else (st, Response(response), true)
  }

  class McpIdempotency {
    const sha: Sha
    var records: map<string, Record>
    var durable: map<Path, DurableRecord>

    function Abstract(): State
      reads this
    {
      State(records, durable)
    }

    /** A new adapter lifetime over the durable records that are there. */
    constructor (sha: Sha, durable: map<Path, DurableRecord>)
      ensures this.sha == sha && Abstract() == State(map[], durable)
    {
      this.sha := sha;
      records := map[];
      this.durable := durable;
    }

    method CheckMemory(c: Call) returns (decision: Option<Reply>)
      requires IsTracked(c)
      ensures decision == if KeyOf(sha, c) in records then Some(Answer(sha, records[KeyOf(sha, c)], c)) else None
    {
      var cacheKey := KeyOf(sha, c);
      if cacheKey !in records {
        return None;
      }
      if records[cacheKey].identityHash != IdentityHash(sha, c) {
        return Some(Conflict);
      }
      return Some(Response(Clone(records[cacheKey].response)));
    }

    method CheckDurable(c: Call) returns (decision: Option<Reply>)
      requires IsTracked(c) && KeyOf(sha, c) !in records
      ensures decision == Settled(sha, Abstract(), c)
    {
      var path := CheckPath(sha, c);
      if path.None? || path.value !in durable {
        return None;
      }
      match durable[path.value]
      case Damaged => return Some(Conflict);
      case Intact(record) =>
        if record.identityHash != IdentityHash(sha, c) {
          return Some(Conflict);
        }
        return Some(Response(Clone(record.response)));
    }

    method Store(c: Call, response: Json)
      requires IsTracked(c)
      modifies this
      ensures records == old(records)[KeyOf(sha, c) := Record(IdentityHash(sha, c), Clone(response))]
      ensures durable == AfterWrite(old(durable), StorePath(sha, c), c.write, Record(IdentityHash(sha, c), Clone(response)))
    {
      var record := Record(IdentityHash(sha, c), Clone(response));
      records := records[KeyOf(sha, c) := record];
      WriteDurable(StorePath(sha, c), c.write, record);
    }

    method WriteDurable(path: Option<Path>, write: WriteOutcome, record: Record)
      modifies this`durable
      ensures durable == AfterWrite(old(durable), path, write, record)
    {
      if path.None? {
        return;
      }
      match write
      case Written => durable := durable[path.value := Intact(record)];
      case LeftDamaged => durable := durable[path.value := Damaged];
      case LeftUntouched =>
    }

    method CallTool(c: Call) returns (reply: Reply, invoked: bool)
      modifies this
      ensures (Abstract(), reply, invoked) == Step(sha, old(Abstract()), c)
    {
      if IsTracked(c) {
        var decision := CheckMemory(c);
        if decision.None? {
          decision := CheckDurable(c);
        }
        if decision.Some? {
          return decision.value, false;
        }
      }
      match c.outcome
      case Throws => return RuntimeError, true;
      case Returns(response) =>
        if IsTracked(c) {
          Store(c, response);
        }
        return Response(response), true;
    }
  }

  // ------------------------------------------------------------------- histories

  datatype Op = Invoke(call: Call) | Restart

  function After(sha: Sha, start: State, ops: seq<Op>): State {
    if ops == [] then start
    else
      var st := After(sha, start, ops[..|ops| - 1]);
      match ops[|ops| - 1]
      case Restart => State(map[], st.durable)
      case Invoke(c) => Step(sha, st, c).0
  }

  predicate IsCall(ops: seq<Op>, i: nat) {
    i < |ops| && ops[i].Invoke? && IsTracked(ops[i].call)
  }

  function ReplyAt(sha: Sha, start: State, ops: seq<Op>, i: nat): Reply
    requires IsCall(ops, i)
  {
    Step(sha, After(sha, start, ops[..i]), ops[i].call).1
  }

  predicate InvokedAt(sha: Sha, start: State, ops: seq<Op>, i: nat)
    requires IsCall(ops, i)
  {
    Step(sha, After(sha, start, ops[..i]), ops[i].call).2
  }

  /** The runtime was invoked by call `i` and returned. */
  predicate ReturnedAt(sha: Sha, start: State, ops: seq<Op>, i: nat)
    requires IsCall(ops, i)
  {
    InvokedAt(sha, start, ops, i) && ops[i].call.outcome.Returns?
  }

  predicate NoRestart(ops: seq<Op>, i: nat, j: nat) {
    forall k :: i <= k < j && k < |ops| ==> !ops[k].Restart?
  }

  lemma AfterOne(sha: Sha, start: State, ops: seq<Op>, i: nat)
    requires i < |ops|
    ensures After(sha, start, ops[..i + 1]) ==
      match ops[i]
      case Restart => State(map[], After(sha, start, ops[..i]).durable)
      case Invoke(c) => Step(sha, After(sha, start, ops[..i]), c).0
  {
    assert ops[..i + 1][..i] == ops[..i];
  }

  lemma StepKeeps(sha: Sha, st: State, c: Call, key: string)
    requires key in st.records
    ensures key in Step(sha, st, c).0.records && Step(sha, st, c).0.records[key] == st.records[key]
  {
  }

  /** The call does not write where it did not look. */
  predicate LooksFirst(sha: Sha, c: Call, path: Path) {
    IsTracked(c) && StorePath(sha, c) == Some(path) ==> CheckPath(sha, c) == Some(path)
  }

  lemma StepKeepsDurable(sha: Sha, st: State, c: Call, path: Path)
    requires path in st.durable && LooksFirst(sha, c, path)
    ensures path in Step(sha, st, c).0.durable && Step(sha, st, c).0.durable[path] == st.durable[path]
  {
  }

  /** Between two moments, no call writes at the path without looking there first. */
  predicate AllLookFirst(sha: Sha, ops: seq<Op>, i: nat, j: nat, path: Path) {
    forall k :: i <= k < j && k < |ops| && ops[k].Invoke? ==> LooksFirst(sha, ops[k].call, path)
  }

  lemma RecordStaysNext(sha: Sha, start: State, ops: seq<Op>, k: nat, key: string)
    requires k < |ops| && !ops[k].Restart? && key in After(sha, start, ops[..k]).records
    ensures key in After(sha, start, ops[..k + 1]).records
    ensures After(sha, start, ops[..k + 1]).records[key] == After(sha, start, ops[..k]).records[key]
  {
    AfterOne(sha, start, ops, k);
    StepKeeps(sha, After(sha, start, ops[..k]), ops[k].call, key);
  }

  /** A record in memory stays as it is until a restart. */
  lemma {:induction false} RecordsStay(sha: Sha, start: State, ops: seq<Op>, i: nat, j: nat, key: string)
    requires i <= j <= |ops| && NoRestart(ops, i, j)
    requires key in After(sha, start, ops[..i]).records
    ensures key in After(sha, start, ops[..j]).records
    ensures After(sha, start, ops[..j]).records[key] == After(sha, start, ops[..i]).records[key]
    decreases j - i
  {
    if i < j {
      RecordStaysNext(sha, start, ops, i, key);
      RecordsStay(sha, start, ops, i + 1, j, key);
    }
  }

  /** A durable record is not overwritten by calls that look first, not even across restarts. */
  lemma {:induction false} DurableStays(sha: Sha, start: State, ops: seq<Op>, i: nat, j: nat, path: Path)
    requires i <= j <= |ops| && path in After(sha, start, ops[..i]).durable && AllLookFirst(sha, ops, i, j, path)
    ensures path in After(sha, start, ops[..j]).durable
    ensures After(sha, start, ops[..j]).durable[path] == After(sha, start, ops[..i]).durable[path]
    decreases j - i
  {
    if i < j {
      DurableStays(sha, start, ops, i, j - 1, path);
      AfterOne(sha, start, ops, j - 1);
      if ops[j - 1].Invoke? {
        StepKeepsDurable(sha, After(sha, start, ops[..j - 1]), ops[j - 1].call, path);
      }
    }
  }

  /**
   A run's events are only ever appended, and its working directory is that of the first
   event that starts it: once known it stays the same, within a call and from call to call.
   */
  predicate CwdsStay(ops: seq<Op>) {
    && (forall k :: 0 <= k < |ops| && ops[k].Invoke? && ops[k].call.cwdAtCheck.Some? ==>
          ops[k].call.cwdAtStore == ops[k].call.cwdAtCheck)
    && (forall i, k :: 0 <= i < k < |ops| && ops[i].Invoke? && ops[k].Invoke? && SameRun(ops[i].call, ops[k].call) ==>
          ops[i].call.cwdAtStore.Some? ==> ops[k].call.cwdAtCheck == ops[i].call.cwdAtStore)
  }

  predicate SameRun(a: Call, b: Call) {
    a.runId == b.runId
  }

  /** After a call that used the run's own working directory, every call looks before it writes there. */
  lemma RunsOwnDirectory(sha: Sha, ops: seq<Op>, i: nat, j: nat)
    requires CwdsStay(ops) && IsCall(ops, i) && i < j <= |ops|
    requires ops[i].call.rootDir.None? && StorePath(sha, ops[i].call).Some?
    ensures AllLookFirst(sha, ops, i + 1, j, StorePath(sha, ops[i].call).value)
  {
  }

  /** The reply to a repeated call: the first response again, or a conflict for another identity. */
  function Repeated(sha: Sha, first: Call, later: Call): Reply
    requires first.outcome.Returns?
  {
    if IdentityHash(sha, first) != IdentityHash(sha, later) then Conflict
    else Response(Clone(Clone(first.outcome.response)))
  }

  /**
   In one adapter lifetime, once a call under an idempotency key has invoked the
   runtime and returned, no later call under that key invokes it again: calls of the
   same identity get the first response and all others a conflict.
   */
  lemma AtMostOneReturnPerKey(sha: Sha, start: State, ops: seq<Op>, i: nat, j: nat)
    requires IsCall(ops, i) && IsCall(ops, j) && i < j && NoRestart(ops, i, j)
    requires ReturnedAt(sha, start, ops, i) && KeyOf(sha, ops[i].call) == KeyOf(sha, ops[j].call)
    ensures !InvokedAt(sha, start, ops, j)
    ensures ReplyAt(sha, start, ops, j) == Repeated(sha, ops[i].call, ops[j].call)
  {
    AfterOne(sha, start, ops, i);
    RecordsStay(sha, start, ops, i + 1, j, KeyOf(sha, ops[i].call));
  }

  lemma NewRecordIsOwn(sha: Sha, st: State, c: Call, key: string)
    requires key in Step(sha, st, c).0.records && key !in st.records
    ensures IsTracked(c) && Step(sha, st, c).2 && c.outcome.Returns? && KeyOf(sha, c) == key
  {
  }

  lemma MemoryBeforeOrNow(sha: Sha, start: State, ops: seq<Op>, k: nat, key: string)
    requires k < |ops| && key in After(sha, start, ops[..k + 1]).records
    ensures (IsCall(ops, k) && ReturnedAt(sha, start, ops, k) && KeyOf(sha, ops[k].call) == key)
      || (key in After(sha, start, ops[..k]).records && !ops[k].Restart?)
  {
    AfterOne(sha, start, ops, k);
    var st := After(sha, start, ops[..k]);
    match ops[k]
    case Restart =>
    case Invoke(c) =>
      if key !in st.records {
        NewRecordIsOwn(sha, st, c, key);
      }
  }

  /** Every record in memory was put there since the last restart by a call that returned. */
  lemma {:induction false} MemoryHasOrigin(sha: Sha, start: State, ops: seq<Op>, j: nat, key: string) returns (k: nat)
    requires 0 < j <= |ops| && start.records == map[] && key in After(sha, start, ops[..j]).records
    ensures k < j && IsCall(ops, k) && NoRestart(ops, k, j)
    ensures ReturnedAt(sha, start, ops, k) && KeyOf(sha, ops[k].call) == key
    decreases j
  {
    k := j - 1;
    MemoryBeforeOrNow(sha, start, ops, k, key);
    if !(IsCall(ops, k) && ReturnedAt(sha, start, ops, k) && KeyOf(sha, ops[k].call) == key) {
      k := MemoryHasOrigin(sha, start, ops, k, key);
    }
  }

  /** Call `k` returned under the key of call `j`, in the adapter lifetime that call `j` is in. */
  predicate SharesMemory(sha: Sha, start: State, ops: seq<Op>, k: nat, j: nat)
    requires IsCall(ops, j)
  {
    k < j && NoRestart(ops, k, j) && IsCall(ops, k) && ReturnedAt(sha, start, ops, k)
    && KeyOf(sha, ops[k].call) == KeyOf(sha, ops[j].call)
  }

  /** What the durable record of a call answers to later ones: nothing but conflicts when it is damaged. */
  function FromDisk(sha: Sha, first: Call, later: Call): Reply
    requires first.outcome.Returns?
  {
    if first.write.Written? then Repeated(sha, first, later) else Conflict
  }

  /**
   Across restarts, once such a call has also written its durable record, or damaged it, no
   later call that looks there invokes the runtime.  Call `j` is answered by that record,
   except when some call `k` has returned under the same key since the last restart: then it
   is answered as a repetition of `k`.
   */
  lemma AtMostOneReturnPerRun(sha: Sha, start: State, ops: seq<Op>, i: nat, j: nat)
    requires IsCall(ops, i) && IsCall(ops, j) && i < j && start.records == map[]
    requires ReturnedAt(sha, start, ops, i) && !ops[i].call.write.LeftUntouched?
    requires StorePath(sha, ops[i].call).Some? && StorePath(sha, ops[i].call) == CheckPath(sha, ops[j].call)
    requires AllLookFirst(sha, ops, i + 1, j, StorePath(sha, ops[i].call).value)
    ensures !InvokedAt(sha, start, ops, j)
    ensures forall k: nat :: SharesMemory(sha, start, ops, k, j) ==> ReplyAt(sha, start, ops, j) == Repeated(sha, ops[k].call, ops[j].call)
    ensures (forall k: nat :: !SharesMemory(sha, start, ops, k, j))
      ==> ReplyAt(sha, start, ops, j) == FromDisk(sha, ops[i].call, ops[j].call)
  {
    forall k: nat | SharesMemory(sha, start, ops, k, j)
      ensures ReplyAt(sha, start, ops, j) == Repeated(sha, ops[k].call, ops[j].call)
    {
      AtMostOneReturnPerKey(sha, start, ops, k, j);
    }
    WrittenAfter(sha, start, ops, i);
    DurableStays(sha, start, ops, i + 1, j, StorePath(sha, ops[i].call).value);
    if KeyOf(sha, ops[j].call) in After(sha, start, ops[..j]).records {
      var k := MemoryHasOrigin(sha, start, ops, j, KeyOf(sha, ops[j].call));
      assert SharesMemory(sha, start, ops, k, j);
    } else {
      AnsweredFromDisk(sha, After(sha, start, ops[..j]), ops[i].call, ops[j].call);
    }
  }

  function DiskRecord(sha: Sha, c: Call): DurableRecord
    requires IsTracked(c) && c.outcome.Returns?
  {
    if c.write.Written? then Intact(Record(IdentityHash(sha, c), Clone(c.outcome.response))) else Damaged
  }

  lemma WrittenAfter(sha: Sha, start: State, ops: seq<Op>, i: nat)
    requires IsCall(ops, i) && ReturnedAt(sha, start, ops, i)
    requires StorePath(sha, ops[i].call).Some? && !ops[i].call.write.LeftUntouched?
    ensures var path, durable := StorePath(sha, ops[i].call).value, After(sha, start, ops[..i + 1]).durable;
      path in durable && durable[path] == DiskRecord(sha, ops[i].call)
  {
    AfterOne(sha, start, ops, i);
  }

  lemma AnsweredFromDisk(sha: Sha, st: State, first: Call, later: Call)
    requires IsTracked(first) && first.outcome.Returns? && IsTracked(later) && KeyOf(sha, later) !in st.records
    requires CheckPath(sha, later).Some? && CheckPath(sha, later).value in st.durable
    requires st.durable[CheckPath(sha, later).value] == DiskRecord(sha, first)
    ensures Step(sha, st, later) == (st, FromDisk(sha, first, later), false)
  {
  }

  /**
   Looking first is needed: after a restart, a call that would write where such a record is
   invokes the runtime again exactly when it does not look there first, as a call can that
   reads its directory only once the run has started.
   */
  lemma LookingFirstIsNeeded(sha: Sha, first: Call, later: Call)
    requires IsTracked(first) && first.outcome.Returns? && !first.write.LeftUntouched? && IsTracked(later)
    requires StorePath(sha, first).Some? && StorePath(sha, later) == StorePath(sha, first)
    ensures var start, ops := State(map[], map[]), [Invoke(first), Restart, Invoke(later)];
      InvokedAt(sha, start, ops, 2) <==> !LooksFirst(sha, later, StorePath(sha, first).value)
  {
    var start, ops := State(map[], map[]), [Invoke(first), Restart, Invoke(later)];
    AfterRestart(sha, start, ops, first);
    SettledByDisk(sha, Stored(sha, start, first).durable, later);
  }

  lemma SettledByDisk(sha: Sha, durable: map<Path, DurableRecord>, c: Call)
    requires IsTracked(c)
    ensures Step(sha, State(map[], durable), c).2 <==> CheckPath(sha, c).None? || CheckPath(sha, c).value !in durable
  {
  }

  /** A write that damages its file costs the first response: after a restart the same call gets a conflict. */
  lemma DamageConflicts(sha: Sha, first: Call)
    requires IsTracked(first) && first.outcome.Returns? && first.write.LeftDamaged?
    requires StorePath(sha, first).Some? && StorePath(sha, first) == CheckPath(sha, first)
    ensures var start, ops := State(map[], map[]), [Invoke(first), Restart, Invoke(first)];
      ReplyAt(sha, start, ops, 2) == Conflict && !InvokedAt(sha, start, ops, 2)
  {
    var start, ops := State(map[], map[]), [Invoke(first), Restart, Invoke(first)];
    AfterRestart(sha, start, ops, first);
  }

  /** A call that throws leaves no record: the same call may be tried again. */
  lemma ThrowLeavesNoRecord(sha: Sha, st: State, c: Call)
    requires Settled(sha, st, c).None? && c.outcome.Throws?
    ensures Step(sha, st, c).0 == st && Step(sha, st, c.(outcome := Returns(JNull))).2
  {
    assert Settled(sha, st, c.(outcome := Returns(JNull))) == Settled(sha, st, c) by {
      assert IdentityJson(c.(outcome := Returns(JNull))) == IdentityJson(c);
    }
  }

  /**
   After a restart the promise that the same identity gets the first response can fail:
   when another run has used the key since, the original call gets a conflict.
   */
  lemma RestartCanConflict(sha: Sha, first: Call, other: Call)
    requires IsTracked(first) && IsTracked(other) && first.idempotencyKey == other.idempotencyKey
    requires first.outcome.Returns? && other.outcome.Returns? && first.write.Written?
    requires CheckPath(sha, first) == StorePath(sha, first) && CheckPath(sha, other) == StorePath(sha, other)
    requires CheckPath(sha, first).Some? && CheckPath(sha, other).Some? && CheckPath(sha, first) != CheckPath(sha, other)
    requires IdentityHash(sha, first) != IdentityHash(sha, other)
    ensures var start := State(map[], map[]);
      var ops := [Invoke(first), Restart, Invoke(other), Invoke(first)];
      ReplyAt(sha, start, ops, 3) == Conflict && !InvokedAt(sha, start, ops, 3)
  {
    var start := State(map[], map[]);
    var ops := [Invoke(first), Restart, Invoke(other), Invoke(first)];
    assert Settled(sha, start, first).None?;
    ConflictAfter(sha, start, ops, first, other);
  }

  lemma ConflictAfter(sha: Sha, start: State, ops: seq<Op>, first: Call, other: Call)
    requires |ops| == 4 && ops[0] == Invoke(first) && ops[1] == Restart && ops[2] == Invoke(other) && ops[3] == Invoke(first)
    requires IsTracked(first) && first.outcome.Returns? && Settled(sha, start, first).None?
    requires IsTracked(other) && other.outcome.Returns? && KeyOf(sha, other) == KeyOf(sha, first)
    requires Settled(sha, State(map[], Stored(sha, start, first).durable), other).None?
    requires IdentityHash(sha, first) != IdentityHash(sha, other)
    ensures Step(sha, After(sha, start, ops[..3]), first) == (After(sha, start, ops[..3]), Conflict, false)
  {
    var s2 := State(map[], Stored(sha, start, first).durable);
    AfterRestart(sha, start, ops, first);
    AfterReturn(sha, start, ops, 2, other);
    StoredHas(sha, s2, other);
    OtherIdentityConflicts(sha, Stored(sha, s2, other), other, first);
  }

  lemma StoredHas(sha: Sha, st: State, c: Call)
    requires IsTracked(c) && c.outcome.Returns?
    ensures var records := Stored(sha, st, c).records;
      KeyOf(sha, c) in records && records[KeyOf(sha, c)].identityHash == IdentityHash(sha, c)
  {
  }

  lemma AfterReturn(sha: Sha, start: State, ops: seq<Op>, k: nat, c: Call)
    requires k < |ops| && ops[k] == Invoke(c) && IsTracked(c) && c.outcome.Returns?
    requires Settled(sha, After(sha, start, ops[..k]), c).None?
    ensures After(sha, start, ops[..k + 1]) == Stored(sha, After(sha, start, ops[..k]), c)
  {
    AfterOne(sha, start, ops, k);
    FirstStep(sha, After(sha, start, ops[..k]), c);
  }

  /** A call that returns, and then a restart. */
  lemma AfterRestart(sha: Sha, start: State, ops: seq<Op>, c: Call)
    requires |ops| >= 2 && ops[0] == Invoke(c) && ops[1] == Restart
    requires IsTracked(c) && c.outcome.Returns? && Settled(sha, start, c).None?
    ensures After(sha, start, ops[..2]) == State(map[], Stored(sha, start, c).durable)
  {
    assert ops[..0] == [];
    AfterReturn(sha, start, ops, 0, c);
    AfterOne(sha, start, ops, 1);
  }

  lemma OtherIdentityConflicts(sha: Sha, st: State, stored: Call, c: Call)
    requires IsTracked(stored) && stored.outcome.Returns? && IsTracked(c) && KeyOf(sha, c) == KeyOf(sha, stored)
    requires KeyOf(sha, c) in st.records && st.records[KeyOf(sha, c)].identityHash == IdentityHash(sha, stored)
    requires IdentityHash(sha, c) != IdentityHash(sha, stored)
    ensures Step(sha, st, c) == (st, Conflict, false)
  {
  }

  lemma FirstStep(sha: Sha, st: State, c: Call)
    requires IsTracked(c) && c.outcome.Returns? && Settled(sha, st, c).None?
    ensures Step(sha, st, c).0 == Stored(sha, st, c)
  {
  }

  // ------------------------------------------------------------ identity and copies

  /** Calls with one identity hash ask for the same, unless SHA-256 collides on their identities. */
  lemma SameIdentitySameCall(sha: Sha, c: Call, d: Call)
    requires Canonical(c.args) && Canonical(d.args)
    requires !c.args.JUndefined? && !d.args.JUndefined?
    requires IdentityHash(sha, c) == IdentityHash(sha, d)
    ensures Collision(sha, StableText(IdentityJson(c)), StableText(IdentityJson(d)))
      || (c.toolName == d.toolName && c.operation == d.operation && Denote(c.args) == Denote(d.args)
          && c.tenantId == d.tenantId && c.clientId == d.clientId && c.subjectId == d.subjectId)
  {
    var a, b := IdentityJson(c), IdentityJson(d);
    assert Denote(a) == Denote(b) || Collision(sha, StableText(a), StableText(b)) by {
      IdentityCanonical(c);
      IdentityCanonical(d);
      SameHashSameMeaning(sha, a, b);
    }
    if Denote(a) == Denote(b) {
      SameIdentityFields(c, d);
    }
  }

  lemma SameIdentityFields(c: Call, d: Call)
    requires DenoteFields(IdentityJson(c).fields) == DenoteFields(IdentityJson(d).fields)
    ensures c.toolName == d.toolName && c.operation == d.operation && Denote(c.args) == Denote(d.args)
      && c.tenantId == d.tenantId && c.clientId == d.clientId && c.subjectId == d.subjectId
  {
    var fs, gs := IdentityJson(c).fields, IdentityJson(d).fields;
    IdentityFields(c);
    IdentityFields(d);
    SameKeysSameFields(fs, gs);
    assert Denote(fs[0].value) == Denote(gs[0].value);
    assert Denote(fs[1].value) == Denote(gs[1].value);
    assert Denote(fs[2].value) == Denote(gs[2].value);
    assert Denote(fs[3].value) == Denote(gs[3].value);
    assert fs[4].value == OptionalText(c.clientId) && gs[4].value == OptionalText(d.clientId);
    assert fs[5].value == OptionalText(c.subjectId) && gs[5].value == OptionalText(d.subjectId);
    SameOptional(c.clientId, d.clientId);
    SameOptional(c.subjectId, d.subjectId);
  }

  const IDENTITY_KEYS := ["toolName", "runtimeOperation", "args", "tenantId", "clientId", "subjectId"]

  lemma IdentityKeysDiffer(i: nat, j: nat)
    requires i < j < 6
    ensures IDENTITY_KEYS[i] != IDENTITY_KEYS[j]
  {
    var a, b := IDENTITY_KEYS[i], IDENTITY_KEYS[j];
    assert |a| != |b| || a[1] != b[1];
  }

  lemma IdentityFields(c: Call)
    ensures DistinctKeys(IdentityJson(c).fields)
    ensures |IdentityJson(c).fields| == 6 && forall i :: 0 <= i < 6 ==> IdentityJson(c).fields[i].key == IDENTITY_KEYS[i]
  {
    forall i, j | 0 <= i < j < 6
      ensures IDENTITY_KEYS[i] != IDENTITY_KEYS[j]
    {
      IdentityKeysDiffer(i, j);
    }
  }

  lemma IdentityCanonical(c: Call)
    requires Canonical(c.args)
    ensures Canonical(IdentityJson(c))
  {
    IdentityFields(c);
    var fields := IdentityJson(c).fields;
    forall i | 0 <= i < 6
      ensures Proper(fields[i].value) && Hashable(fields[i].value)
    {
    }
  }

  lemma {:induction false} CloneTwice(j: Json)
    ensures Clone(Clone(j)) == Clone(j) && !Clone(j).JUndefined?
    decreases j, 1
  {
    match j
    case JArr(items) => CloneItemsTwice(items);
    case JObj(fields) => CloneFieldsTwice(fields);
    case _ =>
  }

  lemma {:induction false} CloneItemsTwice(items: seq<Json>)
    ensures CloneItems(CloneItems(items)) == CloneItems(items)
    decreases items, 0
  {
    if items != [] {
      CloneTwice(items[0]);
      CloneItemsTwice(items[1..]);
      assert CloneItems(items)[1..] == CloneItems(items[1..]);
    }
  }

  lemma {:induction false} CloneFieldsTwice(fields: seq<Field>)
    ensures CloneFields(CloneFields(fields)) == CloneFields(fields)
    decreases fields, 0
  {
    if fields != [] {
      CloneTwice(fields[0].value);
      CloneFieldsTwice(fields[1..]);
      assert fields[0].value.JUndefined? || CloneFields(fields)[1..] == CloneFields(fields[1..]);
    }
  }

  /** A stored copy means what the response meant, so a repeated reply does too. */
  lemma {:induction false} CloneMeans(j: Json)
    ensures Denote(Clone(j)) == Denote(j)
    decreases j, 1
  {
    match j
    case JArr(items) => CloneItemsMean(items);
    case JObj(fields) => CloneFieldsMean(fields);
    case _ =>
  }

  lemma {:induction false} CloneItemsMean(items: seq<Json>)
    ensures DenoteItems(CloneItems(items)) == DenoteItems(items)
    decreases items, 0
  {
    if items != [] {
      CloneMeans(items[0]);
      CloneItemsMean(items[1..]);
      assert CloneItems(items)[1..] == CloneItems(items[1..]);
    }
  }

  lemma {:induction false} CloneFieldsMean(fields: seq<Field>)
    ensures DenoteFields(CloneFields(fields)) == DenoteFields(fields)
    decreases fields, 0
  {
    if fields != [] {
      CloneMeans(fields[0].value);
      CloneTwice(fields[0].value);
      CloneFieldsMean(fields[1..]);
      assert fields[0].value.JUndefined? || CloneFields(fields)[1..] == CloneFields(fields[1..]);
    }
  }

  /** The reply to a repeated call means exactly what the first response meant. */
  lemma RepeatedMeansFirst(sha: Sha, first: Call, later: Call)
    requires first.outcome.Returns? && IdentityHash(sha, first) == IdentityHash(sha, later)
    ensures Repeated(sha, first, later) == Response(Clone(first.outcome.response))
    ensures Denote(Repeated(sha, first, later).value) == Denote(first.outcome.response)
  {
    CloneTwice(first.outcome.response);
    CloneMeans(first.outcome.response);
  }

  /** Different cache keys have different files: the replaced colon is the only one. */
  lemma FilesDoNotMix(sha: Sha, k: string, l: string)
    requires HexOutput(sha) && FileName(CacheKey(sha, k)) == FileName(CacheKey(sha, l))
    ensures CacheKey(sha, k) == CacheKey(sha, l)
  {
    var a, b := CacheKey(sha, k), CacheKey(sha, l);
    DigestIsDigest(sha, StableText(JObj([Field("idempotencyKey", JStr(k))])));
    DigestIsDigest(sha, StableText(JObj([Field("idempotencyKey", JStr(l))])));
    assert a[..7] == "sha256:" == b[..7];
    forall i | 0 <= i < 71
      ensures a[i] == b[i]
    {
      if i < 7 {
        assert a[i] == a[..7][i] && b[i] == b[..7][i];
      } else {
        assert a[i] == a[7..][i - 7] && b[i] == b[7..][i - 7];
        assert FileName(a)[i] == a[i] && FileName(b)[i] == b[i];
      }
    }
  }
}
