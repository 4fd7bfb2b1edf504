/**
 The quarantine of external MCP capabilities: which histories of results quarantine a
 capability, and the adapter that consults and feeds the quarantine.
 */
module Quarantine {
  import opened Wrappers
  import opened Separators

  datatype Key = Key(serverId: string, toolName: string, version: string)

  datatype Trigger = OutputInvalid | ExternalTimeout | ExternalFailure | VersionMismatch

  datatype Record = Record(key: Key, trigger: Trigger, failureCount: nat)

  function KeyFor(key: Key): string {
    Join(NUL, key.serverId, key.toolName, key.version)
  }

  function TriggerFor(code: string): Option<Trigger> {
    if code == "output_invalid" then Some(OutputInvalid)
    else if code == "external_timeout" || code == "timeout" then Some(ExternalTimeout)
    else if code == "external_version_mismatch" then Some(VersionMismatch)
    else if code == "external_server_failed" || code == "adapter_error" || code == "external_transport_error"
    then Some(ExternalFailure)
    else None
  }

  predicate IsImmediate(t: Trigger) {
    t.OutputInvalid? || t.VersionMismatch?
  }

  /** What happens to a capability, named by its map key. */
  datatype Event = Succeeded(id: string) | Failed(id: string, code: string) | Lifted(id: string)

  predicate IsCounted(e: Event, id: string) {
    e.Failed? && e.id == id && TriggerFor(e.code).Some?
  }

  // -------------------------------------------------- the history's own account

  /** Counted failures since the last success or lift. */
  function FailureRun(history: seq<Event>, id: string): nat {
    if history == [] then 0
    else
      var before, last := history[..|history| - 1], history[|history| - 1];
      if last.id != id then FailureRun(before, id)
      else if !last.Failed? then 0
      else if IsCounted(last, id) then FailureRun(before, id) + 1
      else FailureRun(before, id)
  }

  /** The event at `n` is a counted failure that is immediate or completes a long enough run. */
  predicate TripsAt(history: seq<Event>, n: nat, id: string, threshold: int)
    requires n < |history|
  {
    && IsCounted(history[n], id)
    && (IsImmediate(TriggerFor(history[n].code).value) || FailureRun(history[..n + 1], id) >= threshold)
  }

  predicate LiftedAfter(history: seq<Event>, n: nat, id: string) {
    exists m :: n < m < |history| && history[m] == Lifted(id)
  }

  /** Some event since the last lift trips the quarantine. */
  ghost predicate IsQuarantinedBy(history: seq<Event>, id: string, threshold: int) {
    exists n :: 0 <= n < |history| && TripsAt(history, n, id, threshold) && !LiftedAfter(history, n, id)
  }

  lemma RunAfter(history: seq<Event>, e: Event, id: string)
    ensures FailureRun(history + [e], id) ==
      if e.id != id then FailureRun(history, id)
      else if !e.Failed? then 0
      else if IsCounted(e, id) then FailureRun(history, id) + 1
      else FailureRun(history, id)
  {
    assert (history + [e])[..|history|] == history;
  }

  lemma TripsStay(history: seq<Event>, e: Event, n: nat, id: string, threshold: int)
    requires n < |history|
    ensures TripsAt(history + [e], n, id, threshold) <==> TripsAt(history, n, id, threshold)
    ensures LiftedAfter(history + [e], n, id) <==> LiftedAfter(history, n, id) || e == Lifted(id)
  {
    var more := history + [e];
    assert more[..n + 1] == history[..n + 1];
    if e == Lifted(id) {
      assert more[|history|] == Lifted(id);
    }
    if LiftedAfter(history, n, id) {
      var m :| n < m < |history| && history[m] == Lifted(id);
      assert more[m] == Lifted(id);
    }
    if LiftedAfter(more, n, id) && e != Lifted(id) {
      var m :| n < m < |more| && more[m] == Lifted(id);
      assert history[m] == Lifted(id);
    }
  }

  /** The effect of one event on whether a capability is quarantined. */
  lemma QuarantineAfter(history: seq<Event>, e: Event, id: string, threshold: int)
    ensures var more := history + [e];
      IsQuarantinedBy(more, id, threshold) <==>
        e != Lifted(id) && (IsQuarantinedBy(history, id, threshold) || TripsAt(more, |history|, id, threshold))
  {
    var more := history + [e];
    if IsQuarantinedBy(more, id, threshold) {
      var n :| 0 <= n < |more| && TripsAt(more, n, id, threshold) && !LiftedAfter(more, n, id);
      if n < |history| {
        TripsStay(history, e, n, id, threshold);
      }
    }
    if e != Lifted(id) && IsQuarantinedBy(history, id, threshold) {
      var n :| 0 <= n < |history| && TripsAt(history, n, id, threshold) && !LiftedAfter(history, n, id);
      TripsStay(history, e, n, id, threshold);
      assert TripsAt(more, n, id, threshold) && !LiftedAfter(more, n, id);
    }
    if e != Lifted(id) && TripsAt(more, |history|, id, threshold) {
      assert !LiftedAfter(more, |history|, id);
    }
  }

  /** Success never lifts a quarantine, and failures with other codes change nothing at all. */
  lemma OnlyLiftsLift(history: seq<Event>, e: Event, id: string, threshold: int)
    ensures e.Succeeded? ==>
      (IsQuarantinedBy(history + [e], id, threshold) <==> IsQuarantinedBy(history, id, threshold))
    ensures e.Failed? && TriggerFor(e.code).None? ==>
      && (IsQuarantinedBy(history + [e], id, threshold) <==> IsQuarantinedBy(history, id, threshold))
      && FailureRun(history + [e], id) == FailureRun(history, id)
    ensures e.Failed? && IsQuarantinedBy(history, id, threshold) ==> IsQuarantinedBy(history + [e], id, threshold)
  {
    QuarantineAfter(history, e, id, threshold);
    RunAfter(history, e, id);
  }

  /** An event concerns its own capability and no other. */
  lemma OthersUntouched(history: seq<Event>, e: Event, threshold: int)
    ensures forall id :: id != e.id ==> FailureRun(history + [e], id) == FailureRun(history, id)
    ensures forall id :: id != e.id ==>
      (IsQuarantinedBy(history + [e], id, threshold) <==> IsQuarantinedBy(history, id, threshold))
  {
    forall id | id != e.id
      ensures FailureRun(history + [e], id) == FailureRun(history, id)
      ensures IsQuarantinedBy(history + [e], id, threshold) <==> IsQuarantinedBy(history, id, threshold)
    {
      RunAfter(history, e, id);
      QuarantineAfter(history, e, id, threshold);
    }
  }

  lemma FailureEffect(history: seq<Event>, e: Event, threshold: int)
    requires e.Failed?
    ensures var run := FailureRun(history, e.id) + 1;
      var trips := TriggerFor(e.code).Some? && (IsImmediate(TriggerFor(e.code).value) || run >= threshold);
      && (TripsAt(history + [e], |history|, e.id, threshold) <==> trips)
      && FailureRun(history + [e], e.id) == (if TriggerFor(e.code).Some? then run else FailureRun(history, e.id))
      && (IsQuarantinedBy(history + [e], e.id, threshold) <==> IsQuarantinedBy(history, e.id, threshold) || trips)
  {
    RunAfter(history, e, e.id);
    QuarantineAfter(history, e, e.id, threshold);
    assert (history + [e])[..|history| + 1] == history + [e];
  }

  // ----------------------------------------------------------- results without a code

  /** The code under which a failed tool result without a code is recorded. */
  const NO_CODE := "external_failure"

  function FailedResult(id: string, code: Option<string>): Event {
    Failed(id, code.GetOr(NO_CODE))
  }

  /** A failed tool result is counted exactly when it has a code, and the code has a trigger. */
  lemma ResultCountsExactly(history: seq<Event>, id: string, code: Option<string>)
    ensures IsCounted(FailedResult(id, code), id) <==> code.Some? && TriggerFor(code.value).Some?
    ensures FailureRun(history + [FailedResult(id, code)], id) > FailureRun(history, id) <==>
      code.Some? && TriggerFor(code.value).Some?
  {
    RunAfter(history, FailedResult(id, code), id);
  }

  function UncodedFailures(id: string, n: nat): seq<Event> {
    if n == 0 then [] else UncodedFailures(id, n - 1) + [FailedResult(id, None)]
  }

  lemma UncodedFailureCountsNothing(history: seq<Event>, id: string, threshold: int)
    ensures var more := history + [FailedResult(id, None)];
      && FailureRun(more, id) == FailureRun(history, id)
      && (IsQuarantinedBy(more, id, threshold) <==> IsQuarantinedBy(history, id, threshold))
  {
    OnlyLiftsLift(history, FailedResult(id, None), id, threshold);
  }

  /** However often a capability fails without a code, that quarantines nothing and counts nothing. */
  lemma {:induction false} UncodedFailuresCountNothing(history: seq<Event>, id: string, n: nat, threshold: int)
    ensures var more := history + UncodedFailures(id, n);
      && FailureRun(more, id) == FailureRun(history, id)
      && (IsQuarantinedBy(more, id, threshold) <==> IsQuarantinedBy(history, id, threshold))
  {
    var more := history + UncodedFailures(id, n);
    if n == 0 {
      assert more == history;
    } else {
      var before := history + UncodedFailures(id, n - 1);
      UncodedFailuresCountNothing(history, id, n - 1, threshold);
      UncodedFailureCountsNothing(before, id, threshold);
      assert more == before + [FailedResult(id, None)];
    }
  }

  // ------------------------------------------------------------------- the object

  class ExternalMcpQuarantineState {
    const threshold: int
    var failures: map<string, nat>
    var quarantined: map<string, Record>
    ghost var history: seq<Event>

    function Count(id: string): nat
      reads this`failures
    {
      if id in failures then failures[id] else 0
    }

    /** The maps say what the history says, about every capability. */
    ghost predicate Valid()
      reads this
    {
      && (forall id :: Count(id) == FailureRun(history, id))
      && (forall id :: id in quarantined <==> IsQuarantinedBy(history, id, threshold))
    }

    constructor (repeatedFailureThreshold: Option<int>)
      ensures Valid() && history == [] && threshold == repeatedFailureThreshold.GetOr(2)
    {
      threshold := repeatedFailureThreshold.GetOr(2);
      failures, quarantined, history := map[], map[], [];
    }

    predicate IsQuarantined(key: Key)
      reads this`quarantined
    {
      KeyFor(key) in quarantined
    }

    function Get(key: Key): Option<Record>
      reads this`quarantined
    {
      if KeyFor(key) in quarantined then Some(quarantined[KeyFor(key)]) else None
    }

    /** `recordAdapterResult` and `recordToolCallResult` on a success. */
    method RecordSuccess(key: Key) returns (r: Option<Record>)
      requires Valid()
      modifies this
      ensures Valid() && history == old(history) + [Succeeded(KeyFor(key))]
      ensures quarantined == old(quarantined) && r == Get(key)
    {
      ghost var e := Succeeded(KeyFor(key));
      failures := failures - {KeyFor(key)};
      OthersUntouched(history, e, threshold);
      RunAfter(history, e, e.id);
      QuarantineAfter(history, e, e.id, threshold);
      history := history + [e];
      r := Get(key);
    }

    /** A failed tool result; one without a code changes neither map. */
    method RecordToolCallFailure(key: Key, code: Option<string>) returns (r: Option<Record>)
      requires Valid()
      modifies this
      ensures Valid() && r == Get(key)
      ensures history == old(history) + [Failed(KeyFor(key), code.GetOr(NO_CODE))]
      ensures code.None? ==> failures == old(failures) && quarantined == old(quarantined)
    {
      r := RecordErrorCode(key, code.GetOr(NO_CODE));
    }

    method RecordErrorCode(key: Key, code: string) returns (r: Option<Record>)
      requires Valid()
      modifies this
      ensures Valid() && history == old(history) + [Failed(KeyFor(key), code)]
      ensures r == Get(key)
      ensures TripsAt(history, |old(history)|, KeyFor(key), threshold) ==>
        quarantined == old(quarantined)[KeyFor(key) := Record(key, TriggerFor(code).value, FailureRun(history, KeyFor(key)))]
      ensures !TripsAt(history, |old(history)|, KeyFor(key), threshold) ==> quarantined == old(quarantined)
      ensures TriggerFor(code).None? ==> failures == old(failures) && quarantined == old(quarantined)
    {
      var id := KeyFor(key);
      ghost var e := Failed(id, code);
      FailureEffect(history, e, threshold);
      OthersUntouched(history, e, threshold);
      history := history + [e];
      var trigger := TriggerFor(code);
      if trigger.None? {
        return Get(key);
      }
      var nextCount := Count(id) + 1;
      failures := failures[id := nextCount];
      if trigger.value.OutputInvalid? || trigger.value.VersionMismatch? || nextCount >= threshold {
        quarantined := quarantined[id := Record(key, trigger.value, nextCount)];
      }
      r := Get(key);
    }

    method Lift(key: Key) returns (was: bool)
      requires Valid()
      modifies this
      ensures Valid() && history == old(history) + [Lifted(KeyFor(key))]
      ensures was == old(IsQuarantined(key)) && !IsQuarantined(key)
    {
      var id := KeyFor(key);
      ghost var e := Lifted(id);
      OthersUntouched(history, e, threshold);
      RunAfter(history, e, id);
      QuarantineAfter(history, e, id, threshold);
      was := id in quarantined;
      failures := failures - {id};
      quarantined := quarantined - {id};
      history := history + [e];
    }

    /** Lifts the old version's quarantine and names the next version. */
    method RePin(key: Key, nextVersion: string) returns (next: Key)
      requires Valid()
      modifies this
      ensures Valid() && history == old(history) + [Lifted(KeyFor(key))]
      ensures !IsQuarantined(key) && next == key.(version := nextVersion)
    {
      var _ := Lift(key);
      assert FailureRun(history, KeyFor(key)) == 0 by {
        RunAfter(old(history), Lifted(KeyFor(key)), KeyFor(key));
      }
      failures := failures - {KeyFor(key)};
      next := Key(key.serverId, key.toolName, nextVersion);
    }
  }

  // ------------------------------------------------------------ keys do not mix

  predicate NulFree(key: Key) {
    NUL !in key.serverId && NUL !in key.toolName
  }

  /** Keys whose server and tool ids have no NUL character never share a map key. */
  lemma KeysDoNotMix(k: Key, l: Key)
    requires NulFree(k) && NulFree(l)
    ensures KeyFor(k) == KeyFor(l) <==> k == l
  {
    if KeyFor(k) == KeyFor(l) {
      var x, y := k.toolName + [NUL] + k.version, l.toolName + [NUL] + l.version;
      assert KeyFor(k) == k.serverId + [NUL] + x && KeyFor(l) == l.serverId + [NUL] + y;
      FirstSeparator(NUL, k.serverId, x, l.serverId, y);
      FirstSeparator(NUL, k.toolName, k.version, l.toolName, l.version);
    }
  }

  /** Another capability has the same map key. */
  ghost predicate IsShared(key: Key) {
    exists other :: other != key && KeyFor(other) == KeyFor(key)
  }

  /** A capability shares its map key with another exactly when one of its three parts has a NUL character. */
  lemma IsSharedExactly(key: Key)
    ensures IsShared(key) <==> NUL in key.serverId || NUL in key.toolName || NUL in key.version
  {
    SharedExactly(NUL, key.serverId, key.toolName, key.version);
    if JoinIsShared(NUL, key.serverId, key.toolName, key.version) {
      var x, y, z :| (x != key.serverId || y != key.toolName || z != key.version) && Join(NUL, x, y, z) == KeyFor(key);
      assert KeyFor(Key(x, y, z)) == KeyFor(key) && Key(x, y, z) != key;
    }
  }

  /** With a NUL character in an id, two capabilities can share one. */
  lemma NulKeysCanMix()
    ensures exists k, l :: k != l && KeyFor(k) == KeyFor(l)
  {
    var k, l := Key("a" + [NUL] + "b", "c", "v"), Key("a", "b" + [NUL] + "c", "v");
    assert KeyFor(k) == KeyFor(l);
    assert k.serverId != l.serverId;
  }

  // -------------------------------------------------------------- the adapter

  /** What a call would meet on its way, apart from the quarantine. */
  datatype Attempt = Attempt(
    manifestError: Option<string>, argsValid: bool, relaysCredential: bool, reply: Reply)

  datatype Reply = TimedOut | Broken | Replied(version: string, bytes: nat, outputValid: bool)

  datatype AdapterResult = Success | Failure(code: string)

  /** The result of a call that is not quarantined, and whether the transport is used. */
  function Outcome(version: string, maxBytes: Option<nat>, a: Attempt): (AdapterResult, bool) {
    if a.manifestError.Some? then (Failure(a.manifestError.value), false)
    else if !a.argsValid then (Failure("invalid_request"), false)
    else if a.relaysCredential then (Failure("client_token_relay_denied"), false)
    else match a.reply
      case TimedOut => (Failure("external_timeout"), true)
      case Broken => (Failure("external_transport_error"), true)
      case Replied(v, bytes, outputValid) =>
        if v != version then (Failure("external_version_mismatch"), true)
        else if maxBytes.Some? && bytes > maxBytes.value then (Failure("external_max_bytes_exceeded"), true)
        else if !outputValid then (Failure("output_invalid"), true)
        else (Success, true)
  }

  function ResultEvent(id: string, r: AdapterResult): Event {
    match r
    case Success => Succeeded(id)
    case Failure(code) => Failed(id, code)
  }

  /** `execute`: the result, whether the transport was called, and the new history. */
  ghost function Executed(history: seq<Event>, threshold: int, key: Key, maxBytes: Option<nat>, a: Attempt)
    : (AdapterResult, bool, seq<Event>)
  {
    if IsQuarantinedBy(history, KeyFor(key), threshold) then (Failure("external_quarantined"), false, history)
    else
      var (r, called) := Outcome(key.version, maxBytes, a);
      (r, called, if called then history + [ResultEvent(KeyFor(key), r)] else history)
  }

  /** A quarantined key makes no transport call; every transport call is recorded once. */
  method Execute(q: ExternalMcpQuarantineState, key: Key, maxBytes: Option<nat>, a: Attempt)
    returns (r: AdapterResult, called: bool)
    requires q.Valid()
    modifies q
    ensures q.Valid()
    ensures (r, called, q.history) == Executed(old(q.history), q.threshold, key, maxBytes, a)
  {
    called := false;
    if q.IsQuarantined(key) {
      return Failure("external_quarantined"), false;
    }
    if a.manifestError.Some? {
      return Failure(a.manifestError.value), false;
    }
    if !a.argsValid {
      return Failure("invalid_request"), false;
    }
    if a.relaysCredential {
      return Failure("client_token_relay_denied"), false;
    }
    called := true;
    match a.reply
    case TimedOut =>
      r := Failure("external_timeout");
      var _ := q.RecordErrorCode(key, "external_timeout");
    case Broken =>
      r := Failure("external_transport_error");
      var _ := q.RecordErrorCode(key, "external_transport_error");
    case Replied(version, bytes, outputValid) =>
      if version != key.version {
        r := Failure("external_version_mismatch");
        var _ := q.RecordErrorCode(key, "external_version_mismatch");
      } else if maxBytes.Some? && bytes > maxBytes.value {
        r := Failure("external_max_bytes_exceeded");
        var _ := q.RecordErrorCode(key, "external_max_bytes_exceeded");
      } else if !outputValid {
        r := Failure("output_invalid");
        var _ := q.RecordErrorCode(key, "output_invalid");
      } else {
        r := Success;
        var _ := q.RecordSuccess(key);
      }
  }

  // ------------------------------------------------------------------ whole runs

  /** The number of transport calls in a run of attempts on one key. */
  ghost function Calls(history: seq<Event>, threshold: int, key: Key, maxBytes: Option<nat>, attempts: seq<Attempt>): nat
    decreases |attempts|
  {
    if attempts == [] then 0
    else
      var (r, called, history') := Executed(history, threshold, key, maxBytes, attempts[0]);
      (if called then 1 else 0) + Calls(history', threshold, key, maxBytes, attempts[1..])
  }

  lemma {:induction false} QuarantinedRunMakesNoCalls(
    history: seq<Event>, threshold: int, key: Key, maxBytes: Option<nat>, attempts: seq<Attempt>)
    requires IsQuarantinedBy(history, KeyFor(key), threshold)
    ensures Calls(history, threshold, key, maxBytes, attempts) == 0
    decreases |attempts|
  {
    if attempts != [] {
      QuarantinedRunMakesNoCalls(history, threshold, key, maxBytes, attempts[1..]);
    }
  }

  /** The attempt, if it reaches the transport, ends in a counted failure. */
  predicate FailsCounted(version: string, maxBytes: Option<nat>, a: Attempt) {
    var (r, called) := Outcome(version, maxBytes, a);
    called ==> r.Failure? && TriggerFor(r.code).Some?
  }

  function Max(a: int, b: int): int {
    if a > b then a else b
  }

  /**
   A server that fails every call it is given, in counted ways, is called at most as
   many times as the threshold still allows, however many attempts are made.
   */
  lemma {:induction false} FailingServerIsCalledBoundedly(
    history: seq<Event>, threshold: int, key: Key, maxBytes: Option<nat>, attempts: seq<Attempt>)
    requires forall i :: 0 <= i < |attempts| ==> FailsCounted(key.version, maxBytes, attempts[i])
    ensures Calls(history, threshold, key, maxBytes, attempts)
         <= Max(1, threshold - FailureRun(history, KeyFor(key)))
    decreases |attempts|
  {
    var id := KeyFor(key);
    if IsQuarantinedBy(history, id, threshold) {
      QuarantinedRunMakesNoCalls(history, threshold, key, maxBytes, attempts);
    } else if attempts != [] {
      var (r, called, history') := Executed(history, threshold, key, maxBytes, attempts[0]);
      if called {
        var e := ResultEvent(id, r);
        RunAfter(history, e, id);
        QuarantineAfter(history, e, id, threshold);
        assert history'[..|history| + 1] == history';
        if IsQuarantinedBy(history', id, threshold) {
          QuarantinedRunMakesNoCalls(history', threshold, key, maxBytes, attempts[1..]);
        } else {
          FailingServerIsCalledBoundedly(history', threshold, key, maxBytes, attempts[1..]);
        }
      } else {
        FailingServerIsCalledBoundedly(history, threshold, key, maxBytes, attempts[1..]);
      }
    }
  }
}
