/** The data update coordinator (custom_components/xtherma_fp/coordinator.py):
    it polls the client, masks keys with a recent successful write, maps client
    errors to translation keys, and serves `read_value`.

    Time is a parameter `now` in whole seconds. The outcome of a client call is
    a parameter too: `Result<map, ClientError>` for `async_get_data`, and
    `Outcome<ClientError>` for `async_put_data`. */
module Coordinator {
  import opened Wrappers
  import opened Numerals
  import opened ClientCommon

  /** `_WRITE_SETTLE_TIME_S`: how long, in seconds, reads of a written key stay masked. */
  const WriteSettleTimeS: int := 30

  /** `_PendingWrite`. */
  datatype PendingWrite = PendingWrite(value: real, blockedUntil: int)

  /** An `UpdateFailed` or `HomeAssistantError`: a translation key and its placeholders. */
  datatype Failure = Failure(translationKey: string, placeholders: map<string, string>)

  /** How `async_write` fails: a translated `HomeAssistantError`, or the client's
      own exception let through unchanged. */
  datatype WriteError = Translated(failure: Failure) | Propagated(error: ClientError)

  // Error mapping.

  /** The `except` chain of `_async_update_data`. */
  function ReadFailure(e: ClientError): (f: Failure)
    ensures f.translationKey == "modbus_read_busy_error" <==> e.ModbusBusy?
    ensures f.translationKey == "rest_read_busy_error" <==> e.RestBusy?
    ensures f.translationKey == "timeout_error" <==> e.Timeout?
    ensures f.translationKey == "not_connected_error" <==> e.NotConnected?
    ensures f.translationKey == "rest_api_error" <==> e.RestApi?
    ensures f.translationKey == "modbus_read_error" <==> e.Modbus?
    ensures f.translationKey == "modbus_data_empty_error" <==> e.ModbusEmptyData?
    ensures f.translationKey == "general_error" <==> e.General? || e.ReadOnly? || e.Unclassified?
    ensures "error" in f.placeholders <==> e.RestApi? || e.Modbus? || e.General? || e.ReadOnly? || e.Unclassified?
    ensures f.placeholders.Keys <= {"error"}
    ensures e.RestApi? ==> f.placeholders["error"] == IntToDecimal(e.code)
    ensures !e.RestApi? && "error" in f.placeholders ==> f.placeholders["error"] == e.Message()
  {
    match e
    case ModbusBusy => Failure("modbus_read_busy_error", map[])
    case RestBusy => Failure("rest_read_busy_error", map[])
    case Timeout => Failure("timeout_error", map[])
    case NotConnected => Failure("not_connected_error", map[])
    case RestApi(code) => Failure("rest_api_error", map["error" := IntToDecimal(code)])
    case Modbus => Failure("modbus_read_error", map["error" := e.Message()])
    case ModbusEmptyData => Failure("modbus_data_empty_error", map[])
    case _ => Failure("general_error", map["error" := e.Message()])
  }

  /** The `except` chain of `async_write`. */
  function WriteFailure(e: ClientError, entityId: string): (w: WriteError)
    ensures w.Propagated? <==> !(e.ReadOnly? || e.ModbusBusy? || e.Modbus?)
    ensures w.Propagated? ==> w.error == e
    ensures w.Translated? ==> "entity_id" in w.failure.placeholders
                              && w.failure.placeholders["entity_id"] == entityId
    ensures w.Translated? ==> (w.failure.translationKey == "rest_read_only_error" <==> e.ReadOnly?)
    ensures w.Translated? ==> (w.failure.translationKey == "modbus_write_busy_error" <==> e.ModbusBusy?)
    ensures w.Translated? ==> (w.failure.translationKey == "modbus_write_error" <==> e.Modbus?)
    ensures w.Translated? ==> w.failure.placeholders.Keys == if e.Modbus? then {"error", "entity_id"} else {"entity_id"}
    ensures e.Modbus? ==> w.failure.placeholders["error"] == e.Message()
  {
    match e
    case ReadOnly => Translated(Failure("rest_read_only_error", map["entity_id" := entityId]))
    case ModbusBusy => Translated(Failure("modbus_write_busy_error", map["entity_id" := entityId]))
    case Modbus => Translated(Failure("modbus_write_error", map["error" := e.Message(), "entity_id" := entityId]))
    case _ => Propagated(e)
  }

  /** What `async_write` returns or raises for a given client write outcome. */
  function WriteOutcome(put: Outcome<ClientError>, entityId: string): Outcome<WriteError> {
    if put.Pass? then Pass else Fail(WriteFailure(put.error, entityId))
  }

  // The write-mask table.

  /** A read of `key` at `now` is masked: an entry exists and has not expired. */
  predicate Blocked(pending: map<string, PendingWrite>, key: string, now: int) {
    key in pending && now <= pending[key].blockedUntil
  }

  /** The fetched values with each masked key showing its pending value. */
  function Overlay(fetched: map<string, real>, pending: map<string, PendingWrite>, now: int): map<string, real> {
    map k | k in fetched :: if Blocked(pending, k, now) then pending[k].value else fetched[k]
  }

  /** The table after the keys in `looked` were looked up at `now`: each expired
      entry among them is gone. */
  function Expire(pending: map<string, PendingWrite>, looked: set<string>, now: int): map<string, PendingWrite> {
    map k | k in pending && !(k in looked && now > pending[k].blockedUntil) :: pending[k]
  }

  /** The state the coordinator keeps between calls: the write-mask table, the
      last published snapshot (`data`), and `last_update_success`. */
  datatype CoordinatorState = CoordinatorState(
    pendingWrites: map<string, PendingWrite>,
    data: Option<map<string, real>>,
    lastUpdateSuccess: bool)
  {
    /** `read_value`. */
    function ReadValue(key: string): (r: Option<real>)
      ensures r.Some? <==> data.Some? && lastUpdateSuccess && key in data.value
      ensures r.Some? ==> r.value == data.value[key]
    {
      if data.None? then None
      else if !lastUpdateSuccess then None
      else if key in data.value then Some(data.value[key])
      else None
    }
  }

  /** What `_async_update_data` returns or raises. */
  function UpdateResult(pending: map<string, PendingWrite>, now: int, fetched: Result<map<string, real>, ClientError>)
    : Result<map<string, real>, Failure>
  {
    if fetched.Ok? then Ok(Overlay(fetched.value, pending, now)) else Err(ReadFailure(fetched.error))
  }

  /** The table after `_async_update_data`. */
  function PendingAfterUpdate(pending: map<string, PendingWrite>, now: int, fetched: Result<map<string, real>, ClientError>)
    : map<string, PendingWrite>
  {
    if fetched.Ok? then Expire(pending, fetched.value.Keys, now) else pending
  }

  /** One refresh cycle: `_async_update_data` plus the snapshot and success flag
      the update framework records from its result. */
  function AfterPoll(s: CoordinatorState, now: int, fetched: Result<map<string, real>, ClientError>): CoordinatorState {
    var result := UpdateResult(s.pendingWrites, now, fetched);
    CoordinatorState(
      PendingAfterUpdate(s.pendingWrites, now, fetched),
      if result.Ok? then Some(result.value) else s.data,
      result.Ok?)
  }

  /** One `async_write` of `value` to `key` at `now`, given the client's outcome. */
  function AfterWrite(s: CoordinatorState, now: int, key: string, value: real, put: Outcome<ClientError>): CoordinatorState {
    if put.Pass? then s.(pendingWrites := s.pendingWrites[key := PendingWrite(value, now + WriteSettleTimeS)])
    else s
  }

  /** One poll: when it ran and what the client returned. */
  datatype Fetch = Fetch(now: int, outcome: Result<map<string, real>, ClientError>)

  /** A sequence of polls with no write in between. */
  function RunPolls(s: CoordinatorState, polls: seq<Fetch>): CoordinatorState
    decreases |polls|
  {
    if polls == [] then s else RunPolls(AfterPoll(s, polls[0].now, polls[0].outcome), polls[1..])
  }

  /** The last poll of a non-empty sequence succeeded and fetched `key`. */
  predicate LastFetched(polls: seq<Fetch>, key: string) {
    polls != [] && polls[|polls| - 1].outcome.Ok? && key in polls[|polls| - 1].outcome.value
  }

  class XthermaDataUpdateCoordinator {
    const updateInterval: nat
    var pendingWrites: map<string, PendingWrite>
    var data: Option<map<string, real>>
    var lastUpdateSuccess: bool

    /** The update framework starts with no data and `last_update_success` set. */
    constructor(client: ClientInfo)
      ensures updateInterval == client.updateInterval
      ensures pendingWrites == map[] && data == None && lastUpdateSuccess
    {
      updateInterval := client.updateInterval;
      pendingWrites := map[];
      data := None;
      lastUpdateSuccess := true;
    }

    function State(): CoordinatorState
      reads this
    {
      CoordinatorState(pendingWrites, data, lastUpdateSuccess)
    }

    /** `read_value`. */
    function ReadValue(key: string): Option<real>
      reads this
    {
      State().ReadValue(key)
    }

    /** `_block_for`. */
    method BlockFor(key: string, seconds: int, value: real, now: int)
      modifies this`pendingWrites
      ensures pendingWrites == old(pendingWrites)[key := PendingWrite(value, now + seconds)]
    {
      pendingWrites := pendingWrites[key := PendingWrite(value, now + seconds)];
    }

    /** `_is_blocked`: the pending value of an unexpired entry; an expired entry is removed. */
    method IsBlocked(key: string, now: int) returns (v: Option<real>)
      modifies this`pendingWrites
      ensures v == if Blocked(old(pendingWrites), key, now) then Some(old(pendingWrites)[key].value) else None
      ensures pendingWrites == Expire(old(pendingWrites), {key}, now)
    {
      if pendingWrites == map[] {
        return None;
      }
      if key !in pendingWrites {
        return None;
      }
      var pending := pendingWrites[key];
      if now > pending.blockedUntil {
        pendingWrites := pendingWrites - {key};
        return None;
      }
      return Some(pending.value);
    }

    /** `_async_update_data`. */
    method UpdateData(now: int, fetched: Result<map<string, real>, ClientError>) returns (r: Result<map<string, real>, Failure>)
      modifies this`pendingWrites
      ensures r == UpdateResult(old(pendingWrites), now, fetched)
      ensures pendingWrites == PendingAfterUpdate(old(pendingWrites), now, fetched)
    {
      if fetched.Err? {
        return Err(ReadFailure(fetched.error));
      }
      var clientData := fetched.value;
      var result: map<string, real> := map[];
      var remaining := clientData.Keys;
      while remaining != {}
        invariant remaining <= clientData.Keys
        invariant result.Keys == clientData.Keys - remaining
        invariant forall k :: k in result ==>
                    result[k] == if Blocked(old(pendingWrites), k, now) then old(pendingWrites)[k].value else clientData[k]
        invariant pendingWrites == Expire(old(pendingWrites), clientData.Keys - remaining, now)
        decreases remaining
      {
        var key :| key in remaining;
        ghost var before := pendingWrites;
        var pendingWrite := IsBlocked(key, now);
        if pendingWrite.Some? {
          result := result[key := pendingWrite.value];
        } else {
          result := result[key := clientData[key]];
        }
        remaining := remaining - {key};
        assert Expire(before, {key}, now) == Expire(old(pendingWrites), clientData.Keys - remaining, now);
      }
      assert result == Overlay(clientData, old(pendingWrites), now);
      return Ok(result);
    }

    /** One refresh by the update framework: on success the result becomes the
        published snapshot; either way `last_update_success` records the outcome. */
    method Refresh(now: int, fetched: Result<map<string, real>, ClientError>) returns (r: Outcome<Failure>)
      modifies this
      ensures State() == AfterPoll(old(State()), now, fetched)
      ensures r == if fetched.Ok? then Pass else Fail(ReadFailure(fetched.error))
    {
      var outcome := UpdateData(now, fetched);
      match outcome
      case Ok(result) =>
        data := Some(result);
        lastUpdateSuccess := true;
        r := Pass;
      case Err(failure) =>
        lastUpdateSuccess := false;
        r := Fail(failure);
    }

    /** `async_write`: the key is masked only after the client write has succeeded. */
    method AsyncWrite(entityId: string, desc: EntityDescription, value: real, now: int, put: Outcome<ClientError>)
      returns (r: Outcome<WriteError>)
      modifies this`pendingWrites
      ensures r == WriteOutcome(put, entityId)
      ensures State() == AfterWrite(old(State()), now, desc.key, value, put)
    {
      if put.Fail? {
        return Fail(WriteFailure(put.error, entityId));
      }
      BlockFor(desc.key, WriteSettleTimeS, value, now);
      return Pass;
    }
  }

  // Properties of the pure model.

  /** A successful poll publishes exactly the fetched keys: the pending value where
      a write is unexpired, the fetched value elsewhere. */
  lemma LemmaPollPublishes(s: CoordinatorState, now: int, fetched: map<string, real>)
    ensures var s' := AfterPoll(s, now, Ok(fetched));
            s'.data.Some? && s'.data.value.Keys == fetched.Keys && s'.lastUpdateSuccess
            && forall k :: k in fetched ==>
                 s'.ReadValue(k) == Some(if Blocked(s.pendingWrites, k, now) then s.pendingWrites[k].value else fetched[k])
  {
  }

  /** A poll removes only expired entries of fetched keys, and changes no entry. */
  lemma LemmaPollExpiresLazily(s: CoordinatorState, now: int, fetched: Result<map<string, real>, ClientError>, key: string)
    ensures var p := AfterPoll(s, now, fetched).pendingWrites;
            p.Keys <= s.pendingWrites.Keys
            && (key in p ==> p[key] == s.pendingWrites[key])
            && (key in s.pendingWrites && key !in p <==>
                  key in s.pendingWrites && fetched.Ok? && key in fetched.value && now > s.pendingWrites[key].blockedUntil)
  {
  }

  /** A failed poll keeps the table and the last snapshot, and `read_value` then answers `None`. */
  lemma LemmaFailedPoll(s: CoordinatorState, now: int, e: ClientError, key: string)
    ensures var s' := AfterPoll(s, now, Err(e));
            s'.pendingWrites == s.pendingWrites && s'.data == s.data && s'.ReadValue(key).None?
  {
  }

  /** A successful write masks the key for 30 seconds with the written value; a
      failed write changes nothing. */
  lemma LemmaWriteMasks(s: CoordinatorState, now: int, key: string, value: real, put: Outcome<ClientError>)
    ensures put.Pass? ==> AfterWrite(s, now, key, value, put).pendingWrites
                            == s.pendingWrites[key := PendingWrite(value, now + 30)]
    ensures put.Fail? ==> AfterWrite(s, now, key, value, put) == s
    ensures AfterWrite(s, now, key, value, put).data == s.data
  {
  }

  /** A poll that cannot expire an entry valid until `until`: it runs no later
      than that, or it does not fetch the key. */
  predicate SparesEntry(poll: Fetch, key: string, until: int) {
    poll.now <= until || !(poll.outcome.Ok? && key in poll.outcome.value)
  }

  /** One such poll keeps the entry, and publishes its value if it fetched the key. */
  lemma LemmaPollSparesEntry(s: CoordinatorState, key: string, poll: Fetch)
    requires key in s.pendingWrites && SparesEntry(poll, key, s.pendingWrites[key].blockedUntil)
    ensures var s' := AfterPoll(s, poll.now, poll.outcome);
            key in s'.pendingWrites && s'.pendingWrites[key] == s.pendingWrites[key]
            && (poll.outcome.Ok? && key in poll.outcome.value ==> s'.ReadValue(key) == Some(s.pendingWrites[key].value))
  {
  }

  /** Polls that either run no later than an entry's expiry or do not fetch its
      key keep that entry, and every one of them that fetches the key publishes
      the pending value. */
  lemma {:induction false} LemmaMaskedUntilExpiry(s: CoordinatorState, key: string, polls: seq<Fetch>)
    requires key in s.pendingWrites
    requires forall i :: 0 <= i < |polls| ==> SparesEntry(polls[i], key, s.pendingWrites[key].blockedUntil)
    ensures key in RunPolls(s, polls).pendingWrites
    ensures RunPolls(s, polls).pendingWrites[key] == s.pendingWrites[key]
    ensures LastFetched(polls, key) ==> RunPolls(s, polls).ReadValue(key) == Some(s.pendingWrites[key].value)
    decreases |polls|
  {
    if polls != [] {
      var s1 := AfterPoll(s, polls[0].now, polls[0].outcome);
      LemmaPollSparesEntry(s, key, polls[0]);
      var rest := polls[1..];
      assert forall i :: 0 <= i < |rest| ==> rest[i] == polls[i + 1];
      LemmaMaskedUntilExpiry(s1, key, rest);
      if rest != [] {
        assert rest[|rest| - 1] == polls[|polls| - 1];
      }
    }
  }

  /** One poll never adds an entry, and publishes what it fetched for a key without one. */
  lemma LemmaPollWithoutEntry(s: CoordinatorState, key: string, poll: Fetch)
    requires key !in s.pendingWrites
    ensures var s' := AfterPoll(s, poll.now, poll.outcome);
            key !in s'.pendingWrites
            && (poll.outcome.Ok? && key in poll.outcome.value ==> s'.ReadValue(key) == Some(poll.outcome.value[key]))
  {
  }

  /** Without an entry, polls never add one, and each poll that fetches the key
      publishes what it fetched. */
  lemma {:induction false} LemmaUnmaskedStaysFresh(s: CoordinatorState, key: string, polls: seq<Fetch>)
    requires key !in s.pendingWrites
    ensures key !in RunPolls(s, polls).pendingWrites
    ensures LastFetched(polls, key) ==>
              RunPolls(s, polls).ReadValue(key) == Some(polls[|polls| - 1].outcome.value[key])
    decreases |polls|
  {
    if polls != [] {
      var s1 := AfterPoll(s, polls[0].now, polls[0].outcome);
      LemmaPollWithoutEntry(s, key, polls[0]);
      var rest := polls[1..];
      LemmaUnmaskedStaysFresh(s1, key, rest);
      if rest != [] {
        assert rest[|rest| - 1] == polls[|polls| - 1];
      }
    }
  }

  /** The settle window: after a successful write of `value` at `t0`, every poll
      run no later than `t0 + 30` that fetches the key publishes `value`, whatever
      the device reports. Polls after `t0 + 30` that fail or do not fetch the key
      leave the entry in place; the first poll after `t0 + 30` that fetches the
      key drops it, and from then on the fetched values are published. */
  lemma LemmaSettleWindow(s: CoordinatorState, t0: int, key: string, value: real,
                          masked: seq<Fetch>, expiry: Fetch, later: seq<Fetch>)
    requires forall i :: 0 <= i < |masked| ==> SparesEntry(masked[i], key, t0 + WriteSettleTimeS)
    requires expiry.now > t0 + WriteSettleTimeS && expiry.outcome.Ok? && key in expiry.outcome.value
    ensures var w := AfterWrite(s, t0, key, value, Pass);
            key in RunPolls(w, masked).pendingWrites
            && RunPolls(w, masked).pendingWrites[key] == PendingWrite(value, t0 + WriteSettleTimeS)
            && (LastFetched(masked, key) ==> RunPolls(w, masked).ReadValue(key) == Some(value))
            && RunPolls(w, masked + [expiry]).ReadValue(key) == Some(expiry.outcome.value[key])
            && key !in RunPolls(w, masked + [expiry]).pendingWrites
            && (LastFetched(later, key) ==>
                  RunPolls(w, masked + [expiry] + later).ReadValue(key) == Some(later[|later| - 1].outcome.value[key]))
  {
    var w := AfterWrite(s, t0, key, value, Pass);
    LemmaMaskedUntilExpiry(w, key, masked);
    var m := RunPolls(w, masked);
    LemmaRunPollsAppend(w, masked, [expiry]);
    assert RunPolls(m, [expiry]) == AfterPoll(m, expiry.now, expiry.outcome);
    var e := RunPolls(w, masked + [expiry]);
    LemmaUnmaskedStaysFresh(e, key, later);
    LemmaRunPollsAppend(w, masked + [expiry], later);
  }

  lemma {:induction false} LemmaRunPollsAppend(s: CoordinatorState, a: seq<Fetch>, b: seq<Fetch>)
    ensures RunPolls(s, a + b) == RunPolls(RunPolls(s, a), b)
    decreases |a|
  {
    if a != [] {
      assert (a + b)[0] == a[0] && (a + b)[1..] == a[1..] + b;
      LemmaRunPollsAppend(AfterPoll(s, a[0].now, a[0].outcome), a[1..], b);
    } else {
      assert a + b == b;
    }
  }

  /** The protocol error code survives as text: `str(err.code)` parses back to the code. */
  lemma LemmaRestApiCodeReadable(code: int)
    ensures ParseInt(ReadFailure(RestApi(code)).placeholders["error"]) == Some(code)
  {
    LemmaParseIntToDecimal(code);
  }

  /** The REST client cannot write: every write through it fails with
      `rest_read_only_error` for the entity and leaves the state unchanged. */
  lemma LemmaReadOnlyWriteChangesNothing(s: CoordinatorState, now: int, key: string, value: real, entityId: string)
    ensures AfterWrite(s, now, key, value, Fail(ReadOnly)) == s
    ensures WriteOutcome(Fail(ReadOnly), entityId)
            == Fail(Translated(Failure("rest_read_only_error", map["entity_id" := entityId])))
  {
  }

  /** Write 0 to a key; a poll at once that fetches 1 still publishes 0, and a poll
      31 seconds later publishes 1. */
  method SettleScenario(client: ClientInfo, desc: EntityDescription, t0: int)
    returns (soon: Option<real>, later: Option<real>)
    ensures soon == Some(0.0) && later == Some(1.0)
  {
    var coordinator := new XthermaDataUpdateCoordinator(client);
    var written := coordinator.AsyncWrite("number.entity", desc, 0.0, t0, Pass);
    var polled := coordinator.Refresh(t0, Ok(map[desc.key := 1.0]));
    soon := coordinator.ReadValue(desc.key);
    polled := coordinator.Refresh(t0 + 31, Ok(map[desc.key := 1.0]));
    later := coordinator.ReadValue(desc.key);
  }
}
