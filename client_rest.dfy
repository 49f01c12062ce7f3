/** The Fernportal REST client (custom_components/xtherma_fp/xtherma_client_rest.py):
    turning the decoded response into a key/value map, classifying failures, and
    refusing every write. */
module ClientRest {
  import opened Wrappers
  import opened Numerals
  import opened ClientCommon

  /** A decoded JSON `value` field: a finite number (JSON booleans count as 0
      and 1), a number the decoder turns into an infinite or not-a-number float
      (`1e999`, `Infinity`, `NaN`), a string, or an array or object. */
  datatype RawValue = RawNumber(n: real) | RawNonFinite | RawText(s: string) | RawCompound

  /** One element of the `telemetry` or `settings` list. A JSON object becomes
      an `Entry` whose fields are `None` when absent or `null`; anything else
      is a `NonObject`, on which `entry.get` raises. */
  datatype Item =
    | Entry(key: Option<string>, value: Option<RawValue>, inputFactor: Option<string>)
    | NonObject

  /** The decoded response body. A list field is `None` when it is absent or
      not a JSON array. */
  datatype Body =
    | JsonObject(telemetry: Option<seq<Item>>, settings: Option<seq<Item>>)
    | NonObjectBody

  /** How one GET request ends: a decoded body, an `aiohttp.ClientResponseError`
      carrying an HTTP status, an `asyncio` timeout, or any other exception. */
  datatype HttpOutcome =
    | Response(body: Body)
    | ResponseError(status: int)
    | TimedOut
    | OtherException

  /** The REST client. `rateLimitS` and `entityDescriptions` are the values of
      `FERNPORTAL_RATE_LIMIT_S` and `ENTITY_DESCRIPTIONS`. */
  datatype XthermaClientRest = XthermaClientRest(rateLimitS: nat, entityDescriptions: seq<EntityDescription>)
  {
    /** `update_interval`: the rate limit of the portal, whatever the state. */
    function UpdateInterval(): (r: nat)
      ensures r == rateLimitS
    {
      rateLimitS
    }

    /** `get_entity_descriptions`: the fixed descriptor list. */
    function GetEntityDescriptions(): (r: seq<EntityDescription>)
      ensures r == entityDescriptions
    {
      entityDescriptions
    }

    /** `async_put_data`: the REST API cannot write, whatever is asked. */
    function AsyncPutData(value: real, desc: EntityDescription): (r: Outcome<ClientError>)
      ensures r.Fail? && r.error == ReadOnly
    {
      Fail(ReadOnly)
    }

    function Info(): (info: ClientInfo)
      ensures info.updateInterval == UpdateInterval()
      ensures info.entityDescriptions == GetEntityDescriptions()
    {
      ClientInfo(rateLimitS, entityDescriptions)
    }
  }

  /** `int(raw_value)`; `None` where Python raises. A finite number is truncated
      toward zero and never raises; an infinite or not-a-number float, an array
      and an object always raise. */
  function RawToInt(raw: RawValue): (r: Option<int>)
    ensures raw.RawNumber? ==> r == Some(Trunc(raw.n))
    ensures raw.RawNonFinite? ==> r.None?
    ensures raw.RawCompound? ==> r.None?
  {
    match raw
    case RawNumber(n) => Some(Trunc(n))
    case RawNonFinite => None
    case RawText(s) => ParseInt(s)
    case RawCompound => None
  }

  /** An entry that has both a key and a value. */
  predicate Usable(item: Item) {
    item.Entry? && item.key.Some? && item.value.Some?
  }

  /** An element on which the loop raises: not an object, or a value `int()` rejects. */
  predicate Malformed(item: Item) {
    item.NonObject? || (Usable(item) && RawToInt(item.value.value).None?)
  }

  /** The number stored for a usable entry: the integer, scaled when a factor is given. */
  function EntryValue(item: Item): real
    requires Usable(item) && !Malformed(item)
  {
    var value := RawToInt(item.value.value).value;
    if item.inputFactor.Some? then ApplyInputFactor(value, item.inputFactor) else value as real
  }

  /** One iteration of the loop over the entries. */
  function Absorb(result: map<string, real>, item: Item): Result<map<string, real>, ClientError> {
    if Malformed(item) then Err(General(GeneralErrorMessage))
    else if Usable(item) then Ok(result[item.key.value := EntryValue(item)])
    else Ok(result)
  }

  /** The map the loop builds from a sequence of entries, or the error it raises. */
  function Collect(items: seq<Item>): Result<map<string, real>, ClientError> {
    if items == [] then Ok(map[])
    else match Collect(items[..|items| - 1])
      case Err(e) => Err(e)
      case Ok(m) => Absorb(m, items[|items| - 1])
  }

  /** An integer reaches the map unchanged whether the portal sends it as a number
      or as its decimal text. */
  lemma LemmaRawToIntWhole(n: int)
    ensures RawToInt(RawNumber(n as real)) == Some(n)
    ensures RawToInt(RawText(IntToDecimal(n))) == Some(n)
  {
    LemmaTruncIdentityOnIntegers(n);
    LemmaParseIntToDecimal(n);
  }

  /** The keys of the usable entries. */
  function UsableKeys(items: seq<Item>): set<string> {
    set i | 0 <= i < |items| && Usable(items[i]) :: items[i].key.value
  }

  /** The error for an HTTP error status. */
  function ClassifyResponseError(status: int): (e: ClientError)
    ensures e.RestBusy? <==> status == 429
    ensures e.RestApi? <==> status != 429
    ensures e.RestApi? ==> e.code == status
  {
    if status == 429 then RestBusy else RestApi(status)
  }

  /** The loop over `itertools.chain(telemetry, settings)`. */
  method CollectEntries(telemetry: seq<Item>, settings: seq<Item>) returns (r: Result<map<string, real>, ClientError>)
    ensures r == Collect(telemetry + settings)
  {
    var entries := telemetry + settings;
    var result: map<string, real> := map[];
    var i := 0;
    while i < |entries|
      invariant 0 <= i <= |entries|
      invariant Collect(entries[..i]) == Ok(result)
    {
      var entry := entries[i];
      assert entries[..i + 1][..i] == entries[..i];
      assert entries[..i + 1] + entries[i + 1..] == entries;
      if entry.NonObject? {
        LemmaCollectErrPrefix(entries[..i + 1], entries[i + 1..]);
        return Err(General(GeneralErrorMessage));
      }
      if entry.key.None? || entry.value.None? {
        i := i + 1;
        continue;
      }
      var raw := RawToInt(entry.value.value);
      if raw.None? {
        LemmaCollectErrPrefix(entries[..i + 1], entries[i + 1..]);
        return Err(General(GeneralErrorMessage));
      }
      var value: real := raw.value as real;
      if entry.inputFactor.Some? {
        value := ApplyInputFactor(raw.value, entry.inputFactor);
      }
      result := result[entry.key.value := value];
      i := i + 1;
    }
    assert entries[..i] == entries;
    return Ok(result);
  }

  /** `async_get_data`: one request, its body parsed or its failure classified. */
  method AsyncGetData(response: HttpOutcome) returns (r: Result<map<string, real>, ClientError>)
    ensures response.ResponseError? ==> r == Err(ClassifyResponseError(response.status))
    ensures response.TimedOut? ==> r == Err(Timeout)
    ensures response.OtherException? ==> r == Err(General(GeneralErrorMessage))
    ensures response.Response? && response.body.NonObjectBody? ==> r == Err(General(GeneralErrorMessage))
    ensures response.Response? && response.body.JsonObject? ==>
              var body := response.body;
              r == if body.telemetry.None? || body.settings.None? then Ok(map[])
                   else Collect(body.telemetry.value + body.settings.value)
  {
    match response
    case ResponseError(status) =>
      r := Err(ClassifyResponseError(status));
    case TimedOut =>
      r := Err(Timeout);
    case OtherException =>
      r := Err(General(GeneralErrorMessage));
    case Response(body) =>
      if body.NonObjectBody? {
        r := Err(General(GeneralErrorMessage));
      } else if body.telemetry.None? || body.settings.None? {
        r := Ok(map[]);
      } else {
        r := CollectEntries(body.telemetry.value, body.settings.value);
      }
  }

  // Properties of the entry loop.

  /** Once the loop has raised, later entries change nothing. */
  lemma {:induction false} LemmaCollectErrPrefix(a: seq<Item>, b: seq<Item>)
    requires Collect(a).Err?
    ensures Collect(a + b) == Collect(a)
  {
    if b == [] {
      assert a + b == a;
    } else {
      var b' := b[..|b| - 1];
      assert (a + b)[..|a + b| - 1] == a + b';
      LemmaCollectErrPrefix(a, b');
    }
  }

  /** The loop raises exactly when some entry is malformed, and then always `XthermaError()`. */
  lemma {:induction false} LemmaCollectError(items: seq<Item>)
    ensures Collect(items).Err? <==> exists i :: 0 <= i < |items| && Malformed(items[i])
    ensures Collect(items).Err? ==> Collect(items).error == General(GeneralErrorMessage)
  {
    if items != [] {
      var init := items[..|items| - 1];
      LemmaCollectError(init);
      if exists i :: 0 <= i < |init| && Malformed(init[i]) {
        var i :| 0 <= i < |init| && Malformed(init[i]);
        assert Malformed(items[i]);
      }
      if exists i :: 0 <= i < |items| && Malformed(items[i]) {
        var i :| 0 <= i < |items| && Malformed(items[i]);
        if i < |init| {
          assert Malformed(init[i]);
        }
      }
    }
  }

  /** An entry whose value decodes to an infinite or not-a-number float makes the
      whole response fail with `XthermaError()`. */
  lemma LemmaNonFiniteRaises(items: seq<Item>, i: int)
    requires 0 <= i < |items| && items[i].Entry? && items[i].key.Some?
    requires items[i].value == Some(RawNonFinite)
    ensures Collect(items) == Err(General(GeneralErrorMessage))
  {
    assert Malformed(items[i]);
    LemmaCollectError(items);
  }

  /** A successful result holds exactly the keys of the entries that have a key and a value. */
  lemma {:induction false} LemmaCollectKeys(items: seq<Item>)
    requires Collect(items).Ok?
    ensures Collect(items).value.Keys == UsableKeys(items)
  {
    if items != [] {
      var init := items[..|items| - 1];
      LemmaCollectKeys(init);
      var last := items[|items| - 1];
      forall k | k in UsableKeys(items) ensures k in Collect(items).value {
        var i :| 0 <= i < |items| && Usable(items[i]) && items[i].key.value == k;
        if i < |init| {
          assert init[i] == items[i];
          assert k in UsableKeys(init);
        }
      }
      forall k | k in Collect(items).value ensures k in UsableKeys(items) {
        if k in UsableKeys(init) {
          var i :| 0 <= i < |init| && Usable(init[i]) && init[i].key.value == k;
          assert items[i] == init[i];
        } else {
          assert Usable(last) && last.key.value == k;
          assert items[|items| - 1] == last;
        }
      }
    }
  }

  /** The last usable entry for a key decides its value. */
  lemma {:induction false} LemmaCollectLastWins(items: seq<Item>, i: int)
    requires Collect(items).Ok?
    requires 0 <= i < |items| && Usable(items[i])
    requires forall j :: i < j < |items| && Usable(items[j]) ==> items[j].key != items[i].key
    ensures !Malformed(items[i])
    ensures items[i].key.value in Collect(items).value
    ensures Collect(items).value[items[i].key.value] == EntryValue(items[i])
  {
    var init := items[..|items| - 1];
    LemmaCollectError(items);
    if i < |items| - 1 {
      assert init[i] == items[i];
      forall j | i < j < |init| && Usable(init[j]) ensures init[j].key != init[i].key {
        assert init[j] == items[j];
      }
      LemmaCollectLastWins(init, i);
    }
  }

  /** Settings come after telemetry, so a key present in both takes its value from settings. */
  lemma LemmaSettingsOverrideTelemetry(telemetry: seq<Item>, settings: seq<Item>, i: int)
    requires Collect(telemetry + settings).Ok?
    requires 0 <= i < |settings| && Usable(settings[i])
    requires forall j :: i < j < |settings| && Usable(settings[j]) ==> settings[j].key != settings[i].key
    ensures !Malformed(settings[i])
    ensures settings[i].key.value in Collect(telemetry + settings).value
    ensures Collect(telemetry + settings).value[settings[i].key.value] == EntryValue(settings[i])
  {
    var items := telemetry + settings;
    var n := |telemetry| + i;
    assert items[n] == settings[i];
    forall j | n < j < |items| && Usable(items[j]) ensures items[j].key != items[n].key {
      assert items[j] == settings[j - |telemetry|];
    }
    LemmaCollectLastWins(items, n);
  }
}
