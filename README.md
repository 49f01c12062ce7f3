# Xtherma heat-pump integration: write-masking coordinator and value transforms

This project models the core of the Xtherma Home Assistant integration in Dafny and proves the model's properties. The integration runs over two transports: the Fernportal cloud REST API and a local Modbus/TCP link. Four parts are modelled:

- **Coordinator** (`coordinator.dfy`). The data update coordinator polls the client. It overlays a table of pending writes onto each fetch, so that a value the user has just written is not undone by a stale read during the device's 30-second settle time. It maps each typed client error to a fixed translation key. It also serves `read_value`. The coordinator is a class with the pending-write table, the last snapshot and `last_update_success` as fields. Its methods are proved against pure transition functions (`AfterPoll`, `AfterWrite`), and the lemmas are stated over those functions.
- **Scaling transform** (`client_common.dfy`). This is the table of named linear input factors, its reverse table, and the rules for a missing, empty or unknown name. It also holds the client error kinds.
- **REST client** (`client_rest.dfy`). This turns the decoded `telemetry` and `settings` lists into a key/value map. It classifies HTTP and transport failures, and it refuses every write.
- **Number entity** (`number.dfy`). This covers integer alignment, ignoring empty coordinator updates, and committing a value only after a successful write. After a translated failure the entity toggles `force_update`.

Supporting modules:
- `wrappers.dfy` provides Option, Result and Outcome.
- `numerals.dfy` models Python's `str(int)` and `int(str)`.

Modelling conventions:
- Values are exact `real`s. Python's `int()` on a number is truncation toward zero (`ClientCommon.Trunc`).
- Time is a parameter `now` in whole seconds.
- Each client call's result is a parameter:
  - `Result<map<string, real>, ClientError>` for `async_get_data`;
  - `Outcome<ClientError>` for `async_put_data`;
  - for the REST client, an `HttpOutcome` for the GET request.
- Each call to `async_write_ha_state` appends the published attributes to the entity's `stateWrites` log.
- The update framework behaves as follows, and `Coordinator.XthermaDataUpdateCoordinator.Refresh` models it:
  - it starts with no data and `last_update_success` set;
  - a successful update replaces the snapshot;
  - a failed update keeps the snapshot and clears the flag.

Three behaviours of the code are worth stating outright:
- **Expiry.** An entry expires only when `now > blocked_until` (coordinator.py:175). A poll at exactly `t0 + 30` after a write at `t0` is therefore still masked: the window is closed at both ends.
- **Read after a failed poll.** `read_value` returns `None` after a failed poll, because `last_update_success` is then false (coordinator.py:218-219). The snapshot from the last successful poll is kept but not served.
- **Reverse without a factor.** Reversing with no factor is `int(value)` (xtherma_client_common.py:148-149). This truncates toward zero, so -2.5 becomes -2, not -3.

## Model

| member | source | states |
|---|---|---|
| `ClientCommon.LemmaFactorNames` | custom_components/xtherma_fp/xtherma_client_common.py:10-32 | The forward and reverse tables define the same nine factor names, and the empty name is not one of them. |
| `ClientCommon.LemmaSynonyms` | custom_components/xtherma_fp/xtherma_client_common.py:11-16 | `"1000"`/`"*1000"`, `"100"`/`"*100"` and `"10"`/`"*10"` have identical forward and reverse effects. |
| `ClientCommon.LemmaTablesInverse` | custom_components/xtherma_fp/xtherma_client_common.py:22-32 | Each reverse entry divides where the forward entry multiplies (and the other way round), by the same constant. |
| `ClientCommon.LemmaRoundTrip` | custom_components/xtherma_fp/xtherma_client_common.py:141-151 | For every factor name, reversing after applying gives back the raw value exactly. |
| `ClientCommon.ApplyInputFactor` | custom_components/xtherma_fp/xtherma_client_common.py:141-145 | With no factor, the empty factor or an unknown name, the raw value is returned unchanged. |
| `ClientCommon.ReverseApplyInputFactor` | custom_components/xtherma_fp/xtherma_client_common.py:147-151 | With no factor the value is truncated to an integer; an unknown string factor (including `""`) returns it unchanged, without integer coercion. |
| `ClientCommon.LemmaApplyLinear` | custom_components/xtherma_fp/xtherma_client_common.py:17-19 | Scaling is linear and keeps the sign: it commutes with negation and addition, maps 0 to 0, keeps a positive reading positive and a negative one negative. |
| `ClientCommon.LemmaNegativeReading` | custom_components/xtherma_fp/xtherma_client_common.py:19 | A sign-extended raw -200 with `/10` gives -20. |
| `ClientCommon.ClientError.Message` | custom_components/xtherma_fp/xtherma_client_common.py:35-105 | `str(err)` for each exception class: "Modbus is busy", "REST API is busy", "Not connected error" and "timeout" for those four errors; its own message for `XthermaError` and a foreign exception; the empty text for the REST API, Modbus, empty-data and read-only errors, which pass no message. |
| `ClientCommon.Trunc` | custom_components/xtherma_fp/xtherma_client_common.py:149 | `int()` on a float moves toward zero by less than one. |
| `ClientCommon.LemmaTruncIdentityOnIntegers` | custom_components/xtherma_fp/xtherma_client_rest.py:83 | `int()` of a whole number is that number. |
| `Numerals.IntToDecimal` | custom_components/xtherma_fp/coordinator.py:120 | `str(n)`: a leading `-` exactly when `n` is negative, then decimal digits without leading zeros. |
| `Numerals.LemmaParseIntToDecimal` | custom_components/xtherma_fp/coordinator.py:120 | `int(str(n)) == n` for every integer. `Numerals.ParseInt` (Python `int(str)`, used at xtherma_client_rest.py:83) has no contract of its own: this round trip and the acceptance and rejection lemmas below characterise it. |
| `Numerals.LemmaParseIntAccepts` | custom_components/xtherma_fp/xtherma_client_rest.py:83 | `int()` skips surrounding whitespace and takes an optional `+` or `-`: `" 12\n"` is 12, `"+7"` is 7, `"-0"` is 0. |
| `Numerals.LemmaParseRejectsInner` | custom_components/xtherma_fp/xtherma_client_rest.py:83 | A non-digit after the first character of the trimmed text (a decimal point, an inner space) makes `int()` raise. |
| `Numerals.LemmaParseRejectsBlank` | custom_components/xtherma_fp/xtherma_client_rest.py:83 | An empty or all-whitespace string makes `int()` raise. |
| `Numerals.LemmaParseRejectsLoneSign` | custom_components/xtherma_fp/xtherma_client_rest.py:83 | A sign with no digits makes `int()` raise. |
| `ClientRest.XthermaClientRest.UpdateInterval` | custom_components/xtherma_fp/xtherma_client_rest.py:49-51 | The interval is the portal's rate limit on every call. |
| `ClientRest.XthermaClientRest.GetEntityDescriptions` | custom_components/xtherma_fp/xtherma_client_rest.py:115-117 | The descriptor list is the client's fixed list on every call. |
| `ClientRest.XthermaClientRest.AsyncPutData` | custom_components/xtherma_fp/xtherma_client_rest.py:108-113 | Every write fails with the read-only error, whatever value or descriptor it is given. |
| `ClientRest.ClassifyResponseError` | custom_components/xtherma_fp/xtherma_client_rest.py:95-99 | Status 429 is the REST-busy error; every other status is a REST API error carrying that status. |
| `ClientRest.AsyncGetData` | custom_components/xtherma_fp/xtherma_client_rest.py:62-105 | A response error is classified by status, a timeout is the timeout error, and any other exception (or a body that is not an object) is `XthermaError()`. A body whose telemetry or settings is not a list gives the empty map; otherwise the result is the entry loop's over telemetry followed by settings. |
| `ClientRest.CollectEntries` | custom_components/xtherma_fp/xtherma_client_rest.py:78-86 | The imperative entry loop computes exactly the specification `Collect(telemetry + settings)`. |
| `ClientRest.RawToInt` | custom_components/xtherma_fp/xtherma_client_rest.py:83 | `int(raw_value)`: a finite JSON number never raises and is truncated toward zero; a number that decodes to an infinite or not-a-number float (`1e999`, `Infinity`, `NaN`) raises, and so do an array and an object; text goes through `int(str)`. |
| `ClientRest.LemmaRawToIntWhole` | custom_components/xtherma_fp/xtherma_client_rest.py:83 | An integer reaches the map unchanged whether the portal sends it as a number or as its decimal text. |
| `ClientRest.LemmaCollectErrPrefix` | custom_components/xtherma_fp/xtherma_client_rest.py:78-83 | Once an entry raises, later entries do not change the outcome. |
| `ClientRest.LemmaCollectError` | custom_components/xtherma_fp/xtherma_client_rest.py:79-83 | The loop fails exactly when some entry is not an object or has a value `int()` rejects (including a non-finite number), and then with `XthermaError("General error")`. |
| `ClientRest.LemmaNonFiniteRaises` | custom_components/xtherma_fp/xtherma_client_rest.py:83-105 | An entry with a key whose value decodes to an infinite or not-a-number float makes `int()` raise, and the whole response fails with `XthermaError("General error")`. |
| `ClientRest.LemmaCollectKeys` | custom_components/xtherma_fp/xtherma_client_rest.py:78-86 | A successful result has exactly the keys of the entries with both a key and a value. |
| `ClientRest.LemmaCollectLastWins` | custom_components/xtherma_fp/xtherma_client_rest.py:83-86 | The last usable entry for a key decides its value: `int(raw)`, scaled by the input factor when one is present. |
| `ClientRest.LemmaSettingsOverrideTelemetry` | custom_components/xtherma_fp/xtherma_client_rest.py:78 | A key present in settings takes its value from the last settings entry, over any telemetry entry. |
| `Coordinator.ReadFailure` | custom_components/xtherma_fp/coordinator.py:95-143 | Each read-path client error maps to its one translation key, in both directions. `XthermaError`, read-only and unclassified exceptions all become `general_error`. Only `rest_api_error`, `modbus_read_error` and `general_error` carry an `error` placeholder. For `rest_api_error` it is the decimal text of the code; for the other two it is the exception's message (`str(err)`). |
| `Coordinator.LemmaRestApiCodeReadable` | custom_components/xtherma_fp/coordinator.py:115-122 | The `error` placeholder of `rest_api_error` is the decimal text of the code and parses back to it. |
| `Coordinator.WriteFailure` | custom_components/xtherma_fp/coordinator.py:188-212 | Read-only, Modbus-busy and Modbus errors become `rest_read_only_error`, `modbus_write_busy_error` and `modbus_write_error`, carrying the entity id; `modbus_write_error` also carries `str(err)` as `error`, and there are no other placeholders. Every other error propagates unchanged. |
| `Coordinator.CoordinatorState.ReadValue` | custom_components/xtherma_fp/coordinator.py:214-224 | A value is returned exactly when there is a snapshot, the last update succeeded and the key is in it; it is the snapshot's value. |
| `Coordinator.XthermaDataUpdateCoordinator.constructor` | custom_components/xtherma_fp/coordinator.py:52-68 | The update interval is read from the client once. The table starts empty, there is no data, and `last_update_success` is set. |
| `Coordinator.XthermaDataUpdateCoordinator.BlockFor` | custom_components/xtherma_fp/coordinator.py:157-163 | The key's entry becomes (value, now + seconds), replacing any old entry; no other entry changes. |
| `Coordinator.XthermaDataUpdateCoordinator.IsBlocked` | custom_components/xtherma_fp/coordinator.py:165-180 | Returns the pending value when the entry has not expired (`now <= blocked_until`). Removes the entry only when `now > blocked_until`. Leaves every other entry, and a table without the key, unchanged. |
| `Coordinator.XthermaDataUpdateCoordinator.UpdateData` | custom_components/xtherma_fp/coordinator.py:80-149 | A failed fetch raises the mapped failure and leaves the table alone. A successful fetch returns `Overlay` of the fetched map, and the table loses exactly the expired entries of fetched keys. |
| `Coordinator.XthermaDataUpdateCoordinator.Refresh` | custom_components/xtherma_fp/coordinator.py:80-149 | The whole state after one refresh is `AfterPoll` of the state before it. |
| `Coordinator.XthermaDataUpdateCoordinator.AsyncWrite` | custom_components/xtherma_fp/coordinator.py:182-212 | A successful client write sets the key's window to 30 seconds; a failing one leaves the state unchanged and returns the mapped error. |
| `Coordinator.LemmaPollPublishes` | custom_components/xtherma_fp/coordinator.py:85-94 | A successful poll publishes exactly the fetched keys, each with the pending value if its write is unexpired and the fetched value otherwise. |
| `Coordinator.LemmaPollExpiresLazily` | custom_components/xtherma_fp/coordinator.py:165-180 | A poll never adds or alters an entry. It removes an entry exactly when the key was fetched and its window has expired, so entries of unfetched keys survive. |
| `Coordinator.LemmaFailedPoll` | custom_components/xtherma_fp/coordinator.py:84 | A failed poll keeps the table and the last snapshot, and `read_value` then returns none. |
| `Coordinator.LemmaWriteMasks` | custom_components/xtherma_fp/coordinator.py:38 | A successful write sets the key's entry to (value, now + 30); a failed write leaves the whole state unchanged. |
| `Coordinator.LemmaPollSparesEntry` | custom_components/xtherma_fp/coordinator.py:165-180 | A poll that runs no later than an entry's expiry, or does not fetch its key, keeps the entry unchanged; if it fetched the key it publishes the pending value. |
| `Coordinator.LemmaMaskedUntilExpiry` | custom_components/xtherma_fp/coordinator.py:86-94 | Across any number of polls that each run no later than an entry's expiry or do not fetch its key, the entry survives unchanged, and every poll that fetches the key publishes the pending value. |
| `Coordinator.LemmaPollWithoutEntry` | custom_components/xtherma_fp/coordinator.py:168-173 | A poll never creates an entry, and for a key without one it publishes the fetched value. |
| `Coordinator.LemmaUnmaskedStaysFresh` | custom_components/xtherma_fp/coordinator.py:165-173 | Polls never create an entry, so an unmasked key always shows what was last fetched. |
| `Coordinator.LemmaRunPollsAppend` | custom_components/xtherma_fp/coordinator.py:80-94 | Running two sequences of polls one after the other equals running their concatenation. |
| `Coordinator.LemmaSettleWindow` | custom_components/xtherma_fp/coordinator.py:157-187 | After a successful write at `t0`, polls up to `t0 + 30` publish the written value. Through those polls, and through failed or key-less polls after `t0 + 30`, the entry stays (value, `t0 + 30`). The first poll after `t0 + 30` that fetches the key drops the entry and publishes the fetched value, and so does every later poll. |
| `Coordinator.LemmaReadOnlyWriteChangesNothing` | custom_components/xtherma_fp/coordinator.py:188-195 | A read-only failure becomes `rest_read_only_error` for the entity, and the state is unchanged. |
| `Coordinator.SettleScenario` | custom_components/xtherma_fp/coordinator.py:157-187 | Write 0; a poll at once that fetches 1 publishes 0; a poll 31 seconds later publishes 1. |
| `Number.AlignedValue` | custom_components/xtherma_fp/number.py:83-86 | An integer entity gets a whole number within one of the value, toward zero; any other entity gets the value unchanged. |
| `Number.LemmaAlignedIdempotent` | custom_components/xtherma_fp/number.py:83-86 | Aligning an aligned value changes nothing. |
| `Number.XthermaNumberEntity.NativeTypeIsIntCached` | custom_components/xtherma_fp/number.py:74-81 | The answer is true iff both the minimum and the step are ints; it is cached on first use and served from the cache afterwards. |
| `Number.XthermaNumberEntity.AlignNativeValueType` | custom_components/xtherma_fp/number.py:83-86 | Returns the aligned value for the entity's type, filling the cache. |
| `Number.XthermaNumberEntity.HandleCoordinatorUpdate` | custom_components/xtherma_fp/number.py:46-52 | A missing read value changes nothing and writes no state. Otherwise the native value becomes the aligned read value and is published once. |
| `Number.XthermaNumberEntity.AsyncSetNativeValue` | custom_components/xtherma_fp/number.py:61-72 | The aligned value is what the coordinator writes. On success, that value is stored and published. On a translated failure, the old value is published once with `force_update` raised, the flag ends cleared, and the error is re-raised. Any other failure changes nothing. |
| `Number.XthermaNumberEntity.WriteHaState` | custom_components/xtherma_fp/number.py:52 | Publishing records the current native value and `force_update`. |
| `Number.IntegerWriteScenario` | custom_components/xtherma_fp/number.py:61-67 | An integer entity writes 21.7 as 21 and shows 21 through a poll 5 seconds later that fetches 20, then shows 20 after 31 seconds. |
| `Number.RestWriteScenario` | custom_components/xtherma_fp/number.py:68-72 | On the REST client a set fails with `rest_read_only_error`. The entity keeps no value, publishes once with `force_update` raised, and ends with the flag cleared. |

## Left out

- Home Assistant machinery is not modelled. This covers scheduling the poll on `update_interval`, listeners, entity registration, icons, the translation domain, platform setup (`async_setup_entry`) and logging.
- `close` and `_async_setup` are not modelled. They only call the client's `connect`/`disconnect`, which does no work for REST and opens or closes a socket for Modbus.
- Async interleaving is not modelled. Each poll and each write is one atomic step.
- The Modbus client, including two's-complement sign extension, is not part of this model. Its errors appear only as `ClientError` values.
- `const.py` and `entity_descriptors.py` are not part of this model. The REST client value carries the rate-limit seconds and the descriptor list as parameters.
- The coordinator's `get_entity_descriptions` is not modelled. It only delegates to the client, and its `None` branch cannot be reached once the constructor has run.
- HTTP wire handling is not modelled: headers, `ClientTimeout`, `raise_for_status` and JSON decoding. `HttpOutcome` stands for what they yield.
- Some JSON shapes are not modelled. Entry keys and `input_factor` values are strings. A non-string key, or a non-hashable factor, is outside the model.
- Python `int()` on strings is modelled only for ASCII whitespace, an optional sign and ASCII digits. The model rejects underscores between digits and non-ASCII digits and whitespace, which Python accepts.
- Python's limit on integer string conversion is not modelled. From Python 3.11, `int(str)` and `str(int)` raise `ValueError` beyond 4300 digits; the model converts text and integers of any length.
- Python's int/float type distinction is not modelled. Values are exact rationals, so floating-point division rounding and the `20` versus `20.0` display difference do not appear.
- The clock is not modelled. `datetime.now(UTC)` becomes the parameter `now`, in whole seconds.
- The log line counting processed against fetched values is not modelled.
