/** The number entity (custom_components/xtherma_fp/number.py): it takes its value
    from the coordinator, aligns it to the entity's integer or float type, and
    commits a user's value only once the coordinator's write has succeeded. */
module Number {
  import opened Wrappers
  import opened ClientCommon
  import opened Coordinator
  import ClientRest

  /** One `async_write_ha_state` call, with the attributes it publishes. */
  datatype StateWrite = StateWrite(nativeValue: Option<real>, forceUpdate: bool)

  /** `native_type_is_int`: both the minimum and the step of the description are ints. */
  predicate NativeTypeIsInt(desc: EntityDescription) {
    && desc.nativeMinValue.Some? && desc.nativeMinValue.value.PyInt?
    && desc.nativeStep.Some? && desc.nativeStep.value.PyInt?
  }

  /** `_align_native_value_type`: an integer entity drops the fraction (toward
      zero); any other entity keeps the value. */
  function AlignedValue(isInt: bool, value: real): (r: real)
    ensures !isInt ==> r == value
    ensures isInt ==> r == r.Floor as real
    ensures isInt && 0.0 <= value ==> r <= value < r + 1.0
    ensures isInt && value < 0.0 ==> r - 1.0 < value <= r
  {
    if isInt then Trunc(value) as real else value
  }

  /** Aligning twice is aligning once. */
  lemma LemmaAlignedIdempotent(isInt: bool, value: real)
    ensures AlignedValue(isInt, AlignedValue(isInt, value)) == AlignedValue(isInt, value)
  {
    if isInt {
      LemmaTruncIdentityOnIntegers(Trunc(value));
    }
  }

  class XthermaNumberEntity {
    const coordinator: XthermaDataUpdateCoordinator
    const entityDescription: EntityDescription
    const entityId: string
    /** `_attr_native_value`. */
    var nativeValue: Option<real>
    /** `_attr_force_update`. */
    var forceUpdate: bool
    /** `_native_type_is_int`, absent until first asked for. */
    var nativeTypeIsIntCache: Option<bool>
    /** Every state written to the host, oldest first. */
    var stateWrites: seq<StateWrite>

    ghost predicate Valid()
      reads this
    {
      nativeTypeIsIntCache.Some? ==> nativeTypeIsIntCache.value == NativeTypeIsInt(entityDescription)
    }

    constructor(coordinator: XthermaDataUpdateCoordinator, entityDescription: EntityDescription, entityId: string)
      ensures Valid()
      ensures this.coordinator == coordinator && this.entityDescription == entityDescription && this.entityId == entityId
      ensures nativeValue == None && !forceUpdate && nativeTypeIsIntCache == None && stateWrites == []
    {
      this.coordinator := coordinator;
      this.entityDescription := entityDescription;
      this.entityId := entityId;
      nativeValue := None;
      forceUpdate := false;
      nativeTypeIsIntCache := None;
      stateWrites := [];
    }

    /** `async_write_ha_state`. */
    method WriteHaState()
      modifies this`stateWrites
      ensures stateWrites == old(stateWrites) + [StateWrite(nativeValue, forceUpdate)]
    {
      stateWrites := stateWrites + [StateWrite(nativeValue, forceUpdate)];
    }

    /** `native_type_is_int`: computed on first use, then served from the cache. */
    method NativeTypeIsIntCached() returns (b: bool)
      requires Valid()
      modifies this`nativeTypeIsIntCache
      ensures Valid()
      ensures b == NativeTypeIsInt(entityDescription)
      ensures nativeTypeIsIntCache == Some(b)
    {
      if nativeTypeIsIntCache.None? {
        nativeTypeIsIntCache := Some(NativeTypeIsInt(entityDescription));
      }
      b := nativeTypeIsIntCache.value;
    }

    /** `_align_native_value_type`. */
    method AlignNativeValueType(value: real) returns (r: real)
      requires Valid()
      modifies this`nativeTypeIsIntCache
      ensures Valid() && nativeTypeIsIntCache == Some(NativeTypeIsInt(entityDescription))
      ensures r == AlignedValue(NativeTypeIsInt(entityDescription), value)
    {
      var isInt := NativeTypeIsIntCached();
      r := if isInt then Trunc(value) as real else value;
    }

    /** `_handle_coordinator_update`: a missing value is ignored; otherwise the
        aligned value is stored and published. */
    method HandleCoordinatorUpdate()
      requires Valid()
      modifies this
      ensures Valid()
      ensures coordinator.ReadValue(entityDescription.key).None? ==> unchanged(this)
      ensures var v := coordinator.ReadValue(entityDescription.key);
              v.Some? ==>
                && nativeValue == Some(AlignedValue(NativeTypeIsInt(entityDescription), v.value))
                && forceUpdate == old(forceUpdate)
                && stateWrites == old(stateWrites) + [StateWrite(nativeValue, forceUpdate)]
    {
      var value := coordinator.ReadValue(entityDescription.key);
      if value.None? {
        return;
      }
      var aligned := AlignNativeValueType(value.value);
      nativeValue := Some(aligned);
      WriteHaState();
    }

    /** `async_set_native_value`: the aligned value is written through the
        coordinator and stored only if the write succeeds. A translated failure
        publishes the old state once with `force_update` raised, clears the flag
        and re-raises; any other failure passes straight through. */
    method AsyncSetNativeValue(value: real, now: int, put: Outcome<ClientError>) returns (r: Outcome<WriteError>)
      requires Valid()
      modifies this, coordinator
      ensures Valid()
      ensures r == WriteOutcome(put, entityId)
      ensures coordinator.State() == AfterWrite(old(coordinator.State()), now, entityDescription.key,
                                                AlignedValue(NativeTypeIsInt(entityDescription), value), put)
      ensures r.Pass? ==>
                && nativeValue == Some(AlignedValue(NativeTypeIsInt(entityDescription), value))
                && forceUpdate == old(forceUpdate)
                && stateWrites == old(stateWrites) + [StateWrite(nativeValue, forceUpdate)]
      ensures r.Fail? && r.error.Translated? ==>
                && nativeValue == old(nativeValue)
                && !forceUpdate
                && stateWrites == old(stateWrites) + [StateWrite(old(nativeValue), true)]
      ensures r.Fail? && r.error.Propagated? ==>
                && nativeValue == old(nativeValue)
                && forceUpdate == old(forceUpdate)
                && stateWrites == old(stateWrites)
    {
      var native := AlignNativeValueType(value);
      r := coordinator.AsyncWrite(entityId, entityDescription, native, now, put);
      match r
      case Pass =>
        nativeValue := Some(native);
        WriteHaState();
      case Fail(error) =>
        if error.Translated? {
          forceUpdate := true;
          WriteHaState();
          forceUpdate := false;
        }
    }
  }

  /** An integer entity on a writable client: 21.7 is written as 21; a poll at
      once that fetches 20 still shows 21, and a poll 31 seconds later shows 20. */
  method IntegerWriteScenario(client: ClientInfo, desc: EntityDescription, t0: int)
    returns (r: Outcome<WriteError>, afterWrite: Option<real>, soon: Option<real>, later: Option<real>)
    requires NativeTypeIsInt(desc)
    ensures r == Pass
    ensures afterWrite == Some(21.0) && soon == Some(21.0) && later == Some(20.0)
  {
    var coordinator := new XthermaDataUpdateCoordinator(client);
    var entity := new XthermaNumberEntity(coordinator, desc, "number.entity");
    r := entity.AsyncSetNativeValue(21.7, t0, Pass);
    afterWrite := entity.nativeValue;
    var polled := coordinator.Refresh(t0 + 5, Ok(map[desc.key := 20.0]));
    entity.HandleCoordinatorUpdate();
    soon := entity.nativeValue;
    polled := coordinator.Refresh(t0 + 31, Ok(map[desc.key := 20.0]));
    entity.HandleCoordinatorUpdate();
    later := entity.nativeValue;
  }

  /** On the REST client every set fails as read-only: the entity keeps its value,
      publishes it once with `force_update` raised, and ends with the flag cleared. */
  method RestWriteScenario(rest: ClientRest.XthermaClientRest, desc: EntityDescription, value: real, now: int)
    returns (r: Outcome<WriteError>, native: Option<real>, writes: seq<StateWrite>, forced: bool)
    ensures r == Fail(Translated(Failure("rest_read_only_error", map["entity_id" := "number.entity"])))
    ensures native == None && writes == [StateWrite(None, true)] && !forced
  {
    var coordinator := new XthermaDataUpdateCoordinator(rest.Info());
    var entity := new XthermaNumberEntity(coordinator, desc, "number.entity");
    entity.HandleCoordinatorUpdate();
    var put := rest.AsyncPutData(AlignedValue(NativeTypeIsInt(desc), value), desc);
    r := entity.AsyncSetNativeValue(value, now, put);
    native := entity.nativeValue;
    writes := entity.stateWrites;
    forced := entity.forceUpdate;
  }
}
