/** What the Xtherma clients share (custom_components/xtherma_fp/xtherma_client_common.py):
    the named input factors and their inverses, the typed client errors, and the
    static part of the client interface. */
module ClientCommon {
  import opened Wrappers

  type Positive = n: int | n > 0 witness 1

  /** One linear scaling step, the body of one lambda of the factor tables. */
  datatype Scale = Times(k: Positive) | DividedBy(k: Positive)
  {
    function Apply(v: real): real {
      match this
      case Times(k) => v * k as real
      case DividedBy(k) => v / k as real
    }
  }

  /** `_FACTORS`: the forward effect of each factor name. */
  const Factors: map<string, Scale> := map[
    "*1000" := Times(1000),
    "*100" := Times(100),
    "*10" := Times(10),
    "1000" := Times(1000),
    "100" := Times(100),
    "10" := Times(10),
    "/1000" := DividedBy(1000),
    "/100" := DividedBy(100),
    "/10" := DividedBy(10)
  ]

  /** `_RFACTORS`: the reverse effect of each factor name. */
  const RFactors: map<string, Scale> := map[
    "*1000" := DividedBy(1000),
    "*100" := DividedBy(100),
    "*10" := DividedBy(10),
    "1000" := DividedBy(1000),
    "100" := DividedBy(100),
    "10" := DividedBy(10),
    "/1000" := Times(1000),
    "/100" := Times(100),
    "/10" := Times(10)
  ]

  /** Python's `int()` on a float: truncation toward zero. */
  function Trunc(x: real): (r: int)
    ensures 0.0 <= x ==> r as real <= x < r as real + 1.0
    ensures x < 0.0 ==> r as real - 1.0 < x <= r as real
  {
    if x >= 0.0 then x.Floor else -((-x).Floor)
  }

  /** `_apply_input_factor`: scale a raw integer by the named factor. */
  function ApplyInputFactor(value: int, inputFactor: Option<string>): (r: real)
    ensures inputFactor.None? || inputFactor.value !in Factors ==> r == value as real
  {
    if inputFactor.None? || inputFactor.value == "" then value as real
    else if inputFactor.value in Factors then Factors[inputFactor.value].Apply(value as real)
    else value as real
  }

  /** `_reverse_apply_input_factor`: undo the named factor. Without a factor the
      value is truncated to an integer; an unknown name leaves it as it is. */
  function ReverseApplyInputFactor(value: real, inputFactor: Option<string>): (r: real)
    ensures inputFactor.None? ==> r == Trunc(value) as real
    ensures inputFactor.Some? && inputFactor.value !in RFactors ==> r == value
  {
    if inputFactor.None? then Trunc(value) as real
    else if inputFactor.value in RFactors then RFactors[inputFactor.value].Apply(value)
    else value
  }

  /** The exceptions a client raises. `General` is `XthermaError`; `Unclassified`
      stands for any exception that is not one of the integration's own. */
  datatype ClientError =
    | ModbusBusy
    | RestBusy
    | General(msg: string)
    | NotConnected
    | RestApi(code: int)
    | Modbus
    | ModbusEmptyData
    | ReadOnly
    | Timeout
    | Unclassified(msg: string)
  {
    /** `str(err)`: the message each exception class passes to `Exception`. The
        busy, not-connected and timeout errors have a fixed text; `XthermaError`
        and foreign exceptions carry their own; the REST API, Modbus, empty-data
        and read-only errors pass none, so their text is empty. */
    function Message(): (r: string)
      ensures ModbusBusy? ==> r == "Modbus is busy"
      ensures RestBusy? ==> r == "REST API is busy"
      ensures NotConnected? ==> r == "Not connected error"
      ensures Timeout? ==> r == "timeout"
      ensures General? || Unclassified? ==> r == msg
      ensures r == "" <==> RestApi? || Modbus? || ModbusEmptyData? || ReadOnly? || ((General? || Unclassified?) && msg == "")
    {
      match this
      case ModbusBusy => "Modbus is busy"
      case RestBusy => "REST API is busy"
      case General(msg) => msg
      case NotConnected => "Not connected error"
      case Timeout => "timeout"
      case Unclassified(msg) => msg
      case _ => ""
    }
  }

  /** The message of `XthermaError()` raised without arguments. */
  const GeneralErrorMessage := "General error"

  /** A Python number as it appears in an entity description. */
  datatype PyNumber = PyInt(i: int) | PyFloat(f: real)

  /** The parts of an entity description the core reads. */
  datatype EntityDescription = EntityDescription(
    key: string,
    nativeMinValue: Option<PyNumber>,
    nativeStep: Option<PyNumber>)

  /** What a client reports about itself without I/O: its polling interval in
      seconds and its entity descriptions. */
  datatype ClientInfo = ClientInfo(updateInterval: nat, entityDescriptions: seq<EntityDescription>)

  // Properties of the factor tables.

  /** The nine factor names the tables define. */
  const FactorNames: set<string> := {"*1000", "*100", "*10", "1000", "100", "10", "/1000", "/100", "/10"}

  /** Both tables define exactly the nine factor names, and the empty name is none of them. */
  lemma LemmaFactorNames()
    ensures Factors.Keys == FactorNames
    ensures RFactors.Keys == FactorNames
    ensures "" !in Factors && "" !in RFactors
  {
  }

  /** The two spellings of each multiplier have the same forward and reverse effect. */
  lemma LemmaSynonyms(value: int, v: real)
    ensures ApplyInputFactor(value, Some("1000")) == ApplyInputFactor(value, Some("*1000"))
    ensures ApplyInputFactor(value, Some("100")) == ApplyInputFactor(value, Some("*100"))
    ensures ApplyInputFactor(value, Some("10")) == ApplyInputFactor(value, Some("*10"))
    ensures ReverseApplyInputFactor(v, Some("1000")) == ReverseApplyInputFactor(v, Some("*1000"))
    ensures ReverseApplyInputFactor(v, Some("100")) == ReverseApplyInputFactor(v, Some("*100"))
    ensures ReverseApplyInputFactor(v, Some("10")) == ReverseApplyInputFactor(v, Some("*10"))
  {
  }

  /** A multiplication and a division by the same constant undo each other. */
  predicate Inverse(a: Scale, b: Scale) {
    a.k == b.k && a.Times? != b.Times?
  }

  lemma LemmaScaleInverse(a: Scale, b: Scale, v: real)
    requires Inverse(a, b)
    ensures b.Apply(a.Apply(v)) == v
  {
  }

  /** Each reverse entry is the inverse of the forward entry of the same name. */
  lemma LemmaTablesInverse(f: string)
    requires f in Factors
    ensures f in RFactors && Inverse(Factors[f], RFactors[f])
  {
  }

  /** The reverse table undoes the forward table, name by name. */
  lemma LemmaRoundTrip(value: int, f: string)
    requires f in Factors
    ensures ReverseApplyInputFactor(ApplyInputFactor(value, Some(f)), Some(f)) == value as real
  {
    LemmaFactorNames();
    LemmaTablesInverse(f);
    LemmaScaleInverse(Factors[f], RFactors[f], value as real);
  }

  /** Scaling is linear and keeps the sign: it commutes with negation and with
      addition, maps zero to zero, and keeps positive and negative readings so. */
  lemma LemmaApplyLinear(a: int, b: int, f: Option<string>)
    ensures ApplyInputFactor(-a, f) == -ApplyInputFactor(a, f)
    ensures ApplyInputFactor(a + b, f) == ApplyInputFactor(a, f) + ApplyInputFactor(b, f)
    ensures ApplyInputFactor(0, f) == 0.0
    ensures a > 0 ==> ApplyInputFactor(a, f) > 0.0
    ensures a < 0 ==> ApplyInputFactor(a, f) < 0.0
  {
    if f.Some? && f.value != "" && f.value in Factors {
      var sc := Factors[f.value];
      assert sc.Apply((-a) as real) == -sc.Apply(a as real);
      assert sc.Apply((a + b) as real) == sc.Apply(a as real) + sc.Apply(b as real);
    }
  }

  /** A negative raw reading, already sign-extended, keeps its sign: -200 with "/10" is -20. */
  lemma LemmaNegativeReading()
    ensures ApplyInputFactor(-200, Some("/10")) == -20.0
  {
  }

  /** `int()` leaves whole numbers alone. */
  lemma LemmaTruncIdentityOnIntegers(n: int)
    ensures Trunc(n as real) == n
  {
  }
}
