/** Gates, dynamic configs and layers as the server describes them, users, and evaluation results. */
module Specs {
  import opened Strings

  /** An `interface{}` as JSON decoding or the evaluator itself produces it. */
  datatype Value =
    | Null
    | Bool(b: bool)
    | Int(i: int)
    | Float(r: real)
    | Str(s: string)
    | Arr(elements: seq<Value>)
    | Obj(fields: map<string, Value>)

  type Object = map<string, Value>

  /** What decoding a `json.RawMessage` into a map can give. */
  datatype RawObject = Malformed | NullLiteral | Parsed(fields: Object)

  datatype User = User(
    userID: string, email: string, ip: string, userAgent: string, country: string, locale: string,
    appVersion: string, custom: Object, privateAttributes: Object,
    environment: map<string, string>, customIDs: map<string, string>)

  datatype Condition = Condition(
    ctype: string, operator: string, field: string, target: Value, salt: Option<Value>, idType: string)

  datatype Rule = Rule(
    id: string, salt: string, passPercentage: real, conditions: seq<Condition>, returnValue: RawObject,
    idType: string, configDelegate: string, isExperimentGroup: Option<bool>)

  datatype Spec = Spec(
    name: string, stype: string, salt: string, enabled: bool, rules: seq<Rule>, defaultValue: RawObject,
    idType: string, explicitParameters: seq<string>, entity: string, isActive: Option<bool>,
    hasSharedParams: Option<bool>, targetAppIDs: seq<string>)

  datatype Reason = Network | Bootstrap | LocalOverride | Unrecognized | Uninitialized | DataAdapter

  /** Everything an evaluation reads besides the user: the store, the overrides and the clock.
      An ID list is `None` while it is a placeholder whose ids were never allocated. */
  datatype Snapshot = Snapshot(
    gates: map<string, Spec>, configs: map<string, Spec>, layers: map<string, Spec>,
    experimentToLayer: map<string, string>, sdkKeysToAppID: map<string, string>,
    idLists: map<string, Option<set<string>>>,
    reason: Reason, lastSyncTime: int, initialSyncTime: int,
    gateOverrides: map<string, bool>, configOverrides: map<string, Object>, layerOverrides: map<string, Object>,
    now: int)

  datatype Exposure = Exposure(gate: string, gateValue: string, ruleID: string)

  datatype ConfigValue = ConfigValue(name: string, value: Option<Object>, ruleID: string)

  datatype Details = Details(reason: Reason, configSyncTime: int, initTime: int)

  datatype Result = Result(
    pass: bool, config: ConfigValue, fetchFromServer: bool, id: string,
    exposures: seq<Exposure>, undelegated: seq<Exposure>, delegate: string,
    explicitParams: set<string>, details: Option<Details>, isExperimentGroup: Option<bool>)

  /** `new(evalResult)`. */
  const ZERO := Result(false, ConfigValue("", None, ""), false, "", [], [], "", {}, None, None)

  datatype PanicReason = DepthExceeded | NilDereference

  /** A Go call that returns, or panics. */
  datatype Outcome<+T> = Panic(why: PanicReason) | Done(value: T) {
    predicate IsFailure() { Panic? }
    function PropagateFailure<U>(): Outcome<U> requires Panic? { Panic(why) }
    function Extract(): T requires Done? { value }
  }

  function FormatBool(b: bool): string { if b then "true" else "false" }

  function NewConfig(name: string, value: Option<Object>, ruleID: string): ConfigValue {
    ConfigValue(name, if value.None? then Some(map[]) else value, ruleID)
  }

  /** The fields a text holds; none if it is malformed or a JSON null. */
  function FieldsOf(raw: RawObject): Object { if raw.Parsed? then raw.fields else map[] }

  /** Decoding with the fallback to an empty map on an error; a JSON null leaves the map nil. */
  function Decode(raw: RawObject): Option<Object> {
    match raw
    case Malformed => Some(map[])
    case NullLiteral => None
    case Parsed(fields) => Some(fields)
  }
}
