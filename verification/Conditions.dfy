/** Conditions that look at the user, the clock and the ID lists, but at no other gate. */
module Conditions {
  import opened Strings
  import opened Specs
  import Versions

  /** Library code the evaluator calls; nothing is assumed about any of these functions. The time
      comparisons also read the clock, to tell seconds from milliseconds. */
  datatype Lib = Lib(
    hash64: string -> nat,
    responseName: string -> string,
    segmentKey: string -> string,
    formatS: Value -> string,
    formatV: Value -> string,
    parseFloat: string -> Option<real>,
    matches: (string, string) -> bool,
    country: string -> Option<string>,
    agent: (string, string) -> string,
    before: (int, Value, Value) -> bool,
    after: (int, Value, Value) -> bool,
    sameDay: (int, Value, Value) -> bool)

  /** What an evaluation runs in. */
  datatype World = World(lib: Lib, user: User, snap: Snapshot)

  function GetUnitID(user: User, idType: string): string {
    if idType != "" && ToLower(idType) != "userid" then
      if idType in user.customIDs then user.customIDs[idType]
      else if ToLower(idType) in user.customIDs then user.customIDs[ToLower(idType)]
      else ""
    else user.userID
  }

  function EvalPassPercent(lib: Lib, user: User, rule: Rule, spec: Spec): bool {
    var ruleSalt := if rule.salt == "" then rule.id else rule.salt;
    var hash := lib.hash64(spec.salt + "." + ruleSalt + "." + GetUnitID(user, rule.idType));
    (hash % 10000) as real < rule.passPercentage * 100.0
  }

  function UserField(user: User, field: string): Value {
    if field in ["userid", "user_id"] then Str(user.userID)
    else if field == "email" then Str(user.email)
    else if field in ["ip", "ipaddress", "ip_address"] then Str(user.ip)
    else if field in ["useragent", "user_agent"] then
      if user.userAgent != "" then Str(user.userAgent) else Null
    else if field == "country" then Str(user.country)
    else if field == "locale" then Str(user.locale)
    else if field in ["appversion", "app_version"] then Str(user.appVersion)
    else Null
  }

  predicate Blank(v: Value) { v == Null || v == Str("") }

  function GetFromUser(user: User, field: string): Value {
    var value := UserField(user, ToLower(field));
    if !Blank(value) then value
    else if field in user.custom then user.custom[field]
    else if ToLower(field) in user.custom then user.custom[ToLower(field)]
    else if field in user.privateAttributes then user.privateAttributes[field]
    else if ToLower(field) in user.privateAttributes then user.privateAttributes[ToLower(field)]
    else value
  }

  function GetFromEnvironment(user: User, field: string): string {
    if ToLower(field) in user.environment then user.environment[ToLower(field)]
    else if field in user.environment then user.environment[field]
    else ""
  }

  function GetFromUserAgent(lib: Lib, user: User, field: string): string {
    var ua := GetFromUser(user, "useragent");
    if ua.Str? then lib.agent(ua.s, ToLower(field)) else ""
  }

  function GetFromIP(lib: Lib, user: User, field: string): string {
    var ip := GetFromUser(user, "ip");
    if ToLower(field) == "country" && ip.Str? && lib.country(ip.s).Some? then lib.country(ip.s).value else ""
  }

  datatype CondType =
    | Public | PassGate | FailGate | IpBased | UaBased | UserAttribute | Environment | CurrentTime | UserBucket
    | UnitID | UnknownType

  const TYPES := [
    Public, PassGate, FailGate, IpBased, UaBased, UserAttribute, Environment, CurrentTime, UserBucket, UnitID]

  /** The spelling of each condition type in lower case. */
  function TypeName(t: CondType): string {
    match t
    case Public => "public"
    case PassGate => "pass_gate"
    case FailGate => "fail_gate"
    case IpBased => "ip_based"
    case UaBased => "ua_based"
    case UserAttribute => "user_field"
    case Environment => "environment_field"
    case CurrentTime => "current_time"
    case UserBucket => "user_bucket"
    case UnitID => "unit_id"
    case UnknownType => ""
  }

  function FindType(name: string, types: seq<CondType>): CondType {
    if types == [] then UnknownType
    else if TypeName(types[0]) == name then types[0]
    else FindType(name, types[1..])
  }

  /** A condition type is unknown exactly when its name is none of the listed spellings. */
  lemma {:induction false} FoundType(name: string, types: seq<CondType>)
    requires UnknownType !in types
    ensures FindType(name, types) == UnknownType <==> forall t <- types :: TypeName(t) != name
    ensures FindType(name, types) != UnknownType ==> TypeName(FindType(name, types)) == name
  {
    if types != [] {
      FoundType(name, types[1..]);
      assert forall t :: t in types <==> t == types[0] || t in types[1..];
    }
  }

  function TypeOf(cond: Condition): CondType { FindType(ToLower(cond.ctype), TYPES) }

  /** The value a condition compares, or `None` when its type calls for no comparison. */
  function Operand(w: World, cond: Condition): Option<Value> {
    var field := GetFromUser(w.user, cond.field);
    match TypeOf(cond)
    case IpBased => Some(if Blank(field) then Str(GetFromIP(w.lib, w.user, cond.field)) else field)
    case UaBased => Some(if Blank(field) then Str(GetFromUserAgent(w.lib, w.user, cond.field)) else field)
    case UserAttribute => Some(field)
    case Environment => Some(Str(GetFromEnvironment(w.user, cond.field)))
    case CurrentTime => Some(Int(w.snap.now))
    case UserBucket =>
      if cond.salt.None? then Some(Null)
      else Some(Int(w.lib.hash64(w.lib.formatS(cond.salt.value) + "." + GetUnitID(w.user, cond.idType)) % 1000))
    case UnitID => Some(Str(GetUnitID(w.user, cond.idType)))
    case _ => None
  }

  function GetNumericValue(lib: Lib, v: Value): Option<real> {
    match v
    case Int(i) => Some(i as real)
    case Float(r) => Some(r)
    case Str(s) => lib.parseFloat(s)
    case _ => None
  }

  predicate CompareNumbers(lib: Lib, a: Value, b: Value, f: (real, real) -> bool) {
    var x, y := GetNumericValue(lib, a), GetNumericValue(lib, b);
    x.Some? && y.Some? && f(x.value, y.value)
  }

  /** The part of a version value before its first dash, when there is one to compare. */
  function VersionOf(v: Value): Option<string> {
    if v.Str? && Split(v.s, '-')[0] != "" then Some(Split(v.s, '-')[0]) else None
  }

  predicate CompareVersions(a: Value, b: Value, f: int -> bool) {
    var u, v := VersionOf(a), VersionOf(b);
    u.Some? && v.Some? && f(Versions.Compare(u.value, v.value))
  }

  predicate CompareStrings(lib: Lib, a: Value, b: Value, ignoreCase: bool, f: (string, string) -> bool) {
    var s, t := if a.Str? then a.s else lib.formatV(a), if b.Str? then b.s else lib.formatV(b);
    a != Null && b != Null && if ignoreCase then f(ToLower(s), ToLower(t)) else f(s, t)
  }

  predicate AnyMatches(arr: Value, val: Value, f: (Value, Value) -> bool) {
    arr.Arr? && exists i :: 0 <= i < |arr.elements| && f(val, arr.elements[i])
  }

  method ArrayAny(arr: Value, val: Value, f: (Value, Value) -> bool) returns (found: bool)
    ensures found == AnyMatches(arr, val, f)
  {
    if arr.Arr? {
      for i := 0 to |arr.elements|
        invariant forall j :: 0 <= j < i ==> !f(val, arr.elements[j])
      {
        if f(val, arr.elements[i]) {
          return true;
        }
      }
    }
    return false;
  }

  predicate AnyString(lib: Lib, arr: Value, val: Value, ignoreCase: bool, f: (string, string) -> bool) {
    AnyMatches(arr, val, (x, y) => CompareStrings(lib, x, y, ignoreCase, f))
  }

  datatype Verdict = Verdict(pass: bool, server: bool)

  /** Only strings name a list or a member; asking for the type of nil panics, and so does a list without ids. */
  function InSegmentList(w: World, value: Value, target: Value): Outcome<bool> {
    if target == Null then Panic(NilDereference)
    else if !target.Str? then Done(false)
    else if value == Null then Panic(NilDereference)
    else if !value.Str? || target.s !in w.snap.idLists then Done(false)
    else if w.snap.idLists[target.s].None? then Panic(NilDereference)
    else Done(w.lib.segmentKey(value.s) in w.snap.idLists[target.s].value)
  }

  datatype Operator =
    | Gt | Gte | Lt | Lte
    | VersionGt | VersionGte | VersionLt | VersionLte | VersionEq | VersionNeq
    | AnyOf | NoneOf | AnyCaseSensitive | NoneCaseSensitive
    | StartsWithAny | EndsWithAny | ContainsAny | ContainsNone | StrMatches
    | Eq | Neq | Before | After | On
    | InSegment | NotInSegment | UnknownOperator

  const OPERATORS := [
    Gt, Gte, Lt, Lte, VersionGt, VersionGte, VersionLt, VersionLte, VersionEq, VersionNeq,
    AnyOf, NoneOf, AnyCaseSensitive, NoneCaseSensitive, StartsWithAny, EndsWithAny, ContainsAny, ContainsNone,
    StrMatches, Eq, Neq, Before, After, On, InSegment, NotInSegment]

  /** The spelling of each operator in lower case. */
  function OperatorName(op: Operator): string {
    match op
    case Gt => "gt" case Gte => "gte" case Lt => "lt" case Lte => "lte"
    case VersionGt => "version_gt" case VersionGte => "version_gte"
    case VersionLt => "version_lt" case VersionLte => "version_lte"
    case VersionEq => "version_eq" case VersionNeq => "version_neq"
    case AnyOf => "any" case NoneOf => "none"
    case AnyCaseSensitive => "any_case_sensitive" case NoneCaseSensitive => "none_case_sensitive"
    case StartsWithAny => "str_starts_with_any" case EndsWithAny => "str_ends_with_any"
    case ContainsAny => "str_contains_any" case ContainsNone => "str_contains_none"
    case StrMatches => "str_matches"
    case Eq => "eq" case Neq => "neq"
    case Before => "before" case After => "after" case On => "on"
    case InSegment => "in_segment_list" case NotInSegment => "not_in_segment_list"
    case UnknownOperator => ""
  }

  function FindOperator(name: string, ops: seq<Operator>): Operator {
    if ops == [] then UnknownOperator
    else if OperatorName(ops[0]) == name then ops[0]
    else FindOperator(name, ops[1..])
  }

  /** An operator is unknown exactly when its name is none of the listed spellings. */
  lemma {:induction false} FoundOperator(name: string, ops: seq<Operator>)
    requires UnknownOperator !in ops
    ensures FindOperator(name, ops) == UnknownOperator <==> forall op <- ops :: OperatorName(op) != name
    ensures FindOperator(name, ops) != UnknownOperator ==> OperatorName(FindOperator(name, ops)) == name
  {
    if ops != [] {
      FoundOperator(name, ops[1..]);
      assert forall op :: op in ops <==> op == ops[0] || op in ops[1..];
    }
  }

  function OperatorOf(cond: Condition): Operator { FindOperator(ToLower(cond.operator), OPERATORS) }

  predicate UsesSegmentList(cond: Condition) { OperatorOf(cond) in {InSegment, NotInSegment} }

  /** Every operator that neither panics nor is unknown. */
  predicate Compare(lib: Lib, now: int, op: Operator, v: Value, t: Value) {
    var equals := (x: string, y: string) => x == y;
    match op
    case Gt => CompareNumbers(lib, v, t, (x, y) => x > y)
    case Gte => CompareNumbers(lib, v, t, (x, y) => x >= y)
    case Lt => CompareNumbers(lib, v, t, (x, y) => x < y)
    case Lte => CompareNumbers(lib, v, t, (x, y) => x <= y)
    case VersionGt => CompareVersions(v, t, c => c > 0)
    case VersionGte => CompareVersions(v, t, c => c >= 0)
    case VersionLt => CompareVersions(v, t, c => c < 0)
    case VersionLte => CompareVersions(v, t, c => c <= 0)
    case VersionEq => CompareVersions(v, t, c => c == 0)
    case VersionNeq => CompareVersions(v, t, c => c != 0)
    case AnyOf => AnyString(lib, t, v, true, equals)
    case NoneOf => !AnyString(lib, t, v, true, equals)
    case AnyCaseSensitive => AnyString(lib, t, v, false, equals)
    case NoneCaseSensitive => !AnyString(lib, t, v, false, equals)
    case StartsWithAny => AnyString(lib, t, v, true, HasPrefix)
    case EndsWithAny => AnyString(lib, t, v, true, HasSuffix)
    case ContainsAny => AnyString(lib, t, v, true, Contains)
    case ContainsNone => !AnyString(lib, t, v, true, Contains)
    case StrMatches =>
      if t == Null || v == Null then t == v
      else lib.matches(if t.Str? then t.s else "", if v.Str? then v.s else "")
    case Eq => StrictlyEqual(v, t)
    case Neq => !StrictlyEqual(v, t)
    case Before => lib.before(now, v, t)
    case After => lib.after(now, v, t)
    case On => lib.sameDay(now, v, t)
    case _ => false
  }

  predicate StrictlyEqual(v: Value, t: Value) {
    if t == Null then Blank(v) else v == t
  }

  function Operate(w: World, op: Operator, value: Value, target: Value): Outcome<Verdict> {
    match op
    case UnknownOperator => Done(Verdict(false, true))
    case InSegment =>
      var listed :- InSegmentList(w, value, target);
      Done(Verdict(listed, false))
    case NotInSegment =>
      var listed :- InSegmentList(w, value, target);
      Done(Verdict(!listed, false))
    case _ => Done(Verdict(Compare(w.lib, w.snap.now, op, value, target), false))
  }

  /** The outcome of a condition that is not about another gate. */
  function Leaf(w: World, cond: Condition): (o: Outcome<Verdict>)
    ensures o.Done? && o.value.server ==> !o.value.pass
  {
    if TypeOf(cond) == Public then Done(Verdict(true, false))
    else
      match Operand(w, cond)
      case None => Done(Verdict(false, true))
      case Some(value) => Operate(w, OperatorOf(cond), value, cond.target)
  }

  /** For two usable version values exactly one of lt, eq and gt holds and the other three are its combinations;
      for any other pair all six are false. */
  lemma VersionOperators(lib: Lib, now: int, a: Value, b: Value)
    ensures var usable := VersionOf(a).Some? && VersionOf(b).Some?;
            var lt, eq := Compare(lib, now, VersionLt, a, b), Compare(lib, now, VersionEq, a, b);
            var gt := Compare(lib, now, VersionGt, a, b);
            && (usable ==> lt || eq || gt)
            && !(lt && eq) && !(lt && gt) && !(eq && gt)
            && (Compare(lib, now, VersionLte, a, b) <==> lt || eq)
            && (Compare(lib, now, VersionGte, a, b) <==> gt || eq)
            && (Compare(lib, now, VersionNeq, a, b) <==> lt || gt)
            && (lt <==> usable && Versions.Precedes(VersionOf(a).value, VersionOf(b).value))
            && (eq <==> usable && Versions.SameVersion(VersionOf(a).value, VersionOf(b).value))
  {
    if VersionOf(a).Some? && VersionOf(b).Some? {
      Versions.TotalPreorder(VersionOf(a).value, VersionOf(b).value, "");
      Versions.CompareMeans(VersionOf(a).value, VersionOf(b).value);
    }
  }
}
