/** What conditions on the user mean, by the names configurations use: which value is compared, and how. */
module Operators {
  import opened Strings
  import opened Specs
  import opened Conditions
  import opened Evaluation
  import Versions

  // ----- Names, spelled in any case. -----

  lemma TypeNamesDiffer(s: CondType, t: CondType)
    requires TypeName(s) == TypeName(t)
    ensures s == t
  {
  }

  lemma OperatorNamesDiffer(a: Operator, b: Operator)
    requires OperatorName(a) == OperatorName(b)
    ensures a == b
  {
  }

  lemma TypeSpelled(cond: Condition, t: CondType)
    requires t in TYPES && ToLower(cond.ctype) == TypeName(t)
    ensures TypeOf(cond) == t
  {
    FoundType(ToLower(cond.ctype), TYPES);
    TypeNamesDiffer(TypeOf(cond), t);
  }

  lemma OperatorSpelled(cond: Condition, op: Operator)
    requires op in OPERATORS && ToLower(cond.operator) == OperatorName(op)
    ensures OperatorOf(cond) == op
  {
    FoundOperator(ToLower(cond.operator), OPERATORS);
    OperatorNamesDiffer(OperatorOf(cond), op);
  }

  // ----- Which value is compared. -----

  /** The unit a condition or rule is about: the user's id, or the custom id of that type under its own spelling, or
      under its lower-case spelling, or nothing. */
  lemma UnitMeans(user: User, idType: string)
    ensures var unit, lower := GetUnitID(user, idType), ToLower(idType);
            && (lower in {"", "userid"} ==> unit == user.userID)
            && (lower !in {"", "userid"} && idType in user.customIDs ==> unit == user.customIDs[idType])
            && (lower !in {"", "userid"} && idType !in user.customIDs ==>
                  unit == if lower in user.customIDs then user.customIDs[lower] else "")
  {
  }

  /** None of the user's own fields of this (lower-case) name holds anything. */
  predicate NoOwnField(user: User, lower: string) {
    && (lower in {"userid", "user_id"} ==> user.userID == "")
    && (lower == "email" ==> user.email == "")
    && (lower in {"ip", "ipaddress", "ip_address"} ==> user.ip == "")
    && (lower in {"useragent", "user_agent"} ==> user.userAgent == "")
    && (lower == "country" ==> user.country == "")
    && (lower == "locale" ==> user.locale == "")
    && (lower in {"appversion", "app_version"} ==> user.appVersion == "")
  }

  /** The user's own field of that name comes first. */
  lemma OwnFieldFirst(user: User, field: string)
    ensures var lower, value := ToLower(field), GetFromUser(user, field);
            && (lower in {"userid", "user_id"} && user.userID != "" ==> value == Str(user.userID))
            && (lower == "email" && user.email != "" ==> value == Str(user.email))
            && (lower in {"ip", "ipaddress", "ip_address"} && user.ip != "" ==> value == Str(user.ip))
            && (lower in {"useragent", "user_agent"} && user.userAgent != "" ==> value == Str(user.userAgent))
            && (lower == "country" && user.country != "" ==> value == Str(user.country))
            && (lower == "locale" && user.locale != "" ==> value == Str(user.locale))
            && (lower in {"appversion", "app_version"} && user.appVersion != "" ==> value == Str(user.appVersion))
  {
  }

  /** Then custom and after them private attributes, each under the field's own and then its lower-case spelling. */
  lemma AttributesNext(user: User, field: string)
    requires NoOwnField(user, ToLower(field))
    ensures var lower, value, c, p := ToLower(field), GetFromUser(user, field), user.custom, user.privateAttributes;
            && (field in c ==> value == c[field])
            && (field !in c && lower in c ==> value == c[lower])
            && (field !in c && lower !in c && field in p ==> value == p[field])
            && (field !in c && lower !in c && field !in p && lower in p ==> value == p[lower])
            && (field !in c && lower !in c && field !in p && lower !in p ==> value == Null || value == Str(""))
  {
  }

  /** The condition is of the type of this name. */
  predicate IsOf(cond: Condition, t: CondType) { t in TYPES && ToLower(cond.ctype) == TypeName(t) }

  lemma TypeNames()
    ensures TypeName(Public) == "public" && TypeName(PassGate) == "pass_gate" && TypeName(FailGate) == "fail_gate"
    ensures TypeName(IpBased) == "ip_based" && TypeName(UaBased) == "ua_based"
    ensures TypeName(UserAttribute) == "user_field" && TypeName(Environment) == "environment_field"
    ensures TypeName(CurrentTime) == "current_time" && TypeName(UserBucket) == "user_bucket"
    ensures TypeName(UnitID) == "unit_id"
  {
  }

  /** The value each type of condition compares. Where the user has no value for it, a country is looked up from the
      address, and a browser or system name from the user agent. */
  lemma Operands(w: World, cond: Condition, t: CondType)
    requires IsOf(cond, t)
    ensures var v, own, env := Operand(w, cond), GetFromUser(w.user, cond.field), w.user.environment;
            var unit, lower := GetUnitID(w.user, cond.idType), ToLower(cond.field);
            var ip, agent := GetFromUser(w.user, "ip"), GetFromUser(w.user, "useragent");
            && (t == UserAttribute ==> v == Some(own))
            && (t in {IpBased, UaBased} && own != Null && own != Str("") ==> v == Some(own))
            && (t == IpBased && (own == Null || own == Str("")) ==>
                  v == Some(Str(
                    if lower == "country" && ip.Str? && w.lib.country(ip.s).Some? then w.lib.country(ip.s).value
                    else "")))
            && (t == UaBased && (own == Null || own == Str("")) ==>
                  v == Some(Str(if agent.Str? then w.lib.agent(agent.s, lower) else "")))
            && (t == Environment ==>
                  v == Some(Str(
                    if lower in env then env[lower] else if cond.field in env then env[cond.field] else "")))
            && (t == CurrentTime ==> v == Some(Int(w.snap.now)))
            && (t == UserBucket && cond.salt.Some? ==>
                  v == Some(Int(w.lib.hash64(w.lib.formatS(cond.salt.value) + "." + unit) % 1000)))
            && (t == UserBucket && cond.salt.None? ==> v == Some(Null))
            && (t == UnitID ==> v == Some(Str(unit)))
  {
    TypeSpelled(cond, t);
  }

  // ----- How it is compared. -----

  /** The condition holds or not, without exposures. */
  function Says(pass: bool): Outcome<Result> { Done(ZERO.(pass := pass)) }

  lemma PublicHolds(w: World, cond: Condition, d: nat)
    requires ToLower(cond.ctype) == "public"
    ensures EvalCondition(w, cond, d) == Says(true)
  {
    TypeSpelled(cond, Public);
  }

  lemma OnOperand(w: World, cond: Condition, d: nat, v: Value)
    requires Operand(w, cond) == Some(v)
    ensures EvalCondition(w, cond, d) ==
            match Operate(w, OperatorOf(cond), v, cond.target)
            case Panic(why) => Panic(why)
            case Done(verdict) => Done(LeafResult(verdict))
  {
    assert !IsGateCondition(cond) && TypeOf(cond) != Public;
  }

  /** What a condition that compares `v` says, once its operator's name is known. */
  lemma Compared(w: World, cond: Condition, d: nat, v: Value, op: Operator)
    requires Applies(w, cond, v, op)
    ensures op !in {InSegment, NotInSegment} ==>
              EvalCondition(w, cond, d) == Says(Compare(w.lib, w.snap.now, op, v, cond.target))
    ensures op in {InSegment, NotInSegment} ==>
              EvalCondition(w, cond, d) ==
              match InSegmentList(w, v, cond.target)
              case Panic(why) => Panic(why)
              case Done(listed) => Says(if op == InSegment then listed else !listed)
  {
    OperatorSpelled(cond, op);
    OnOperand(w, cond, d, v);
    Operated(w, op, v, cond.target);
  }

  lemma Operated(w: World, op: Operator, v: Value, t: Value)
    requires op in OPERATORS
    ensures op !in {InSegment, NotInSegment} ==>
              Operate(w, op, v, t) == Done(Verdict(Compare(w.lib, w.snap.now, op, v, t), false))
    ensures op in {InSegment, NotInSegment} ==>
              Operate(w, op, v, t) ==
              match InSegmentList(w, v, t)
              case Panic(why) => Panic(why)
              case Done(listed) => Done(Verdict(if op == InSegment then listed else !listed, false))
  {
    assert op != UnknownOperator;
  }

  /** The condition compares `v`, by the operator of this name. */
  predicate Applies(w: World, cond: Condition, v: Value, op: Operator) {
    Operand(w, cond) == Some(v) && op in OPERATORS && ToLower(cond.operator) == OperatorName(op)
  }

  /** The operators' names, which configurations may spell in any case. */
  lemma NumberAndTimeNames()
    ensures OperatorName(Gt) == "gt" && OperatorName(Gte) == "gte"
    ensures OperatorName(Lt) == "lt" && OperatorName(Lte) == "lte"
    ensures OperatorName(Before) == "before" && OperatorName(After) == "after" && OperatorName(On) == "on"
  {
  }

  lemma VersionNames()
    ensures OperatorName(VersionGt) == "version_gt" && OperatorName(VersionGte) == "version_gte"
    ensures OperatorName(VersionLt) == "version_lt" && OperatorName(VersionLte) == "version_lte"
    ensures OperatorName(VersionEq) == "version_eq" && OperatorName(VersionNeq) == "version_neq"
  {
  }

  lemma ListNames()
    ensures OperatorName(AnyOf) == "any" && OperatorName(NoneOf) == "none"
    ensures OperatorName(AnyCaseSensitive) == "any_case_sensitive"
    ensures OperatorName(NoneCaseSensitive) == "none_case_sensitive"
    ensures OperatorName(StartsWithAny) == "str_starts_with_any" && OperatorName(EndsWithAny) == "str_ends_with_any"
    ensures OperatorName(ContainsAny) == "str_contains_any" && OperatorName(ContainsNone) == "str_contains_none"
  {
  }

  lemma OtherNames()
    ensures OperatorName(StrMatches) == "str_matches" && OperatorName(Eq) == "eq" && OperatorName(Neq) == "neq"
    ensures OperatorName(InSegment) == "in_segment_list" && OperatorName(NotInSegment) == "not_in_segment_list"
  {
  }

  /** The value reads as this number. */
  predicate ReadsAs(lib: Lib, v: Value, x: real) {
    match v
    case Int(i) => x == i as real
    case Float(r) => x == r
    case Str(s) => lib.parseFloat(s) == Some(x)
    case _ => false
  }

  lemma NumbersCompared(w: World, cond: Condition, d: nat, v: Value, op: Operator, x: real, y: real)
    requires Applies(w, cond, v, op) && ReadsAs(w.lib, v, x) && ReadsAs(w.lib, cond.target, y)
    ensures op == Gt ==> EvalCondition(w, cond, d) == Says(x > y)
    ensures op == Gte ==> EvalCondition(w, cond, d) == Says(x >= y)
    ensures op == Lt ==> EvalCondition(w, cond, d) == Says(x < y)
    ensures op == Lte ==> EvalCondition(w, cond, d) == Says(x <= y)
  {
    Compared(w, cond, d, v, op);
    NumbersMean(w.lib, w.snap.now, op, v, cond.target, x, y);
  }

  lemma NumbersMean(lib: Lib, now: int, op: Operator, v: Value, t: Value, x: real, y: real)
    requires ReadsAs(lib, v, x) && ReadsAs(lib, t, y)
    ensures op == Gt ==> Compare(lib, now, op, v, t) == (x > y)
    ensures op == Gte ==> Compare(lib, now, op, v, t) == (x >= y)
    ensures op == Lt ==> Compare(lib, now, op, v, t) == (x < y)
    ensures op == Lte ==> Compare(lib, now, op, v, t) == (x <= y)
  {
    assert GetNumericValue(lib, v) == Some(x) && GetNumericValue(lib, t) == Some(y);
  }

  /** What is no number satisfies none of the four. */
  lemma NotNumbers(w: World, cond: Condition, d: nat, v: Value, op: Operator)
    requires Applies(w, cond, v, op) && op in {Gt, Gte, Lt, Lte}
    requires (forall x :: !ReadsAs(w.lib, v, x)) || (forall y :: !ReadsAs(w.lib, cond.target, y))
    ensures EvalCondition(w, cond, d) == Says(false)
  {
    Compared(w, cond, d, v, op);
    NoNumber(w.lib, v);
    NoNumber(w.lib, cond.target);
    NeverHolds(w.lib, w.snap.now, op, v, cond.target);
  }

  lemma NoNumber(lib: Lib, v: Value)
    ensures (forall x :: !ReadsAs(lib, v, x)) ==> GetNumericValue(lib, v) == None
  {
    if GetNumericValue(lib, v).Some? {
      assert ReadsAs(lib, v, GetNumericValue(lib, v).value);
    }
  }

  lemma NeverHolds(lib: Lib, now: int, op: Operator, v: Value, t: Value)
    requires op in {Gt, Gte, Lt, Lte} && (GetNumericValue(lib, v) == None || GetNumericValue(lib, t) == None)
    ensures !Compare(lib, now, op, v, t)
  {
  }

  /** What a version string is compared by: what comes before its first dash. */
  predicate BeforeDash(s: string, u: string) {
    (forall c <- u :: c != '-') && (s == u || u + "-" <= s)
  }

  lemma {:induction false} NothingToSplit(u: string, sep: char)
    requires forall c <- u :: c != sep
    ensures Split(u, sep) == [u]
  {
    if u != "" {
      assert u[0] in u && forall c <- u[1..] :: c in u;
      NothingToSplit(u[1..], sep);
      assert [u[0]] + u[1..] == u;
    }
  }

  lemma VersionBeforeDash(s: string, u: string)
    requires BeforeDash(s, u)
    ensures VersionOf(Str(s)) == if u == "" then None else Some(u)
  {
    NothingToSplit(u, '-');
    if s != u {
      var rest := s[|u| + 1..];
      assert s == u + ['-'] + rest;
      SplitAtSeparator(u, '-', rest);
    }
  }

  /** Versions are compared by what comes before their first dash, and not at all if that is empty. */
  lemma VersionsCompared(
    w: World, cond: Condition, d: nat, op: Operator, s: string, t: string, u: string, v: string)
    requires Applies(w, cond, Str(s), op) && cond.target == Str(t) && BeforeDash(s, u) && BeforeDash(t, v)
    ensures var usable := u != "" && v != "";
            var lt, gt := usable && Versions.Precedes(u, v), usable && Versions.Precedes(v, u);
            var eq := usable && Versions.SameVersion(u, v);
            && (op == VersionLt ==> EvalCondition(w, cond, d) == Says(lt))
            && (op == VersionLte ==> EvalCondition(w, cond, d) == Says(lt || eq))
            && (op == VersionGt ==> EvalCondition(w, cond, d) == Says(gt))
            && (op == VersionGte ==> EvalCondition(w, cond, d) == Says(gt || eq))
            && (op == VersionEq ==> EvalCondition(w, cond, d) == Says(eq))
            && (op == VersionNeq ==> EvalCondition(w, cond, d) == Says(lt || gt))
  {
    Compared(w, cond, d, Str(s), op);
    VersionPartsMean(w.lib, w.snap.now, s, t, u, v);
  }

  lemma VersionPartsMean(lib: Lib, now: int, s: string, t: string, u: string, v: string)
    requires BeforeDash(s, u) && BeforeDash(t, v)
    ensures var usable, a, b := u != "" && v != "", Str(s), Str(t);
            var lt, gt := usable && Versions.Precedes(u, v), usable && Versions.Precedes(v, u);
            var eq := usable && Versions.SameVersion(u, v);
            && (Compare(lib, now, VersionLt, a, b) <==> lt) && (Compare(lib, now, VersionLte, a, b) <==> lt || eq)
            && (Compare(lib, now, VersionGt, a, b) <==> gt) && (Compare(lib, now, VersionGte, a, b) <==> gt || eq)
            && (Compare(lib, now, VersionEq, a, b) <==> eq) && (Compare(lib, now, VersionNeq, a, b) <==> lt || gt)
  {
    VersionBeforeDash(s, u);
    VersionBeforeDash(t, v);
    VersionsMean(lib, now, Str(s), Str(t));
  }

  /** `VersionOperators`, with what "greater" means. */
  lemma VersionsMean(lib: Lib, now: int, a: Value, b: Value)
    ensures var usable := VersionOf(a).Some? && VersionOf(b).Some?;
            var lt := usable && Versions.Precedes(VersionOf(a).value, VersionOf(b).value);
            var gt := usable && Versions.Precedes(VersionOf(b).value, VersionOf(a).value);
            var eq := usable && Versions.SameVersion(VersionOf(a).value, VersionOf(b).value);
            && (Compare(lib, now, VersionLt, a, b) <==> lt) && (Compare(lib, now, VersionLte, a, b) <==> lt || eq)
            && (Compare(lib, now, VersionGt, a, b) <==> gt) && (Compare(lib, now, VersionGte, a, b) <==> gt || eq)
            && (Compare(lib, now, VersionEq, a, b) <==> eq) && (Compare(lib, now, VersionNeq, a, b) <==> lt || gt)
  {
    VersionOperators(lib, now, a, b);
    GreaterMeans(lib, now, a, b);
  }

  lemma GreaterMeans(lib: Lib, now: int, a: Value, b: Value)
    ensures Compare(lib, now, VersionGt, a, b) <==>
            VersionOf(a).Some? && VersionOf(b).Some? && Versions.Precedes(VersionOf(b).value, VersionOf(a).value)
  {
    if VersionOf(a).Some? && VersionOf(b).Some? {
      Versions.TotalPreorder(VersionOf(a).value, VersionOf(b).value, "");
      Versions.CompareMeans(VersionOf(a).value, VersionOf(b).value);
    }
  }

  lemma NotVersions(w: World, cond: Condition, d: nat, v: Value, op: Operator)
    requires Applies(w, cond, v, op) && (!v.Str? || !cond.target.Str?)
    requires op in {VersionLt, VersionLte, VersionGt, VersionGte, VersionEq, VersionNeq}
    ensures EvalCondition(w, cond, d) == Says(false)
  {
    Compared(w, cond, d, v, op);
    VersionsMean(w.lib, w.snap.now, v, cond.target);
  }

  /** The text a value is compared as. */
  function Text(lib: Lib, v: Value): string { if v.Str? then v.s else lib.formatV(v) }

  datatype Likeness = Same | Start | End | Part

  /** `e` is the text, starts it, ends it or is a part of it. */
  predicate Like(kind: Likeness, text: string, e: string) {
    match kind
    case Same => text == e
    case Start => e <= text
    case End => |e| <= |text| && text[|text| - |e|..] == e
    case Part => exists i :: 0 <= i <= |text| && e <= text[i..]
  }

  function Folded(fold: bool, s: string): string { if fold then ToLower(s) else s }

  /** The target is a list, and one of its elements, not null, is like the value. */
  predicate SomeLike(lib: Lib, target: Value, v: Value, kind: Likeness, fold: bool) {
    target.Arr? && exists e <- target.elements ::
      e != Null && Like(kind, Folded(fold, Text(lib, v)), Folded(fold, Text(lib, e)))
  }

  lemma AnyStringMeans(lib: Lib, t: Value, v: Value, fold: bool, f: (string, string) -> bool, kind: Likeness)
    requires v != Null && forall x, y :: f(x, y) <==> Like(kind, x, y)
    ensures AnyString(lib, t, v, fold, f) <==> SomeLike(lib, t, v, kind, fold)
  {
    if t.Arr? {
      forall i | 0 <= i < |t.elements|
        ensures CompareStrings(lib, v, t.elements[i], fold, f) <==>
                t.elements[i] != Null &&
                Like(kind, Folded(fold, Text(lib, v)), Folded(fold, Text(lib, t.elements[i])))
      {
      }
    }
  }

  lemma ListsMean(lib: Lib, now: int, v: Value, t: Value, op: Operator)
    requires v != Null
    ensures op == AnyOf ==> Compare(lib, now, op, v, t) == SomeLike(lib, t, v, Same, true)
    ensures op == NoneOf ==> Compare(lib, now, op, v, t) == !SomeLike(lib, t, v, Same, true)
    ensures op == AnyCaseSensitive ==> Compare(lib, now, op, v, t) == SomeLike(lib, t, v, Same, false)
    ensures op == NoneCaseSensitive ==> Compare(lib, now, op, v, t) == !SomeLike(lib, t, v, Same, false)
  {
    var equals := (x: string, y: string) => x == y;
    AnyStringMeans(lib, t, v, true, equals, Same);
    AnyStringMeans(lib, t, v, false, equals, Same);
  }

  lemma PartsMean(lib: Lib, now: int, v: Value, t: Value, op: Operator)
    requires v != Null
    ensures op == StartsWithAny ==> Compare(lib, now, op, v, t) == SomeLike(lib, t, v, Start, true)
    ensures op == EndsWithAny ==> Compare(lib, now, op, v, t) == SomeLike(lib, t, v, End, true)
    ensures op == ContainsAny ==> Compare(lib, now, op, v, t) == SomeLike(lib, t, v, Part, true)
    ensures op == ContainsNone ==> Compare(lib, now, op, v, t) == !SomeLike(lib, t, v, Part, true)
  {
    AnyStringMeans(lib, t, v, true, HasPrefix, Start);
    AnyStringMeans(lib, t, v, true, HasSuffix, End);
    AnyStringMeans(lib, t, v, true, Contains, Part);
  }

  /** The list operators: some element of the target is equal to the value, starts it, ends it or is a part of it, or
      none is; except for the two case-sensitive ones in any case. */
  lemma ListsCompared(w: World, cond: Condition, d: nat, v: Value, op: Operator)
    requires Applies(w, cond, v, op) && v != Null
    ensures var r, t := EvalCondition(w, cond, d), cond.target;
            && (op == AnyOf ==> r == Says(SomeLike(w.lib, t, v, Same, true)))
            && (op == NoneOf ==> r == Says(!SomeLike(w.lib, t, v, Same, true)))
            && (op == AnyCaseSensitive ==> r == Says(SomeLike(w.lib, t, v, Same, false)))
            && (op == NoneCaseSensitive ==> r == Says(!SomeLike(w.lib, t, v, Same, false)))
            && (op == StartsWithAny ==> r == Says(SomeLike(w.lib, t, v, Start, true)))
            && (op == EndsWithAny ==> r == Says(SomeLike(w.lib, t, v, End, true)))
            && (op == ContainsAny ==> r == Says(SomeLike(w.lib, t, v, Part, true)))
            && (op == ContainsNone ==> r == Says(!SomeLike(w.lib, t, v, Part, true)))
  {
    Compared(w, cond, d, v, op);
    ListsMean(w.lib, w.snap.now, v, cond.target, op);
    PartsMean(w.lib, w.snap.now, v, cond.target, op);
  }

  /** The other operators. A missing target equals a missing or empty value. */
  lemma OthersCompared(w: World, cond: Condition, d: nat, v: Value, op: Operator)
    requires Applies(w, cond, v, op)
    ensures var r, t := EvalCondition(w, cond, d), cond.target;
            var equal := if t == Null then v == Null || v == Str("") else v == t;
            && (op == Eq ==> r == Says(equal)) && (op == Neq ==> r == Says(!equal))
            && (op == Before ==> r == Says(w.lib.before(w.snap.now, v, t)))
            && (op == After ==> r == Says(w.lib.after(w.snap.now, v, t)))
            && (op == On ==> r == Says(w.lib.sameDay(w.snap.now, v, t)))
            && (op == StrMatches && t != Null && v != Null ==>
                  r == Says(w.lib.matches(if t.Str? then t.s else "", if v.Str? then v.s else "")))
            && (op == StrMatches && (t == Null || v == Null) ==> r == Says(t == v))
  {
    Compared(w, cond, d, v, op);
    OthersMean(w.lib, w.snap.now, v, cond.target);
  }

  lemma OthersMean(lib: Lib, now: int, v: Value, t: Value)
    ensures Compare(lib, now, Eq, v, t) == (if t == Null then v == Null || v == Str("") else v == t)
    ensures Compare(lib, now, Neq, v, t) == !Compare(lib, now, Eq, v, t)
    ensures Compare(lib, now, Before, v, t) == lib.before(now, v, t)
    ensures Compare(lib, now, After, v, t) == lib.after(now, v, t)
    ensures Compare(lib, now, On, v, t) == lib.sameDay(now, v, t)
    ensures Compare(lib, now, StrMatches, v, t) ==
            if t == Null || v == Null then t == v
            else lib.matches(if t.Str? then t.s else "", if v.Str? then v.s else "")
  {
  }

  /** A user value is in a segment if its key is in the stored list of that name; no list means no; a list whose ids
      were never allocated panics. */
  lemma SegmentsCompared(w: World, cond: Condition, d: nat, op: Operator, s: string, list: string)
    requires Applies(w, cond, Str(s), op) && op in {InSegment, NotInSegment} && cond.target == Str(list)
    ensures var r, lists := EvalCondition(w, cond, d), w.snap.idLists;
            var listed := list in lists && lists[list].Some? && w.lib.segmentKey(s) in lists[list].value;
            if list in lists && lists[list].None? then r == Panic(NilDereference)
            else r == Says(if op == InSegment then listed else !listed)
  {
    Compared(w, cond, d, Str(s), op);
  }

  // ----- The percentage rollout. -----

  /** A user is let in by the bucket of 10000 that the salts and the unit are hashed to. */
  lemma RolloutMeans(lib: Lib, user: User, rule: Rule, spec: Spec)
    ensures var salt := if rule.salt != "" then rule.salt else rule.id;
            var bucket := lib.hash64(spec.salt + "." + salt + "." + GetUnitID(user, rule.idType)) % 10000;
            EvalPassPercent(lib, user, rule, spec) <==> bucket as real < rule.passPercentage * 100.0
  {
  }

  /** Raising the percentage lets nobody out; nobody is in at 0 and everybody at 100; users of the same unit get the
      same answer. */
  lemma RolloutGrows(lib: Lib, user: User, other: User, rule: Rule, spec: Spec, more: real)
    requires rule.passPercentage <= more && GetUnitID(user, rule.idType) == GetUnitID(other, rule.idType)
    ensures EvalPassPercent(lib, user, rule, spec) ==> EvalPassPercent(lib, other, rule.(passPercentage := more), spec)
    ensures !EvalPassPercent(lib, user, rule.(passPercentage := 0.0), spec)
    ensures EvalPassPercent(lib, user, rule.(passPercentage := 100.0), spec)
  {
    RolloutMeans(lib, user, rule, spec);
    RolloutMeans(lib, other, rule.(passPercentage := more), spec);
  }
}
