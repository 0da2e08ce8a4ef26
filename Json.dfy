/** JSON material definitions as the material loaders read them: an object is a map from member
    names to values, and the member accessors of GameCore/Utils.h either yield the member or
    fail. Utils.h is not part of this model: the accessors stand for it, and their failures are
    kept as structured errors rather than as the text of its messages. */
module Json {
  import opened Wrappers

  datatype Json =
    | JNull
    | JBool(b: bool)
    | JNumber(num: real)
    | JString(str: string)
    | JArray(items: seq<Json>)
    | JObject(members: map<string, Json>)

  type JsonObject = map<string, Json>

  /** A GameException, or a failure of a member accessor. `Rethrown(context, inner)` is the
      exception a catch block throws with the message `context + inner.what()`. */
  datatype Error =
    | GameException(message: string)
    | MemberNotFound(memberName: string)
    | MemberWrongType(memberName: string)
    | Rethrown(context: string, inner: Error)

  /** The value of a number member, or `default` when there is no such number. */
  function NumberOr(obj: JsonObject, name: string, default: real): real {
    if name in obj && obj[name].JNumber? then obj[name].num else default
  }

  function StringOr(obj: JsonObject, name: string, default: string): string {
    if name in obj && obj[name].JString? then obj[name].str else default
  }

  function BoolOr(obj: JsonObject, name: string, default: bool): bool {
    if name in obj && obj[name].JBool? then obj[name].b else default
  }

  function GetMandatoryString(obj: JsonObject, name: string): (r: Result<string, Error>)
    ensures r.Success? <==> name in obj && obj[name].JString?
    ensures r.Success? ==> r.value == StringOr(obj, name, "")
    ensures r.Failure? ==> r.error == (if name in obj then MemberWrongType(name) else MemberNotFound(name))
  {
    if name !in obj then Failure(MemberNotFound(name))
    else if obj[name].JString? then Success(obj[name].str)
    else Failure(MemberWrongType(name))
  }

  function GetMandatoryNumber(obj: JsonObject, name: string): (r: Result<real, Error>)
    ensures r.Success? <==> name in obj && obj[name].JNumber?
    ensures r.Success? ==> r.value == NumberOr(obj, name, 0.0)
    ensures r.Failure? ==> r.error == (if name in obj then MemberWrongType(name) else MemberNotFound(name))
  {
    if name !in obj then Failure(MemberNotFound(name))
    else if obj[name].JNumber? then Success(obj[name].num)
    else Failure(MemberWrongType(name))
  }

  /** A member read as int64_t: a number with no fractional part. */
  function GetMandatoryInteger(obj: JsonObject, name: string): (r: Result<int, Error>)
    ensures r.Success? <==> name in obj && obj[name].JNumber? && obj[name].num.Floor as real == obj[name].num
    ensures r.Success? ==> r.value as real == NumberOr(obj, name, 0.0)
  {
    if name !in obj then Failure(MemberNotFound(name))
    else if obj[name].JNumber? && obj[name].num.Floor as real == obj[name].num then Success(obj[name].num.Floor)
    else Failure(MemberWrongType(name))
  }

  function GetMandatoryBool(obj: JsonObject, name: string): (r: Result<bool, Error>)
    ensures r.Success? <==> name in obj && obj[name].JBool?
    ensures r.Success? ==> r.value == BoolOr(obj, name, false)
  {
    if name !in obj then Failure(MemberNotFound(name))
    else if obj[name].JBool? then Success(obj[name].b)
    else Failure(MemberWrongType(name))
  }

  function GetMandatoryObject(obj: JsonObject, name: string): (r: Result<JsonObject, Error>)
    ensures r.Success? <==> name in obj && obj[name].JObject?
    ensures r.Success? ==> r.value == obj[name].members
  {
    if name !in obj then Failure(MemberNotFound(name))
    else if obj[name].JObject? then Success(obj[name].members)
    else Failure(MemberWrongType(name))
  }

  /** An optional member: the default when it is absent, a failure when it has the wrong
      type. */
  function GetOptionalNumber(obj: JsonObject, name: string, default: real): (r: Result<real, Error>)
    ensures r.Success? <==> name !in obj || obj[name].JNumber?
    ensures r.Success? ==> r.value == NumberOr(obj, name, default)
  {
    if name !in obj then Success(default)
    else if obj[name].JNumber? then Success(obj[name].num)
    else Failure(MemberWrongType(name))
  }

  function GetOptionalBool(obj: JsonObject, name: string, default: bool): (r: Result<bool, Error>)
    ensures r.Success? <==> name !in obj || obj[name].JBool?
    ensures r.Success? ==> r.value == BoolOr(obj, name, default)
  {
    if name !in obj then Success(default)
    else if obj[name].JBool? then Success(obj[name].b)
    else Failure(MemberWrongType(name))
  }

  function GetOptionalString(obj: JsonObject, name: string): (r: Result<Option<string>, Error>)
    ensures r.Success? <==> name !in obj || obj[name].JString?
    ensures r.Success? ==> (r.value.Some? <==> name in obj) && (r.value.Some? ==> r.value.value == obj[name].str)
  {
    if name !in obj then Success(None)
    else if obj[name].JString? then Success(Some(obj[name].str))
    else Failure(MemberWrongType(name))
  }

  function GetOptionalObject(obj: JsonObject, name: string): (r: Result<Option<JsonObject>, Error>)
    ensures r.Success? <==> name !in obj || obj[name].JObject?
    ensures r.Success? ==> (r.value.Some? <==> name in obj) && (r.value.Some? ==> r.value.value == obj[name].members)
  {
    if name !in obj then Success(None)
    else if obj[name].JObject? then Success(Some(obj[name].members))
    else Failure(MemberWrongType(name))
  }
}
