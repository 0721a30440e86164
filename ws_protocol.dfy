/**
 * The shared wire protocol: the two message-type catalogues and the client's
 * `isServerMessage` guard over an arbitrary JavaScript value.
 */
module WsProtocol {
  import opened Options
  import opened LinkedMaps

  /** `ClientMessageType`: what a browser may send. */
  const CLIENT_MESSAGE_TYPES: set<string> :=
    {"join_room", "leave_room", "signal_offer", "signal_answer", "signal_ice", "mute_state", "ai_ping"}

  /** `ServerMessageType`: what the server may send. */
  const SERVER_MESSAGE_TYPES: set<string> :=
    {"room_snapshot", "user_joined", "user_left", "signal_offer", "signal_answer", "signal_ice",
     "user_muted", "ai_reply", "error"}

  /** A JavaScript value, as far as `typeof`, property reads and `in` can tell; an object
      lists its own properties in insertion order. */
  datatype JsValue =
    | JsUndefined
    | JsNull
    | JsBoolean(b: bool)
    | JsNumber(n: real)
    | JsBigInt(i: int)
    | JsString(s: string)
    | JsSymbol(description: string)
    | JsArray(items: seq<JsValue>)
    | JsObject(props: LinkedMap<JsValue>)
    | JsFunction(name: string)

  /** The `typeof` operator; `null` and arrays are "object". */
  function TypeOf(v: JsValue): string {
    match v
    case JsUndefined => "undefined"
    case JsNull => "object"
    case JsBoolean(_) => "boolean"
    case JsNumber(_) => "number"
    case JsBigInt(_) => "bigint"
    case JsString(_) => "string"
    case JsSymbol(_) => "symbol"
    case JsArray(_) => "object"
    case JsObject(_) => "object"
    case JsFunction(_) => "function"
  }

  /** `key in v` for an own property of an object. */
  predicate HasOwn(v: JsValue, key: string) {
    v.JsObject? && key in Keys(v.props)
  }

  /** `v[key]`: an own property of an object, otherwise `undefined`. */
  function Property(v: JsValue, key: string): JsValue {
    if v.JsObject? then Get(v.props, key).GetOr(JsUndefined) else JsUndefined
  }

  /** `isServerMessage`. */
  predicate IsServerMessage(v: JsValue) {
    if TypeOf(v) != "object" || v == JsNull then false
    else TypeOf(Property(v, "type")) == "string" && HasOwn(v, "payload")
  }

  /** The guard holds exactly of objects whose `type` is a string and that have a `payload`
      key, whatever that key holds. */
  lemma IsServerMessageExactly(v: JsValue)
    ensures IsServerMessage(v) <==>
      v.JsObject? && Get(v.props, "type").Some? && Get(v.props, "type").value.JsString? && HasOwn(v, "payload")
  {
  }

  /** Every message the server can build passes the guard, with any payload. */
  lemma ServerMessagesPass(msgType: string, payload: JsValue)
    requires msgType in SERVER_MESSAGE_TYPES
    ensures IsServerMessage(JsObject([("type", JsString(msgType)), ("payload", payload)]))
  {
  }

  /** The guard checks only the shape: an unknown type string passes, an `undefined`
      payload passes, and a missing payload, a non-string type, `null` and arrays fail. */
  lemma IsServerMessageIsShallow()
    ensures "bogus" !in SERVER_MESSAGE_TYPES
    ensures IsServerMessage(JsObject([("type", JsString("bogus")), ("payload", JsUndefined)]))
    ensures !IsServerMessage(JsObject([("type", JsString("error"))]))
    ensures !IsServerMessage(JsObject([("type", JsNumber(1.0)), ("payload", JsNull)]))
    ensures !IsServerMessage(JsNull) && !IsServerMessage(JsArray([]))
  {
    assert Keys([("type", JsString("error"))]) == ["type"];
  }

  /** The signal types are the only ones both sides send. */
  lemma SharedTypesAreSignals()
    ensures CLIENT_MESSAGE_TYPES * SERVER_MESSAGE_TYPES == {"signal_offer", "signal_answer", "signal_ice"}
  {
  }
}
