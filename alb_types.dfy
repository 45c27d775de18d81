/** The records the ALB validator produces and the errors it raises. */
module AlbTypes {
  import opened Results
  import opened JsValue

  /** Every way the validation stops; each carries what the source's message
      names (the function, the authorizer, the clashing priority). */
  datatype Error =
    | UnsupportedAuthorizerType(authType: Value)
    | ListenerArnMissing(functionName: string)
    | InvalidListenerArn(functionName: string)
    | InvalidHeaderCondition(functionName: string)
    | HeaderValuesNotArray(functionName: string)
    | InvalidQueryCondition(functionName: string)
    | InvalidIpCondition(functionName: string)
    | UnknownAuthorizer(authorizer: Value, functionName: string)
    | PriorityLimitation(functionName: string, priority: Value)
    | PriorityInUse(functionName: string, priority: Value)
    /** JavaScript's own `TypeError`: a property read on `undefined`/`null`,
        or `.match` called on something that is not a string. */
    | TypeError

  type Outcome<T> = Result<T, Error>

  /** The ALB id and listener id a listener reference resolves to. */
  datatype ListenerIds = ListenerIds(albId: Value, listenerId: Value)

  /** The routing conditions of one event; the optional ones are `None` when
      the input left them out or gave a falsy value. (`httpMethod` is the
      `method` condition.) */
  datatype Conditions = Conditions(
    path: seq<Value>,
    host: Option<seq<Value>>,
    httpMethod: Option<seq<Value>>,
    header: Option<Value>,
    query: Option<Value>,
    ip: Option<seq<Value>>)

  /** The normalised record built for one ALB event. */
  datatype AlbEvent = AlbEvent(
    albId: Value,
    listenerId: Value,
    listenerArn: Value,
    priority: Value,
    conditions: Conditions,
    multiValueHeaders: Option<Value>,
    authorizers: Option<seq<Value>>,
    healthCheck: Option<Value>,
    functionName: string)
}
