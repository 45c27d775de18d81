/** Resolution of an event's `listenerArn` into the ALB id and listener id. */
module ListenerArn {
  import opened Results
  import opened Text
  import opened JsValue
  import opened Patterns
  import opened AlbTypes

  /** `validateListenerArn`: a missing (falsy) reference, a reference object
      with its `Ref`, or an ARN string whose last two `/`-segments are the ids. */
  function ValidateListenerArn(listenerArn: Value, functionName: string): (r: Outcome<ListenerIds>)
    ensures r.Ok? ==> Truthy(r.value.albId) && Truthy(r.value.listenerId)
  {
    if !Truthy(listenerArn) then Err(ListenerArnMissing(functionName))
    else if IsObject(listenerArn) then
      var ref := Get(listenerArn, "Ref");
      if Truthy(ref) then Ok(ListenerIds(ref, ref)) else Err(InvalidListenerArn(functionName))
    else if listenerArn.Str? then
      match MatchListenerArn(listenerArn.s)
      case Some(p) => Ok(ListenerIds(Str(p.albId), Str(p.listenerId)))
      case None => Err(InvalidListenerArn(functionName))
    else Err(TypeError)
  }

  /** A well-formed listener ARN string resolves to its ALB id and listener id. */
  lemma StringArnRoundTrip(p: ArnParts, functionName: string)
    requires WellFormedArn(p)
    ensures ValidateListenerArn(Str(BuildArn(p)), functionName)
         == Ok(ListenerIds(Str(p.albId), Str(p.listenerId)))
  {
    ArnMatchComplete(p);
  }

  /** A non-empty string that is no well-formed listener ARN is rejected as invalid. */
  lemma StringArnRejected(s: string, functionName: string)
    requires s != ""
    requires forall p :: WellFormedArn(p) ==> BuildArn(p) != s
    ensures ValidateListenerArn(Str(s), functionName) == Err(InvalidListenerArn(functionName))
  {
    if MatchListenerArn(s).Some? {
      ArnMatchSound(s, MatchListenerArn(s).value);
    }
  }

  /** Whatever a string reference resolves to comes from a well-formed ARN. */
  lemma StringArnResolved(s: string, functionName: string, ids: ListenerIds)
    requires ValidateListenerArn(Str(s), functionName) == Ok(ids)
    ensures exists p :: WellFormedArn(p) && BuildArn(p) == s
                        && ids == ListenerIds(Str(p.albId), Str(p.listenerId))
  {
    var p := MatchListenerArn(s).value;
    ArnMatchSound(s, p);
  }

  /** The non-string forms: falsy is missing; an object resolves to its truthy
      `Ref` twice, and without one is invalid. */
  lemma ReferenceArnCases(listenerArn: Value, functionName: string)
    ensures !Truthy(listenerArn) <==> ValidateListenerArn(listenerArn, functionName) == Err(ListenerArnMissing(functionName))
    ensures listenerArn.Obj? && Truthy(Get(listenerArn, "Ref"))
            ==> ValidateListenerArn(listenerArn, functionName)
                == Ok(ListenerIds(Get(listenerArn, "Ref"), Get(listenerArn, "Ref")))
    ensures listenerArn.Obj? && !Truthy(Get(listenerArn, "Ref"))
            ==> ValidateListenerArn(listenerArn, functionName) == Err(InvalidListenerArn(functionName))
  {
  }
}
