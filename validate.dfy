/** `validate`: builds the authorizer registry, walks every function's events
    building one normalised record per ALB event, and checks priorities. */
module Validate {
  import opened Results
  import opened JsValue
  import opened AlbTypes
  import opened ListenerArn
  import opened ConditionChecks
  import opened Authorizers
  import opened Priorities

  /** A function of the service: its name and its `events` list. */
  datatype FunctionDef = FunctionDef(name: string, events: seq<Value>)

  /** The parts of the service the validator reads: `provider.alb` and the
      functions in declaration order. */
  datatype Service = Service(alb: Value, functions: seq<FunctionDef>)

  /** `{ events, authorizers }` */
  datatype Validated = Validated(events: seq<AlbEvent>, authorizers: map<string, Value>)

  /** `[].concat(v)` of a condition that is copied only when truthy. */
  function OptionalList(v: Value): Option<seq<Value>> {
    if Truthy(v) then Some(ToList(v)) else None
  }

  /** The routing conditions of one event, or the first error the header,
      query and ip checks raise, in that order. */
  function ConditionsOf(c: Value, functionName: string, ipv6: string -> bool): Outcome<Conditions>
  {
    var header :- if Truthy(Get(c, "header")) then Lift(ValidateHeaderCondition(Get(c, "header"), functionName)) else Ok(None);
    var query :- if Truthy(Get(c, "query")) then Lift(ValidateQueryCondition(Get(c, "query"), functionName)) else Ok(None);
    var ip :- if Truthy(Get(c, "ip")) then Lift(ValidateIpCondition(Get(c, "ip"), functionName, ipv6)) else Ok(None);
    Ok(AlbTypes.Conditions(ToList(Get(c, "path")), OptionalList(Get(c, "host")), OptionalList(Get(c, "method")), header, query, ip))
  }

  /** The record built for one event whose `alb` is an object, or the first
      error its checks raise, in the order the source runs them. */
  function AlbEventOf(functionName: string, alb: Value, registry: map<string, Value>, ipv6: string -> bool)
    : Outcome<AlbEvent>
  {
    var ids :- ValidateListenerArn(Get(alb, "listenerArn"), functionName);
    var c := Get(alb, "conditions");
    if c.Nil? then Err(TypeError)
    else
      var conditions :- ConditionsOf(c, functionName, ipv6);
      var authorizers :- if Truthy(Get(alb, "authorizer"))
                         then Lift(EventAuthorizers(Get(alb, "authorizer"), registry, functionName)) else Ok(None);
      Ok(AlbEvent(
        ids.albId, ids.listenerId, Get(alb, "listenerArn"), Get(alb, "priority"), conditions,
        if Truthy(Get(alb, "multiValueHeaders")) then Some(Get(alb, "multiValueHeaders")) else None,
        authorizers,
        if Truthy(Get(alb, "healthCheck")) then Some(ValidateAlbHealthCheck(Get(alb, "healthCheck"))) else None,
        functionName))
  }

  /** The part of the `forEach` body that fills `albObj.conditions`. */
  method BuildConditions(c: Value, functionName: string, ipv6: string -> bool) returns (r: Outcome<Conditions>)
    ensures r == ConditionsOf(c, functionName, ipv6)
  {
    var conditions := AlbTypes.Conditions(ToList(Get(c, "path")), None, None, None, None, None);
    if Truthy(Get(c, "host")) {
      conditions := conditions.(host := Some(ToList(Get(c, "host"))));
    }
    if Truthy(Get(c, "method")) {
      conditions := conditions.(httpMethod := Some(ToList(Get(c, "method"))));
    }
    assert conditions.host == OptionalList(Get(c, "host"));
    if Truthy(Get(c, "header")) {
      var header :- ValidateHeaderCondition(Get(c, "header"), functionName);
      conditions := conditions.(header := Some(header));
    }
    if Truthy(Get(c, "query")) {
      var query :- ValidateQueryCondition(Get(c, "query"), functionName);
      conditions := conditions.(query := Some(query));
    }
    if Truthy(Get(c, "ip")) {
      var ip :- ValidateIpCondition(Get(c, "ip"), functionName, ipv6);
      conditions := conditions.(ip := Some(ip));
    }
    return Ok(conditions);
  }

  /** The body of the `forEach` over one function's events, for an event whose
      `alb` is an object: the record filled in step by step. */
  method BuildAlbEvent(functionName: string, alb: Value, registry: map<string, Value>, ipv6: string -> bool)
    returns (r: Outcome<AlbEvent>)
    ensures r == AlbEventOf(functionName, alb, registry, ipv6)
  {
    var ids :- ValidateListenerArn(Get(alb, "listenerArn"), functionName);
    if Get(alb, "conditions").Nil? {
      return Err(TypeError);
    }
    var conditions :- BuildConditions(Get(alb, "conditions"), functionName, ipv6);
    var albObj := AlbEvent(
      ids.albId, ids.listenerId, Get(alb, "listenerArn"), Get(alb, "priority"), conditions,
      None, None, None, functionName);
    if Truthy(Get(alb, "multiValueHeaders")) {
      albObj := albObj.(multiValueHeaders := Some(Get(alb, "multiValueHeaders")));
    }
    if Truthy(Get(alb, "authorizer")) {
      var authorizers :- ValidateEventAuthorizers(Get(alb, "authorizer"), registry, functionName);
      albObj := albObj.(authorizers := Some(authorizers));
    }
    if Truthy(Get(alb, "healthCheck")) {
      albObj := albObj.(healthCheck := Some(ValidateAlbHealthCheck(Get(alb, "healthCheck"))));
    }
    return Ok(albObj);
  }

  /** How the record of one ALB binding (function name, `alb` value) is built. */
  type Builder = (string, Value) -> Outcome<AlbEvent>

  /** The builder `validate` uses: `AlbEventOf` over the registry. */
  function RecordBuilder(registry: map<string, Value>, ipv6: string -> bool): Builder {
    (functionName: string, alb: Value) => AlbEventOf(functionName, alb, registry, ipv6)
  }

  /** What one event contributes: nothing unless its `alb` is a truthy object
      (reading `alb` of a `null` event is a `TypeError`). */
  function EventStep(functionName: string, event: Value, build: Builder): Outcome<Option<AlbEvent>>
  {
    if event.Nil? then Err(TypeError)
    else
      var alb := Get(event, "alb");
      if Truthy(alb) && IsObject(alb) then Lift(build(functionName, alb)) else Ok(None)
  }

  /** The records of the first `n` events of function `f`. */
  function EventsOfFunction(f: FunctionDef, n: nat, build: Builder): Outcome<seq<AlbEvent>>
    requires n <= |f.events|
  {
    if n == 0 then Ok([])
    else
      var acc :- EventsOfFunction(f, n - 1, build);
      var step :- EventStep(f.name, f.events[n - 1], build);
      Ok(if step.Some? then acc + [step.value] else acc)
  }

  /** The records of the events of the first `n` functions. */
  function EventsOf(functions: seq<FunctionDef>, n: nat, build: Builder): Outcome<seq<AlbEvent>>
    requires n <= |functions|
  {
    if n == 0 then Ok([])
    else
      var acc :- EventsOf(functions, n - 1, build);
      var own :- EventsOfFunction(functions[n - 1], |functions[n - 1].events|, build);
      Ok(acc + own)
  }

  /** What `validate` returns: the registry first, then the events, then the
      priority check. */
  function ValidateSpec(service: Service, ipv6: string -> bool): Outcome<Validated>
  {
    var authorizers :- RegistryOf(AuthorizerEntries(service.alb));
    var events :- EventsOf(service.functions, |service.functions|, RecordBuilder(authorizers, ipv6));
    var unit :- PriorityCheck(events);
    Ok(Validated(events, authorizers))
  }

  /** The callback the inner `forEach` runs on one event. */
  method EventRecord(functionName: string, event: Value, registry: map<string, Value>, ipv6: string -> bool)
    returns (r: Outcome<Option<AlbEvent>>)
    ensures r == EventStep(functionName, event, RecordBuilder(registry, ipv6))
  {
    if event.Nil? {
      return Err(TypeError);
    }
    var alb := Get(event, "alb");
    if Truthy(alb) && IsObject(alb) {
      var albObj :- BuildAlbEvent(functionName, alb, registry, ipv6);
      return Ok(Some(albObj));
    }
    return Ok(None);
  }

  /** The inner `forEach` over the events of one function. */
  method FunctionEvents(f: FunctionDef, registry: map<string, Value>, ipv6: string -> bool)
    returns (r: Outcome<seq<AlbEvent>>)
    ensures r == EventsOfFunction(f, |f.events|, RecordBuilder(registry, ipv6))
  {
    ghost var build := RecordBuilder(registry, ipv6);
    var own: seq<AlbEvent> := [];
    for ei := 0 to |f.events|
      invariant EventsOfFunction(f, ei, build) == Ok(own)
    {
      var step := EventRecord(f.name, f.events[ei], registry, ipv6);
      StepNext(f, ei + 1, build, own, step);
      if step.Err? {
        return Err(step.error);
      }
      if step.value.Some? {
        own := own + [step.value.value];
      }
    }
    return Ok(own);
  }

  /** `validate`: the registry loop, the walk over the functions, and the
      priority check. */
  method Validate(service: Service, ipv6: string -> bool) returns (r: Outcome<Validated>)
    ensures r == ValidateSpec(service, ipv6)
  {
    var authorizers :- BuildRegistry(service.alb);
    ghost var build := RecordBuilder(authorizers, ipv6);
    var events: seq<AlbEvent> := [];
    var functions := service.functions;
    for fi := 0 to |functions|
      invariant EventsOf(functions, fi, build) == Ok(events)
    {
      var own := FunctionEvents(functions[fi], authorizers, ipv6);
      if own.Err? {
        FunctionError(functions, fi, build, own.error);
        ServiceErrorPropagates(functions, fi + 1, build, own.error);
        return Err(own.error);
      }
      FunctionAppends(functions, fi, build, events, own.value);
      events := events + own.value;
    }
    var check := ValidatePriorities(events);
    if check.Err? {
      return Err(check.error);
    }
    return Ok(Validated(events, authorizers));
  }

  /** One more event: a failure stops the walk of its function with that
      error, a success appends what the event contributes. */
  lemma StepNext(f: FunctionDef, n: nat, build: Builder, own: seq<AlbEvent>, step: Outcome<Option<AlbEvent>>)
    requires 0 < n <= |f.events| && EventsOfFunction(f, n - 1, build) == Ok(own)
    requires EventStep(f.name, f.events[n - 1], build) == step
    ensures step.Err? ==> EventsOfFunction(f, |f.events|, build) == Err(step.error)
    ensures step.Ok? ==>
      EventsOfFunction(f, n, build) == Ok(if step.value.Some? then own + [step.value.value] else own)
  {
    if step.Err? {
      assert EventsOfFunction(f, n, build) == Err(step.error);
      FunctionErrorPropagates(f, n, build, step.error);
    }
  }

  /** A function whose events all succeed appends its records to the walk's. */
  lemma FunctionAppends(functions: seq<FunctionDef>, fi: nat, build: Builder, before: seq<AlbEvent>, own: seq<AlbEvent>)
    requires fi < |functions|
    requires EventsOf(functions, fi, build) == Ok(before)
    requires EventsOfFunction(functions[fi], |functions[fi].events|, build) == Ok(own)
    ensures EventsOf(functions, fi + 1, build) == Ok(before + own)
  {
  }

  /** A function that fails, after the functions before it succeeded, fails the walk so far. */
  lemma FunctionError(functions: seq<FunctionDef>, fi: nat, build: Builder, e: Error)
    requires fi < |functions|
    requires EventsOf(functions, fi, build).Ok?
    requires EventsOfFunction(functions[fi], |functions[fi].events|, build) == Err(e)
    ensures EventsOf(functions, fi + 1, build) == Err(e)
  {
  }

  /** An error partway through a function's events is the error of the whole function. */
  lemma {:induction false} FunctionErrorPropagates(f: FunctionDef, n: nat, build: Builder, e: Error)
    requires n <= |f.events| && EventsOfFunction(f, n, build) == Err(e)
    ensures EventsOfFunction(f, |f.events|, build) == Err(e)
    decreases |f.events| - n
  {
    if n < |f.events| {
      FunctionErrorPropagates(f, n + 1, build, e);
    }
  }

  /** An error in the first `n` functions is the error of the whole walk. */
  lemma {:induction false} ServiceErrorPropagates(functions: seq<FunctionDef>, n: nat, build: Builder, e: Error)
    requires n <= |functions| && EventsOf(functions, n, build) == Err(e)
    ensures EventsOf(functions, |functions|, build) == Err(e)
    decreases |functions| - n
  {
    if n < |functions| {
      ServiceErrorPropagates(functions, n + 1, build, e);
    }
  }

  // ------------------------------------------------------------------ properties

  /** The ALB bindings among the first `n` events of `f`: the function name and
      the `alb` value of each event whose `alb` is a truthy object, in order. */
  function FunctionBindings(f: FunctionDef, n: nat): seq<(string, Value)>
    requires n <= |f.events|
  {
    if n == 0 then []
    else
      var alb := Get(f.events[n - 1], "alb");
      FunctionBindings(f, n - 1) + (if Truthy(alb) && IsObject(alb) then [(f.name, alb)] else [])
  }

  /** The ALB bindings of the first `n` functions, function by function. */
  function AlbBindings(functions: seq<FunctionDef>, n: nat): seq<(string, Value)>
    requires n <= |functions|
  {
    if n == 0 then [] else AlbBindings(functions, n - 1) + FunctionBindings(functions[n - 1], |functions[n - 1].events|)
  }

  /** The records of `bindings` built one after another, stopping at the
      first binding whose record cannot be built. */
  function RecordsFor(bindings: seq<(string, Value)>, build: Builder): Outcome<seq<AlbEvent>>
  {
    if bindings == [] then Ok([])
    else
      var acc :- RecordsFor(bindings[..|bindings| - 1], build);
      var last := bindings[|bindings| - 1];
      var ev :- build(last.0, last.1);
      Ok(acc + [ev])
  }

  /** Two walks in sequence: the first error, or both lists of records joined. */
  function Chain(r1: Outcome<seq<AlbEvent>>, r2: Outcome<seq<AlbEvent>>): Outcome<seq<AlbEvent>> {
    var a :- r1;
    var b :- r2;
    Ok(a + b)
  }

  lemma {:induction false} RecordsForAppend(b1: seq<(string, Value)>, b2: seq<(string, Value)>, build: Builder)
    ensures RecordsFor(b1 + b2, build) == Chain(RecordsFor(b1, build), RecordsFor(b2, build))
    decreases |b2|
  {
    if b2 == [] {
      assert b1 + b2 == b1;
      if RecordsFor(b1, build).Ok? {
        assert RecordsFor(b1, build).value + [] == RecordsFor(b1, build).value;
      }
    } else {
      var init, last := b2[..|b2| - 1], b2[|b2| - 1];
      RecordsForAppend(b1, init, build);
      assert (b1 + b2)[..|b1 + b2| - 1] == b1 + init;
      assert (b1 + b2)[|b1 + b2| - 1] == last;
      var r1, r2, ev := RecordsFor(b1, build), RecordsFor(init, build), build(last.0, last.1);
      if r1.Ok? && r2.Ok? && ev.Ok? {
        assert r1.value + r2.value + [ev.value] == r1.value + (r2.value + [ev.value]);
      }
    }
  }

  /** A successful walk over `bindings` holds exactly one record per binding,
      in the same order, each the record built for that binding. */
  lemma {:induction false} RecordsForShape(bindings: seq<(string, Value)>, build: Builder, events: seq<AlbEvent>)
    requires RecordsFor(bindings, build) == Ok(events)
    ensures |events| == |bindings|
    ensures forall k :: 0 <= k < |events| ==> build(bindings[k].0, bindings[k].1) == Ok(events[k])
  {
    if bindings != [] {
      var init := bindings[..|bindings| - 1];
      var acc := RecordsFor(init, build).value;
      RecordsForShape(init, build, acc);
      forall k | 0 <= k < |events|
        ensures build(bindings[k].0, bindings[k].1) == Ok(events[k])
      {
        if k < |acc| {
          assert bindings[k] == init[k] && events[k] == acc[k];
        }
      }
    }
  }

  /** A failed walk fails with the error of the first binding whose record
      cannot be built. */
  lemma {:induction false} RecordsForError(bindings: seq<(string, Value)>, build: Builder, e: Error)
    requires RecordsFor(bindings, build) == Err(e)
    ensures exists k :: && 0 <= k < |bindings|
                        && build(bindings[k].0, bindings[k].1) == Err(e)
                        && forall j :: 0 <= j < k ==> build(bindings[j].0, bindings[j].1).Ok?
  {
    var init := bindings[..|bindings| - 1];
    if RecordsFor(init, build).Err? {
      RecordsForError(init, build, e);
      var k :| && 0 <= k < |init|
               && build(init[k].0, init[k].1) == Err(e)
               && forall j :: 0 <= j < k ==> build(init[j].0, init[j].1).Ok?;
      assert bindings[k] == init[k];
      assert forall j :: 0 <= j < k ==> bindings[j] == init[j];
    } else {
      RecordsForShape(init, build, RecordsFor(init, build).value);
      assert forall j :: 0 <= j < |init| ==> bindings[j] == init[j];
    }
  }

  /** No event of any function is `null`. */
  predicate NoNullEvents(functions: seq<FunctionDef>) {
    forall fi, i :: 0 <= fi < |functions| && 0 <= i < |functions[fi].events| ==> !functions[fi].events[i].Nil?
  }

  /** The walk over a function's events builds the records of its ALB
      bindings in order, whenever it succeeds and whenever no event is `null`. */
  lemma {:induction false} FunctionRecords(f: FunctionDef, n: nat, build: Builder)
    requires n <= |f.events|
    requires EventsOfFunction(f, n, build).Ok? || forall i :: 0 <= i < n ==> !f.events[i].Nil?
    ensures EventsOfFunction(f, n, build) == RecordsFor(FunctionBindings(f, n), build)
  {
    if n > 0 {
      var event := f.events[n - 1];
      var alb := Get(event, "alb");
      assert !event.Nil?;
      FunctionRecords(f, n - 1, build);
      var bs := FunctionBindings(f, n - 1);
      if Truthy(alb) && IsObject(alb) {
        assert FunctionBindings(f, n) == bs + [(f.name, alb)];
        assert (bs + [(f.name, alb)])[..|bs|] == bs;
      } else {
        assert FunctionBindings(f, n) == bs;
      }
    }
  }

  /** The walk over all functions builds the records of all ALB bindings in
      function-then-event order, whenever it succeeds and whenever no event
      is `null`. */
  lemma {:induction false} ServiceRecords(functions: seq<FunctionDef>, n: nat, build: Builder)
    requires n <= |functions|
    requires EventsOf(functions, n, build).Ok? || NoNullEvents(functions)
    ensures EventsOf(functions, n, build) == RecordsFor(AlbBindings(functions, n), build)
  {
    if n > 0 {
      var f := functions[n - 1];
      ServiceRecords(functions, n - 1, build);
      assert NoNullEvents(functions) ==> forall i :: 0 <= i < |f.events| ==> !f.events[i].Nil?;
      FunctionRecords(f, |f.events|, build);
      RecordsForAppend(AlbBindings(functions, n - 1), FunctionBindings(f, |f.events|), build);
    }
  }

  /** What a record holds: the function name, priority and listener reference
      copied, the ids the reference resolves to, `path` always a list (a
      scalar wrapped, an array copied), each optional key present exactly when
      its input is truthy and then checked (header shape, CIDR blocks,
      registered authorizers), and the normalised health check, which is
      enabled unless it was given as an array. */
  lemma AlbEventShape(functionName: string, alb: Value, registry: map<string, Value>, ipv6: string -> bool, ev: AlbEvent)
    requires AlbEventOf(functionName, alb, registry, ipv6) == Ok(ev)
    ensures ev.functionName == functionName && ev.priority == Get(alb, "priority")
    ensures ev.listenerArn == Get(alb, "listenerArn")
    ensures ValidateListenerArn(Get(alb, "listenerArn"), functionName) == Ok(ListenerIds(ev.albId, ev.listenerId))
    ensures var path := Get(Get(alb, "conditions"), "path");
            ev.conditions.path == if path.Arr? then path.elems else [path]
    ensures ev.conditions.host == OptionalList(Get(Get(alb, "conditions"), "host"))
    ensures ev.conditions.httpMethod == OptionalList(Get(Get(alb, "conditions"), "method"))
    ensures var header := Get(Get(alb, "conditions"), "header");
            && (ev.conditions.header.Some? <==> Truthy(header))
            && (ev.conditions.header.Some? ==> ev.conditions.header.value == header
                                               && Truthy(Get(header, "name")) && Get(header, "values").Arr?)
    ensures var query := Get(Get(alb, "conditions"), "query");
            && (ev.conditions.query.Some? <==> Truthy(query))
            && (ev.conditions.query.Some? ==> ev.conditions.query.value == query && IsObject(query))
    ensures var ip := Get(Get(alb, "conditions"), "ip");
            && (ev.conditions.ip.Some? <==> Truthy(ip))
            && (ev.conditions.ip.Some? ==>
                  && ev.conditions.ip.value == ToList(ip)
                  && forall i :: 0 <= i < |ToList(ip)| ==> IsCidr(ToList(ip)[i], ipv6))
    ensures var mvh := Get(alb, "multiValueHeaders");
            ev.multiValueHeaders == if Truthy(mvh) then Some(mvh) else None
    ensures var authorizer := Get(alb, "authorizer");
            && (ev.authorizers.Some? <==> Truthy(authorizer))
            && (ev.authorizers.Some? ==>
                  && ev.authorizers.value == ToList(authorizer)
                  && forall i :: 0 <= i < |ToList(authorizer)| ==> IsRegistered(registry, ToList(authorizer)[i]))
    ensures var healthCheck := Get(alb, "healthCheck");
            && (ev.healthCheck.Some? <==> Truthy(healthCheck))
            && (ev.healthCheck.Some? ==> ev.healthCheck.value == ValidateAlbHealthCheck(healthCheck))
            && (ev.healthCheck.Some? && !healthCheck.Arr? ==> Get(ev.healthCheck.value, "enabled") == Bool(true))
  {
    var healthCheck := Get(alb, "healthCheck");
    if Truthy(healthCheck) && !healthCheck.Arr? {
      HealthCheckEnabled(healthCheck);
    }
  }

  /** `validate` as a whole: an unsupported authorizer fails it whatever the
      events; on success the registry is normalised, the records are those
      of the ALB bindings in function-then-event order, every record names
      only registered authorizers, and no two records clash under either
      priority rule. */
  lemma ValidateOutcome(service: Service, ipv6: string -> bool)
    ensures RegistryOf(AuthorizerEntries(service.alb)).Err? ==>
            ValidateSpec(service, ipv6) == Err(RegistryOf(AuthorizerEntries(service.alb)).error)
    ensures ValidateSpec(service, ipv6).Ok? ==>
      var v := ValidateSpec(service, ipv6).value;
      && RegistryOf(AuthorizerEntries(service.alb)) == Ok(v.authorizers)
      && (forall name :: name in v.authorizers ==>
            Accepted(v.authorizers[name]) && Truthy(Get(v.authorizers[name], OnKey)))
      && RecordsFor(AlbBindings(service.functions, |service.functions|), RecordBuilder(v.authorizers, ipv6)) == Ok(v.events)
      && (forall k, i :: 0 <= k < |v.events| && v.events[k].authorizers.Some? && 0 <= i < |v.events[k].authorizers.value|
            ==> v.events[k].authorizers.value[i].Str? && v.events[k].authorizers.value[i].s in v.authorizers)
      && !HasClash(v.events, SameFunctionOtherListener)
      && !HasClash(v.events, SameListenerOtherFunction)
  {
    if ValidateSpec(service, ipv6).Ok? {
      var v := ValidateSpec(service, ipv6).value;
      var entries := AuthorizerEntries(service.alb);
      var bindings := AlbBindings(service.functions, |service.functions|);
      var build := RecordBuilder(v.authorizers, ipv6);
      forall name | name in v.authorizers
        ensures Accepted(v.authorizers[name]) && Truthy(Get(v.authorizers[name], OnKey))
      {
        RegistryNormalised(entries, v.authorizers, name);
      }
      ServiceRecords(service.functions, |service.functions|, build);
      RecordsForShape(bindings, build, v.events);
      forall k, i | 0 <= k < |v.events| && v.events[k].authorizers.Some? && 0 <= i < |v.events[k].authorizers.value|
        ensures v.events[k].authorizers.value[i].Str? && v.events[k].authorizers.value[i].s in v.authorizers
      {
        assert build(bindings[k].0, bindings[k].1) == Ok(v.events[k]);
        AlbEventShape(bindings[k].0, bindings[k].1, v.authorizers, ipv6, v.events[k]);
      }
      PriorityCheckOutcome(v.events);
    }
  }

  /** When no event is `null`, `validate` is: build the registry, build the
      records of the ALB bindings one after another, check priorities. */
  lemma ValidateByBindings(service: Service, ipv6: string -> bool)
    requires NoNullEvents(service.functions)
    ensures ValidateSpec(service, ipv6) ==
      var registry :- RegistryOf(AuthorizerEntries(service.alb));
      var events :- RecordsFor(AlbBindings(service.functions, |service.functions|), RecordBuilder(registry, ipv6));
      var unit :- PriorityCheck(events);
      Ok(Validated(events, registry))
  {
    var registry := RegistryOf(AuthorizerEntries(service.alb));
    if registry.Ok? {
      ServiceRecords(service.functions, |service.functions|, RecordBuilder(registry.value, ipv6));
    }
  }
}
