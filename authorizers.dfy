/** The ALB authorizer registry: normalisation of each declared authorizer,
    the name-keyed registry built from them, and the check that an event only
    names registered authorizers. */
module Authorizers {
  import opened Results
  import opened JsValue
  import opened AlbTypes

  const TypeKey: string := "type"
  const AllowKey: string := "allowUnauthenticated"
  const OnKey: string := "onUnauthenticatedRequest"

  /** The value `validateAlbAuth` gives `onUnauthenticatedRequest`: derived
      from `allowUnauthenticated` when only the latter is given, and otherwise
      a truthy `onUnauthenticatedRequest` kept or defaulted to `'deny'`. */
  function UnauthenticatedAction(auth: Value): Value {
    var hasAllowUnauthenticated := Get(auth, AllowKey) != Nil;
    var hasOnUnauthenticatedRequest := Get(auth, OnKey) != Nil;
    if hasAllowUnauthenticated && !hasOnUnauthenticatedRequest then
      Str(if Truthy(Get(auth, AllowKey)) then "allow" else "deny")
    else if Truthy(Get(auth, OnKey)) then Get(auth, OnKey)
    else Str("deny")
  }

  /** `validateAlbAuth`: assigns that value to the authorizer's `onUnauthenticatedRequest`. */
  function ValidateAlbAuth(auth: Value): Value
    requires auth.Obj?
  {
    Set(auth, OnKey, UnauthenticatedAction(auth))
  }

  /** After normalisation `onUnauthenticatedRequest` is always set (truthy):
      derived from `allowUnauthenticated` when only that is given, else the
      existing truthy value, else `'deny'`; no other setting changes. */
  lemma ValidateAlbAuthDecides(auth: Value)
    requires auth.Obj?
    ensures var allow, on, r := Get(auth, AllowKey), Get(auth, OnKey), ValidateAlbAuth(auth);
      && Truthy(Get(r, OnKey))
      && (allow != Nil && on == Nil ==> Get(r, OnKey) == Str(if Truthy(allow) then "allow" else "deny"))
      && ((allow == Nil || on != Nil) && Truthy(on) ==> Get(r, OnKey) == on)
      && ((allow == Nil || on != Nil) && !Truthy(on) ==> Get(r, OnKey) == Str("deny"))
      && forall k :: k != OnKey ==> Get(r, k) == Get(auth, k)
  {
    var v := UnauthenticatedAction(auth);
    LookupUpdate(auth.entries, OnKey, v, OnKey);
    forall k | k != OnKey
      ensures Get(ValidateAlbAuth(auth), k) == Get(auth, k)
    {
      LookupUpdate(auth.entries, OnKey, v, k);
    }
  }

  /** Normalising an already normalised authorizer changes nothing. */
  lemma ValidateAlbAuthIdempotent(auth: Value)
    requires auth.Obj?
    ensures ValidateAlbAuth(ValidateAlbAuth(auth)) == ValidateAlbAuth(auth)
  {
    var r := ValidateAlbAuth(auth);
    ValidateAlbAuthDecides(auth);
    UpdateHasKey(auth.entries, OnKey, UnauthenticatedAction(auth));
    assert UnauthenticatedAction(r) == Get(r, OnKey);
    UpdateSame(r.entries, OnKey);
  }

  /** The `switch (auth.type)`: only `'cognito'` and `'oidc'` are supported. */
  predicate Accepted(auth: Value) {
    Get(auth, TypeKey) == Str("cognito") || Get(auth, TypeKey) == Str("oidc")
  }

  /** What an authorizer the switch rejects raises: reading `type` of `null`
      is a `TypeError`, anything else is an unsupported type. */
  function Rejection(auth: Value): Error {
    if auth.Nil? then TypeError else UnsupportedAuthorizerType(Get(auth, TypeKey))
  }

  /** The entries of `provider.alb.authorizers` (none when `provider.alb` is falsy). */
  function AuthorizerEntries(albConfig: Value): seq<Entry> {
    if Truthy(albConfig) then Entries(Get(albConfig, "authorizers")) else []
  }

  /** The registry the loop over `entries` builds: each accepted authorizer
      stored, normalised, under its name; the first rejected one stops it. */
  function RegistryOf(entries: seq<Entry>): Outcome<map<string, Value>>
  {
    if entries == [] then Ok(map[])
    else
      var registry :- RegistryOf(entries[..|entries| - 1]);
      var entry := entries[|entries| - 1];
      if Accepted(entry.val) then Ok(registry[entry.key := ValidateAlbAuth(entry.val)])
      else Err(Rejection(entry.val))
  }

  /** The registry-building part of `validate`. */
  method BuildRegistry(albConfig: Value) returns (r: Outcome<map<string, Value>>)
    ensures r == RegistryOf(AuthorizerEntries(albConfig))
  {
    r := Register(AuthorizerEntries(albConfig));
  }

  /** The loop over the authorizer entries. */
  method Register(entries: seq<Entry>) returns (r: Outcome<map<string, Value>>)
    ensures r == RegistryOf(entries)
  {
    var authorizers: map<string, Value> := map[];
    var i := 0;
    while i < |entries|
      invariant 0 <= i <= |entries|
      invariant RegistryOf(entries[..i]) == Ok(authorizers)
    {
      var name, auth := entries[i].key, entries[i].val;
      if auth.Nil? {
        RegisterRejected(entries, i, authorizers);
        RegistryPrefixError(entries, i + 1, TypeError);
        return Err(TypeError);
      }
      var authType := Get(auth, TypeKey);
      if authType == Str("cognito") || authType == Str("oidc") {
        RegisterAccepted(entries, i, authorizers);
        authorizers := authorizers[name := ValidateAlbAuth(auth)];
      } else {
        RegisterRejected(entries, i, authorizers);
        RegistryPrefixError(entries, i + 1, UnsupportedAuthorizerType(authType));
        return Err(UnsupportedAuthorizerType(authType));
      }
      i := i + 1;
    }
    assert entries[..i] == entries;
    return Ok(authorizers);
  }

  /** The first rejection stops the loop: later entries cannot change it. */
  lemma {:induction false} RegistryPrefixError(entries: seq<Entry>, i: nat, e: Error)
    requires i <= |entries| && RegistryOf(entries[..i]) == Err(e)
    ensures RegistryOf(entries) == Err(e)
    decreases |entries| - i
  {
    if i < |entries| {
      assert entries[..i + 1][..i] == entries[..i];
      RegistryPrefixError(entries, i + 1, e);
    } else {
      assert entries[..i] == entries;
    }
  }

  /** The loop step: an accepted declaration is stored, normalised, under its name ... */
  lemma RegisterAccepted(entries: seq<Entry>, i: nat, registry: map<string, Value>)
    requires i < |entries| && RegistryOf(entries[..i]) == Ok(registry) && Accepted(entries[i].val)
    ensures RegistryOf(entries[..i + 1]) == Ok(registry[entries[i].key := ValidateAlbAuth(entries[i].val)])
  {
    assert entries[..i + 1][..i] == entries[..i];
  }

  /** ... and a rejected one is the error of the registry. */
  lemma RegisterRejected(entries: seq<Entry>, i: nat, registry: map<string, Value>)
    requires i < |entries| && RegistryOf(entries[..i]) == Ok(registry) && !Accepted(entries[i].val)
    ensures RegistryOf(entries[..i + 1]) == Err(Rejection(entries[i].val))
  {
    assert entries[..i + 1][..i] == entries[..i];
  }

  /** One more declaration: it is registered when everything before it was
      and it is accepted; an earlier error stands; otherwise it is rejected. */
  lemma RegistryStep(entries: seq<Entry>)
    requires entries != []
    ensures var init, last := entries[..|entries| - 1], entries[|entries| - 1].val;
      && (RegistryOf(entries).Ok? <==> RegistryOf(init).Ok? && Accepted(last))
      && (RegistryOf(init).Err? ==> RegistryOf(entries) == RegistryOf(init))
      && (RegistryOf(init).Ok? && !Accepted(last) ==> RegistryOf(entries) == Err(Rejection(last)))
  {
  }

  /** The registry is built exactly when every authorizer has a supported type ... */
  lemma {:induction false} RegistryAccepts(entries: seq<Entry>)
    ensures RegistryOf(entries).Ok? <==> forall i :: 0 <= i < |entries| ==> Accepted(entries[i].val)
  {
    if entries != [] {
      var n := |entries| - 1;
      var init := entries[..n];
      RegistryStep(entries);
      RegistryAccepts(init);
      if RegistryOf(entries).Ok? {
        forall i | 0 <= i < |entries| ensures Accepted(entries[i].val) {
          if i < n {
            assert entries[i] == init[i];
          }
        }
      } else if RegistryOf(init).Ok? {
        assert !Accepted(entries[n].val);
      } else {
        var i :| 0 <= i < n && !Accepted(init[i].val);
        assert entries[i] == init[i];
      }
    }
  }

  /** ... and otherwise the error is the rejection of the first one that has not. */
  lemma {:induction false} RegistryFirstRejection(entries: seq<Entry>)
    requires RegistryOf(entries).Err?
    ensures exists i :: (0 <= i < |entries| && !Accepted(entries[i].val)
      && (forall j :: 0 <= j < i ==> Accepted(entries[j].val))
      && RegistryOf(entries).error == Rejection(entries[i].val))
  {
    var n := |entries| - 1;
    var init := entries[..n];
    RegistryStep(entries);
    if RegistryOf(init).Err? {
      RegistryFirstRejection(init);
      var i :| 0 <= i < n && !Accepted(init[i].val)
        && (forall j :: 0 <= j < i ==> Accepted(init[j].val))
        && RegistryOf(init).error == Rejection(init[i].val);
      assert init[i] == entries[i];
      assert forall j :: 0 <= j < i ==> init[j] == entries[j];
    } else {
      RegistryAccepts(init);
      assert forall j :: 0 <= j < n ==> init[j] == entries[j];
    }
  }

  /** The value of the last declaration named `name`, if there is one. */
  function LastDeclared(entries: seq<Entry>, name: string): (r: Option<Value>)
    ensures r.Some? <==> exists i :: 0 <= i < |entries| && entries[i].key == name
  {
    if entries == [] then None
    else if entries[|entries| - 1].key == name then Some(entries[|entries| - 1].val)
    else
      var r := LastDeclared(entries[..|entries| - 1], name);
      assert r.Some? <==> exists i :: 0 <= i < |entries| && entries[i].key == name by {
        if i :| 0 <= i < |entries| && entries[i].key == name {
          assert entries[..|entries| - 1][i].key == name;
        }
      }
      r
  }

  /** The registry has exactly the declared names, and each name maps to the
      normalised form of its last declaration. */
  lemma {:induction false} RegistryLookup(entries: seq<Entry>, registry: map<string, Value>)
    requires RegistryOf(entries) == Ok(registry)
    ensures forall name :: name in registry <==> LastDeclared(entries, name).Some?
    ensures forall name :: name in registry ==>
      && Accepted(LastDeclared(entries, name).value)
      && registry[name] == ValidateAlbAuth(LastDeclared(entries, name).value)
  {
    if entries != [] {
      var init := entries[..|entries| - 1];
      RegistryLookup(init, RegistryOf(init).value);
    }
  }

  /** Every registered authorizer has a supported type and a truthy
      `onUnauthenticatedRequest`. */
  lemma RegistryNormalised(entries: seq<Entry>, registry: map<string, Value>, name: string)
    requires RegistryOf(entries) == Ok(registry) && name in registry
    ensures Accepted(registry[name]) && Truthy(Get(registry[name], OnKey))
  {
    RegistryLookup(entries, registry);
    var auth := LastDeclared(entries, name).value;
    ValidateAlbAuthDecides(auth);
    assert Get(ValidateAlbAuth(auth), TypeKey) == Get(auth, TypeKey);
  }

  /** `!authorizers[auth]` fails: the name is a registered authorizer. */
  predicate IsRegistered(registry: map<string, Value>, name: Value) {
    name.Str? && name.s in registry && Truthy(registry[name.s])
  }

  /** The index of the first name that is not registered (`|names|` if all are). */
  function FirstUnregistered(names: seq<Value>, registry: map<string, Value>): (k: nat)
    ensures k <= |names|
    ensures forall j :: 0 <= j < k ==> IsRegistered(registry, names[j])
    ensures k < |names| ==> !IsRegistered(registry, names[k])
  {
    if names == [] || !IsRegistered(registry, names[0]) then 0
    else 1 + FirstUnregistered(names[1..], registry)
  }

  /** What `validateEventAuthorizers` computes: the event's authorizer names
      (a single name is wrapped), provided every one is registered; otherwise
      an error naming the first unregistered one. */
  function EventAuthorizers(authorizer: Value, registry: map<string, Value>, functionName: string): (r: Outcome<seq<Value>>)
    ensures r.Ok? <==> forall i :: 0 <= i < |ToList(authorizer)| ==> IsRegistered(registry, ToList(authorizer)[i])
    ensures r.Ok? ==> r.value == ToList(authorizer)
    ensures r.Err? ==>
      exists i :: 0 <= i < |ToList(authorizer)| && !IsRegistered(registry, ToList(authorizer)[i])
        && (forall j :: 0 <= j < i ==> IsRegistered(registry, ToList(authorizer)[j]))
        && r.error == UnknownAuthorizer(ToList(authorizer)[i], functionName)
  {
    var names := ToList(authorizer);
    var k := FirstUnregistered(names, registry);
    if k == |names| then Ok(names) else Err(UnknownAuthorizer(names[k], functionName))
  }

  /** `validateEventAuthorizers`: the loop with its early throw. */
  method ValidateEventAuthorizers(authorizer: Value, registry: map<string, Value>, functionName: string)
    returns (r: Outcome<seq<Value>>)
    ensures r == EventAuthorizers(authorizer, registry, functionName)
  {
    var eventAuthorizers := if authorizer.Arr? then authorizer.elems else [authorizer];
    for i := 0 to |eventAuthorizers|
      invariant forall j :: 0 <= j < i ==> IsRegistered(registry, eventAuthorizers[j])
    {
      if !IsRegistered(registry, eventAuthorizers[i]) {
        return Err(UnknownAuthorizer(eventAuthorizers[i], functionName));
      }
    }
    return Ok(eventAuthorizers);
  }
}
