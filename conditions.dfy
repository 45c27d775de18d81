/** The checks applied to an event's `header`, `query` and `ip` conditions and
    the normalisation of its `healthCheck`. */
module ConditionChecks {
  import opened Results
  import opened Text
  import opened JsValue
  import opened Patterns
  import opened AlbTypes

  /** `validateHeaderCondition`: the header must be an object with a truthy
      `name` and a truthy `values`, and `values` must be an array. */
  function ValidateHeaderCondition(header: Value, functionName: string): (r: Outcome<Value>)
    ensures r.Ok? <==> IsObject(header) && Truthy(Get(header, "name")) && Get(header, "values").Arr?
    ensures r.Ok? ==> r.value == header
    ensures r == Err(HeaderValuesNotArray(functionName))
            <==> IsObject(header) && Truthy(Get(header, "name")) && Truthy(Get(header, "values"))
                 && !Get(header, "values").Arr?
    ensures r.Err? ==> r.error in {InvalidHeaderCondition(functionName), HeaderValuesNotArray(functionName)}
  {
    if !IsObject(header) || !Truthy(Get(header, "name")) || !Truthy(Get(header, "values")) then
      Err(InvalidHeaderCondition(functionName))
    else if !Get(header, "values").Arr? then
      Err(HeaderValuesNotArray(functionName))
    else
      Ok(header)
  }

  /** `validateQueryCondition`: any object is accepted unchanged. */
  function ValidateQueryCondition(query: Value, functionName: string): (r: Outcome<Value>)
    ensures r.Ok? <==> IsObject(query)
    ensures r.Ok? ==> r.value == query
    ensures r.Err? ==> r.error == InvalidQueryCondition(functionName)
  {
    if !IsObject(query) then Err(InvalidQueryCondition(functionName)) else Ok(query)
  }

  /** `CIDR_IPV4_PATTERN.test(cidr) || CIDR_IPV6_PATTERN.test(cidr)`, with the
      IPv6 pattern supplied as `ipv6`. Only strings are tested. */
  predicate IsCidr(v: Value, ipv6: string -> bool) {
    v.Str? && (IsIpv4Cidr(v.s) || ipv6(v.s))
  }

  /** `cidrBlocks.every(...)`, element by element. */
  function AllCidr(blocks: seq<Value>, ipv6: string -> bool): (ok: bool)
    ensures ok <==> forall i :: 0 <= i < |blocks| ==> IsCidr(blocks[i], ipv6)
  {
    if blocks == [] then true
    else IsCidr(blocks[0], ipv6) && AllCidr(blocks[1..], ipv6)
  }

  /** `validateIpCondition`: the condition, made a list, fails exactly when
      some element is neither an IPv4 nor an IPv6 CIDR block, and is otherwise
      returned unchanged. */
  function ValidateIpCondition(ip: Value, functionName: string, ipv6: string -> bool): (r: Outcome<seq<Value>>)
    ensures r.Err? <==> exists i :: 0 <= i < |ToList(ip)| && !IsCidr(ToList(ip)[i], ipv6)
    ensures r.Err? ==> r.error == InvalidIpCondition(functionName)
    ensures r.Ok? ==> r.value == ToList(ip)
  {
    var cidrBlocks := ToList(ip);
    if AllCidr(cidrBlocks, ipv6) then Ok(cidrBlocks) else Err(InvalidIpCondition(functionName))
  }

  lemma TenSlashEight()
    ensures IsIpv4Cidr("10.0.0.0/8")
  {
    var c := Ipv4Cidr(["10", "0", "0", "0"], "8");
    assert WellFormedCidr(c);
    Ipv4ParseComplete(c);
    assert RenderCidr(c) == "10.0.0.0/8";
  }

  /** A list holding one valid and one malformed block is rejected ... */
  lemma IpConditionRejects(functionName: string, ipv6: string -> bool)
    requires !ipv6("not-a-cidr")
    ensures ValidateIpCondition(Arr([Str("10.0.0.0/8"), Str("not-a-cidr")]), functionName, ipv6)
         == Err(InvalidIpCondition(functionName))
  {
    SplitNoSep("not-a-cidr", '/');
    assert !IsCidr(Str("not-a-cidr"), ipv6);
    assert ToList(Arr([Str("10.0.0.0/8"), Str("not-a-cidr")]))[1] == Str("not-a-cidr");
  }

  /** ... and an IPv4 and an IPv6 block together pass. */
  lemma IpConditionAccepts(functionName: string, ipv6: string -> bool)
    requires ipv6("2001:db8::/32")
    ensures ValidateIpCondition(Arr([Str("10.0.0.0/8"), Str("2001:db8::/32")]), functionName, ipv6)
         == Ok([Str("10.0.0.0/8"), Str("2001:db8::/32")])
  {
    TenSlashEight();
  }

  /** `validateAlbHealthCheck`: an object gets `enabled: true` assigned; any
      other (truthy) value becomes `{enabled: true}`. An array is returned as
      it is (arrays carry no named properties here). */
  function ValidateAlbHealthCheck(healthCheck: Value): Value {
    if healthCheck.Obj? then Set(healthCheck, "enabled", Bool(true))
    else if healthCheck.Arr? then healthCheck
    else Obj([Entry("enabled", Bool(true))])
  }

  /** The normalised health check is enabled, keeps every other setting of an
      object, and is `{enabled: true}` for a flag. */
  lemma HealthCheckEnabled(healthCheck: Value)
    requires !healthCheck.Arr?
    ensures Get(ValidateAlbHealthCheck(healthCheck), "enabled") == Bool(true)
    ensures healthCheck.Obj? ==>
      forall k :: k != "enabled" ==> Get(ValidateAlbHealthCheck(healthCheck), k) == Get(healthCheck, k)
    ensures !IsObject(healthCheck) ==> ValidateAlbHealthCheck(healthCheck) == Obj([Entry("enabled", Bool(true))])
  {
    if healthCheck.Obj? {
      LookupUpdate(healthCheck.entries, "enabled", Bool(true), "enabled");
      forall k | k != "enabled"
        ensures Get(ValidateAlbHealthCheck(healthCheck), k) == Get(healthCheck, k)
      {
        LookupUpdate(healthCheck.entries, "enabled", Bool(true), k);
      }
    }
  }

  /** Normalising an already normalised health check changes nothing. */
  lemma HealthCheckIdempotent(healthCheck: Value)
    ensures ValidateAlbHealthCheck(ValidateAlbHealthCheck(healthCheck)) == ValidateAlbHealthCheck(healthCheck)
  {
    if healthCheck.Obj? {
      var es := Update(healthCheck.entries, "enabled", Bool(true));
      UpdateHasKey(healthCheck.entries, "enabled", Bool(true));
      LookupUpdate(healthCheck.entries, "enabled", Bool(true), "enabled");
      UpdateSame(es, "enabled");
    } else if !healthCheck.Arr? {
      var es := [Entry("enabled", Bool(true))];
      assert HasKey(es, "enabled") by { assert es[0].key == "enabled"; }
      UpdateSame(es, "enabled");
    }
  }
}
