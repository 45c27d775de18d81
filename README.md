# ALB event validation, modelled in Dafny

This project models the validation step the Serverless Framework runs on the
Application Load Balancer (ALB) event bindings of an AWS service
(`lib/plugins/aws/package/compile/events/alb/lib/validate.js`). Before any
CloudFormation is compiled, `validate`:

1. builds the **authorizer registry** from `provider.alb.authorizers`. Only the
   `cognito` and `oidc` types are accepted. Each accepted authorizer gets its
   `onUnauthenticatedRequest` setting normalised.
2. walks every function's events. For each event whose `alb` is an object it
   builds one **ALB event record**. Along the way it resolves the listener
   reference into an ALB id and a listener id, and copies or coerces the
   routing conditions. It checks the `header`, `query` and `ip` conditions and
   the event's authorizer names, and it normalises the health check.
3. runs the **priority conflict check** over all records:
   - first the Serverless limitation: one function may not use the same
     priority on two different listeners;
   - then the ALB rule: two functions may not share a priority on one listener.

The first problem found stops validation with an error.

Modules, one file each:

- `results.dfy` (`Results`): `Option` and the failure-compatible `Result`. With
  `:-`, the first error stops the computation, just as a `throw` does.
- `text.dfy` (`Text`): character classes, a JavaScript-style `split`, `join`,
  and decimal text.
- `js_value.dfy` (`JsValue`): configuration values with JavaScript
  truthiness, lodash `_.isObject`, property reads and assignment, `[].concat`
  and `_.entries`.
- `patterns.dfy` (`Patterns`): the IPv4 CIDR and listener-ARN regular
  expressions as hand-written matchers. Each matcher is proved to accept
  exactly the strings built from well-formed parts.
- `alb_types.dfy` (`AlbTypes`): the error kinds and the records the validator
  produces.
- `listener_arn.dfy` (`ListenerArn`): `validateListenerArn`.
- `conditions.dfy` (`ConditionChecks`): `validateHeaderCondition`,
  `validateQueryCondition`, `validateIpCondition` and `validateAlbHealthCheck`.
- `authorizers.dfy` (`Authorizers`): `validateAlbAuth`, the registry loop of
  `validate` and `validateEventAuthorizers`.
- `priorities.dfy` (`Priorities`): `validatePriorities`, together with the
  `_.uniqWith`/`_.difference` computation it relies on.
- `validate.dfy` (`Validate`): `validate` itself.

The source's loops are written as methods: the registry loop, the nested walk
over functions and events, the authorizer-name loop, and the `uniqWith` pass.
Each method is proved equal to a specification function. The properties are
proved as lemmas about those functions.

## Model

| member | source | states |
|---|---|---|
| Patterns.IsIpv4Cidr | lib/plugins/aws/package/compile/events/alb/lib/validate.js:7 | `CIDR_IPV4_PATTERN.test`. Defined by a matcher that splits at `/` and `.`. Ipv4ParseSound and Ipv4ParseComplete prove it accepts exactly the `a.b.c.d/m` strings the pattern describes |
| Patterns.Ipv4ParseSound | lib/plugins/aws/package/compile/events/alb/lib/validate.js:7 | A string the IPv4 CIDR matcher accepts is four 1–3 digit octets and a 0–32 mask, laid out as `a.b.c.d/m` |
| Patterns.Ipv4ParseComplete | lib/plugins/aws/package/compile/events/alb/lib/validate.js:7 | Every `a.b.c.d/m` with 1–3 digit octets and a valid mask text is accepted, and the matcher recovers those parts |
| Patterns.MaskTextIsDecimal | lib/plugins/aws/package/compile/events/alb/lib/validate.js:7 | The mask part of the pattern accepts only decimal texts, without leading zeros, of numbers up to 32 |
| Patterns.DecimalIsMaskText | lib/plugins/aws/package/compile/events/alb/lib/validate.js:7 | The decimal text of every number from 0 to 32 matches the mask alternation |
| Patterns.OctetsUnbounded | lib/plugins/aws/package/compile/events/alb/lib/validate.js:7 | Octets are not range-checked. Any four numbers below 1000 with a mask of at most 32 are accepted, `999.999.999.999/24` among them |
| Patterns.MaskRequired | lib/plugins/aws/package/compile/events/alb/lib/validate.js:7 | A string without a `/` is rejected |
| Patterns.MaskBounded | lib/plugins/aws/package/compile/events/alb/lib/validate.js:7 | A mask above 32 is rejected, whatever precedes it |
| Patterns.MatchListenerArn | lib/plugins/aws/package/compile/events/alb/lib/validate.js:9 | `ALB_LISTENER_PATTERN` with its two capture groups. ArnMatchSound and ArnMatchComplete prove it accepts exactly the ARNs built from well-formed parts, and recovers those parts |
| Patterns.ArnHeadSound | lib/plugins/aws/package/compile/events/alb/lib/validate.js:9 | A head the matcher accepts is `arn:aws<partition>:elasticloadbalancing:<resource>:listener/app` |
| Patterns.ArnHeadComplete | lib/plugins/aws/package/compile/events/alb/lib/validate.js:9 | Every such head with a `[\w-]*` partition is accepted, and the matcher recovers the partition and the resource |
| Patterns.ArnMatchSound | lib/plugins/aws/package/compile/events/alb/lib/validate.js:9 | A string the listener pattern accepts is exactly the ARN built from well-formed parts: a `[\w-]*` partition, a `.+` resource, and `[\w-]+` name and ids |
| Patterns.ArnMatchComplete | lib/plugins/aws/package/compile/events/alb/lib/validate.js:9 | Every well-formed listener ARN is accepted, and its ALB id and listener id are the two capture groups |
| ListenerArn.ValidateListenerArn | lib/plugins/aws/package/compile/events/alb/lib/validate.js:91-113 | On success both the ALB id and the listener id are truthy |
| ListenerArn.ReferenceArnCases | lib/plugins/aws/package/compile/events/alb/lib/validate.js:92-105 | A falsy reference is "missing", and only a falsy one is. An object resolves to its truthy `Ref` as both ids. An object without a truthy `Ref` is invalid |
| ListenerArn.StringArnRoundTrip | lib/plugins/aws/package/compile/events/alb/lib/validate.js:106-112 | A well-formed ARN string resolves to its own ALB id and listener id |
| ListenerArn.StringArnRejected | lib/plugins/aws/package/compile/events/alb/lib/validate.js:106-111 | A non-empty string that no well-formed parts build is rejected as an invalid listener ARN |
| ListenerArn.StringArnResolved | lib/plugins/aws/package/compile/events/alb/lib/validate.js:106-112 | Whatever a string resolves to comes from a well-formed ARN, as that ARN's ALB id and listener id |
| ConditionChecks.ValidateHeaderCondition | lib/plugins/aws/package/compile/events/alb/lib/validate.js:115-133 | Accepted, and returned unchanged, exactly when the header is an object with a truthy `name` and an array `values`. The "values must be an array" error is raised exactly when `values` is truthy but not an array. Every other rejection is the shape error |
| ConditionChecks.ValidateQueryCondition | lib/plugins/aws/package/compile/events/alb/lib/validate.js:135-144 | Accepted, and returned unchanged, exactly when the query is an object. Otherwise the query error is raised |
| ConditionChecks.AllCidr | lib/plugins/aws/package/compile/events/alb/lib/validate.js:148-150 | `every` holds exactly when each block is an IPv4 or an IPv6 CIDR string |
| ConditionChecks.ValidateIpCondition | lib/plugins/aws/package/compile/events/alb/lib/validate.js:146-160 | The ip error is raised exactly when some element of `[].concat(ip)` is neither an IPv4 nor an IPv6 CIDR. Otherwise the list is returned |
| ConditionChecks.IpConditionRejects | lib/plugins/aws/package/compile/events/alb/lib/validate.js:146-160 | `["10.0.0.0/8", "not-a-cidr"]` is rejected with the ip error |
| ConditionChecks.IpConditionAccepts | lib/plugins/aws/package/compile/events/alb/lib/validate.js:146-160 | An IPv4 and an IPv6 block together, `["10.0.0.0/8", "2001:db8::/32"]`, pass unchanged |
| ConditionChecks.ValidateAlbHealthCheck | lib/plugins/aws/package/compile/events/alb/lib/validate.js:221-227 | `validateAlbHealthCheck`: an object gets `enabled: true`, any other truthy value becomes `{enabled: true}`. HealthCheckEnabled and HealthCheckIdempotent state its properties |
| ConditionChecks.HealthCheckEnabled | lib/plugins/aws/package/compile/events/alb/lib/validate.js:221-227 | The normalised health check has `enabled: true`. An object keeps every other setting. A non-object becomes `{enabled: true}` |
| ConditionChecks.HealthCheckIdempotent | lib/plugins/aws/package/compile/events/alb/lib/validate.js:221-227 | Normalising a normalised health check changes nothing |
| Authorizers.ValidateAlbAuth | lib/plugins/aws/package/compile/events/alb/lib/validate.js:208-219 | `validateAlbAuth`: assigns the decided `onUnauthenticatedRequest`. ValidateAlbAuthDecides and ValidateAlbAuthIdempotent state its properties |
| Authorizers.ValidateAlbAuthDecides | lib/plugins/aws/package/compile/events/alb/lib/validate.js:208-219 | `onUnauthenticatedRequest` always ends truthy. If only `allowUnauthenticated` is given, it becomes `allow` or `deny` by that flag's truthiness. Otherwise a truthy value is kept and anything else becomes `deny`. Every other setting is unchanged |
| Authorizers.ValidateAlbAuthIdempotent | lib/plugins/aws/package/compile/events/alb/lib/validate.js:208-219 | Normalising a normalised authorizer changes nothing |
| Authorizers.RegistryOf | lib/plugins/aws/package/compile/events/alb/lib/validate.js:13-28 | The registry `validate` builds: each accepted authorizer stored, normalised, under its name, and the first rejected one stops it. RegistryAccepts, RegistryFirstRejection and RegistryLookup state its properties |
| Authorizers.BuildRegistry | lib/plugins/aws/package/compile/events/alb/lib/validate.js:13-28 | The registry part of `validate` computes the registry specification over the entries of `provider.alb.authorizers`. There are no entries when `provider.alb` is falsy |
| Authorizers.Register | lib/plugins/aws/package/compile/events/alb/lib/validate.js:15-26 | The loop over the entries, with its early throw, computes the registry specification |
| Authorizers.RegisterAccepted | lib/plugins/aws/package/compile/events/alb/lib/validate.js:17-20 | A `cognito` or `oidc` authorizer is stored, normalised, under its name |
| Authorizers.RegisterRejected | lib/plugins/aws/package/compile/events/alb/lib/validate.js:21-24 | Any other authorizer, including `null`, is the error of the registry so far |
| Authorizers.RegistryPrefixError | lib/plugins/aws/package/compile/events/alb/lib/validate.js:16-26 | The first rejected authorizer stops the loop, and later entries cannot change the error |
| Authorizers.RegistryAccepts | lib/plugins/aws/package/compile/events/alb/lib/validate.js:16-26 | The registry is built exactly when every authorizer is `cognito` or `oidc` |
| Authorizers.RegistryFirstRejection | lib/plugins/aws/package/compile/events/alb/lib/validate.js:16-26 | When the registry is not built, the error is the rejection of the first authorizer that is not `cognito` or `oidc`, and every authorizer before it is accepted |
| Authorizers.RegistryLookup | lib/plugins/aws/package/compile/events/alb/lib/validate.js:16-21 | The registry holds exactly the declared names. Each name maps to the normalised form of its declaration, which has a supported type. A configuration value may repeat a key, and then the last declaration wins, as it does in the loop |
| Authorizers.RegistryNormalised | lib/plugins/aws/package/compile/events/alb/lib/validate.js:17-21 | Every registered authorizer has a supported type and a truthy `onUnauthenticatedRequest` |
| Authorizers.FirstUnregistered | lib/plugins/aws/package/compile/events/alb/lib/validate.js:198-204 | Every name before the returned index is registered, and the name at that index is not |
| Authorizers.EventAuthorizers | lib/plugins/aws/package/compile/events/alb/lib/validate.js:194-206 | Succeeds exactly when every name in the wrapped list is registered, and then returns the list. Otherwise the error names the first unregistered name and the function |
| Authorizers.ValidateEventAuthorizers | lib/plugins/aws/package/compile/events/alb/lib/validate.js:194-206 | The loop with its early throw computes `EventAuthorizers` |
| Priorities.KeptIndicesMembers | lib/plugins/aws/package/compile/events/alb/lib/validate.js:172 | An index below `n` is in the list of kept indices exactly when `uniqWith` keeps that event |
| Priorities.KeptAgainst | lib/plugins/aws/package/compile/events/alb/lib/validate.js:172 | An event is kept exactly when it clashes with none of the kept events before it, checked against the kept list in order |
| Priorities.UniqWithDuplicates | lib/plugins/aws/package/compile/events/alb/lib/validate.js:172 | The `uniqWith` pass followed by `difference` yields exactly the indices of the events `uniqWith` drops, in list order |
| Priorities.DuplicatesMembers | lib/plugins/aws/package/compile/events/alb/lib/validate.js:172 | An index is a duplicate exactly when `uniqWith` does not keep that event |
| Priorities.DuplicatesFirst | lib/plugins/aws/package/compile/events/alb/lib/validate.js:172-175 | The first duplicate is dropped, and every event before it is kept |
| Priorities.DuplicatesIffClash | lib/plugins/aws/package/compile/events/alb/lib/validate.js:171-173 | There are duplicates exactly when some pair of events satisfies the comparator |
| Priorities.FirstDuplicateIsFirstClash | lib/plugins/aws/package/compile/events/alb/lib/validate.js:172-176 | The reported duplicate is the first event, in list order, that clashes with an earlier one |
| Priorities.FirstClashUnique | lib/plugins/aws/package/compile/events/alb/lib/validate.js:172-176 | There is only one first clashing event, so the report is determined |
| Priorities.PriorityCheck | lib/plugins/aws/package/compile/events/alb/lib/validate.js:162-192 | What `validatePriorities` decides. PriorityCheckOutcome and PriorityCheckReports characterise it by the pairs that clash |
| Priorities.ValidatePriorities | lib/plugins/aws/package/compile/events/alb/lib/validate.js:162-192 | The two passes compute `PriorityCheck`: first the limitation error for rule 1, then the in-use error for rule 2, each naming the first duplicate |
| Priorities.PriorityCheckOutcome | lib/plugins/aws/package/compile/events/alb/lib/validate.js:162-192 | Passes exactly when no pair clashes under either rule. The limitation error is raised exactly when two events share priority and function but not listener. The in-use error is raised exactly when no such pair exists and two events share priority and listener but not function |
| Priorities.PriorityCheckReports | lib/plugins/aws/package/compile/events/alb/lib/validate.js:173-190 | The error carries the function name and priority of the first clashing event under the failing rule |
| Priorities.ExactDuplicatesPass | lib/plugins/aws/package/compile/events/alb/lib/validate.js:165-167 | Events that share a priority and also agree on listener and function never fail either check |
| Validate.BuildConditions | lib/plugins/aws/package/compile/events/alb/lib/validate.js:47-68 | Filling `albObj.conditions` step by step computes `ConditionsOf`. The header error comes before the query error, and the query error before the ip error |
| Validate.AlbEventOf | lib/plugins/aws/package/compile/events/alb/lib/validate.js:36-78 | The record one ALB binding yields, or the first error its checks raise. AlbEventShape states what a record holds |
| Validate.BuildAlbEvent | lib/plugins/aws/package/compile/events/alb/lib/validate.js:36-78 | Building one record step by step computes `AlbEventOf`, with the checks in the source's order |
| Validate.ValidateSpec | lib/plugins/aws/package/compile/events/alb/lib/validate.js:12-89 | What `validate` returns: the registry, then the records, then the priority check. ValidateOutcome and ValidateByBindings state its properties |
| Validate.EventRecord | lib/plugins/aws/package/compile/events/alb/lib/validate.js:33-80 | The inner callback on one event: a `null` event is a `TypeError`, an `alb` that is a truthy object gives its record or that record's error, and any other event gives nothing |
| Validate.FunctionEvents | lib/plugins/aws/package/compile/events/alb/lib/validate.js:33-81 | The inner `forEach` computes the records of one function, stopping at the first error |
| Validate.StepNext | lib/plugins/aws/package/compile/events/alb/lib/validate.js:33-81 | One more event either stops the function's walk with its error or appends what it contributes |
| Validate.Validate | lib/plugins/aws/package/compile/events/alb/lib/validate.js:12-89 | The registry loop, the nested walk over functions and events, and the priority check together compute `ValidateSpec` |
| Validate.FunctionErrorPropagates | lib/plugins/aws/package/compile/events/alb/lib/validate.js:33-81 | An error partway through a function's events is the error of the whole function |
| Validate.ServiceErrorPropagates | lib/plugins/aws/package/compile/events/alb/lib/validate.js:32-82 | An error in one function is the error of the whole walk |
| Validate.RecordsForAppend | lib/plugins/aws/package/compile/events/alb/lib/validate.js:30-82 | Walking two lists of bindings one after the other is walking their concatenation: the first error, or both record lists joined |
| Validate.RecordsForShape | lib/plugins/aws/package/compile/events/alb/lib/validate.js:30-82 | A successful walk holds exactly one record per binding, in binding order, each the record built for that binding |
| Validate.RecordsForError | lib/plugins/aws/package/compile/events/alb/lib/validate.js:30-82 | A failed walk fails with the error of the first binding whose record cannot be built; every binding before it builds |
| Validate.FunctionRecords | lib/plugins/aws/package/compile/events/alb/lib/validate.js:33-81 | A function's walk, whenever it succeeds or none of its events is `null`, is the walk over its ALB bindings: the events whose `alb` is a truthy object, in order |
| Validate.ServiceRecords | lib/plugins/aws/package/compile/events/alb/lib/validate.js:30-82 | The walk over all functions, whenever it succeeds or no event is `null`, is the walk over all ALB bindings in function-then-event order |
| Validate.AlbEventShape | lib/plugins/aws/package/compile/events/alb/lib/validate.js:36-78 | See the note below the table |
| Validate.ValidateOutcome | lib/plugins/aws/package/compile/events/alb/lib/validate.js:12-89 | An unsupported authorizer fails validation whatever the events. On success: the registry is the one built from the declarations, and every registered authorizer is normalised; the records are the walk over the ALB bindings; every authorizer name in a record is registered; no two records clash under either priority rule |
| Validate.ValidateByBindings | lib/plugins/aws/package/compile/events/alb/lib/validate.js:12-89 | When no event is `null`, validation is: build the registry, build one record per ALB binding in order, then run the priority check, each step stopping at its first error |

What `Validate.AlbEventShape` states about a record:

- The function name, priority and listener reference are copied.
- The ids are the ones the listener reference resolves to.
- `path` is always a list: a scalar is wrapped and an array is copied.
- `host` and `method` are copied as lists when they are truthy.
- `header`, `query`, `ip`, `multiValueHeaders`, `authorizer` and `healthCheck` are present exactly when the input is truthy. When present, each has passed its own check.
- A present health check is the normalised input: an object keeps its other settings and gets `enabled: true`, and any other truthy value except an array becomes `{enabled: true}`.

## Left out

- The IPv6 CIDR pattern (validate.js:6) is not modelled. It is the parameter `ipv6` of the functions that test CIDR blocks, and no property depends on its grammar.
- Regular-expression coercion is not modelled. `test` on a value that is not a string is taken to fail, whereas JavaScript would test its text form: a number is never a CIDR here.
- Update in place and aliasing are not modelled. `validateAlbAuth` assigns `onUnauthenticatedRequest`, and `validateAlbHealthCheck` uses `Object.assign`. Both change the user's own object, which the registry and the records then share. The model returns an updated copy instead.
- ValidateAlbHealthCheck: a health check given as an array is returned unchanged, because arrays carry no named properties in this model. `Object.assign` would add `enabled` to the array.
- HealthCheckEnabled: for the same reason, it says nothing about array health checks.
- `===` on priorities and listener ids is structural equality of configuration values. Two distinct but equal objects (for example two `Ref` objects) count as the same here. JavaScript compares objects by identity.
- Numbers are integers. `NaN`, fractions and the `priority: NaN !== NaN` corner are not modelled.
- `undefined` and `null` are one value, `Nil`. The source's `!= null` tests and truthiness do not tell them apart, but its `===` comparisons and the values it copies do (next two lines).
- PriorityCheck: priorities are compared with `===` (validate.js:165), and `null === undefined` is false. Two events of one function on different listeners, one with `priority: null` and one without a priority, pass the source's check but raise the limitation error in the model.
- AlbEventShape: the copied `priority` and the `[].concat` of a `null` or missing `path` (validate.js:46-49) hold `Nil` for both `null` and `undefined`.
- Every function is assumed to have an `events` array. A function without one makes the source throw a `TypeError`, and that is not modelled.
- Functions are visited in declaration order. JavaScript visits integer-like keys of the functions object first, and that reordering is not modelled.
- Authorizer names are strings, and registry lookups only find declared names. An event that names an inherited property such as `constructor` would pass the source's lookup. Non-string names are never registered in this model.
- `_.entries` of a non-object is the pairs lodash gives for arrays and strings, and is empty for everything else. Numeric-looking object keys keep declaration order.
- Error messages are reduced to their kind and the values they name.
- Other JavaScript `TypeError`s are modelled as the single error `TypeError`. The ones covered are: reading `alb` of a `null` event, reading from `null` conditions, calling `.match` on a truthy non-string listener reference, and reading `type` of a `null` authorizer.
- The framework plumbing is not modelled: the `serverless` object, the error class, and the later compilation of the records into CloudFormation.
