# Ingress controller configuration: a verified model

The controller turns Kubernetes resources into NGINX configuration. This project models the
parts where that is hardest and proves them right for every input: the compiler from
VirtualServer routes to NGINX `map`, `split_clients` and `keyval` blocks; the policies of a
context and of a whole VirtualServer, with the OIDC locations and the rate-limit tiers they
generate; the Configurator as a state machine over files, labels, batches and running servers;
and the two parsers, for times and for request rates.

`dafny verify dfyconfig.toml` checks everything (Dafny 4.11).

## The modules

**Routing.** `Nginx` is an evaluator for the target: `map` with plain, regular-expression and
default entries, `split_clients`, `keyval`, the variables that hold headers, cookies and
arguments, and variable expansion. `Routes` says what routes ask for. `Compile` gives the generated output as functions; `Generator` holds the loops that
append to lists and advance counters, each proved to build exactly that output.
`VariableNames`, `Layout` and `Definitions` show that names, split-client indices, internal
paths and definitions never collide. `LocationChoice` is NGINX's choice of a location.
`RouteMeaning`, `VirtualServers` and `Sites` show that every request ends where its route or
subroute says, among any blocks that policies add and whatever the upstream answers;
`TakenPaths` how an internal path can be lost; and `Weights` that weights changed without a
reload mean the same.

**Policies.** `Policies` models the fold over policy references and `PolicyDenial` reads off the
references when it answers 500, `VirtualServerPolicies` a whole VirtualServer, `OidcRegistry`
the registry of generated OIDC locations, `MergeableOidc` a master with its minions,
`OidcAdmission` which OIDC policies either accepts, `ExternalAuth` the locations of external-auth
policies, and `PolicyLocations` all of these among the locations of the routes.
`RateLimitTiers` holds the maps of tiered rate limits and `TiersInForce` which of them are in
force over all routes.

**Configurator.** `IngressFiles`, `ResourceUpdates`, `BatchIsolation`, `LabelIndex`,
`LiveLabels`, `PlusEndpoints`, `UpstreamFields` and `ResourceNames`.

**Kernels.** `TimeFormat`, `TimeGrammar` and `RateScaling`. `Text` holds numerals and name joins.

Operations that update things step by step are methods and classes proved against a
specification function; the theorems are about that function. I/O, NGINX's regular-expression
engine and hash, the outcome of writes, pushes and reloads, and what secrets resolve to are
parameters.

## What the code does not promise

Where a natural property is false of the code, the code is modelled as it is, a lemma shows
the failing inputs, and another states exactly when the property holds.

- A route whose path takes an internal path gets the requests that were meant for the internal
  location: as an exact path or by a regular expression (`TakingRoutes`), while at that very path
  it makes a second block, which NGINX refuses (`PathTwice`). So does a policy: a native OIDC
  policy may have an internal path as its callback (`OidcTakesPath`). When no route and no added
  block takes it, and only then, the internal location has the path to itself
  (`InternalPathExclusive`) and requests end where they should (`VirtualServerCorrect`); for the
  blocks of OIDC and external-auth policies, that is when none asks for it by name
  (`InternalPathKept`).
- Two external-auth policies with one auth URI share the location of the first
  (`AnsweredForOther`), and a sign-in page can leave a policy without a location
  (`NobodyAnswers`); `AnsweredByOwn` says when a policy is answered by its own service.
- A namespace or name with a dot is accepted, and its routing variables are then read only up to
  the dot (`DottedNameMisread`, `MyCafeMisread`): the redirects of a VirtualServer lead where
  they should exactly when its names hold no dot (`LeadsExactly`, `SafeNameIsWord`).
- An OIDC policy whose own generated paths coincide is accepted and rendered twice
  (`OwnPathsCanCollide`), and is refused wherever it is named again (`AcceptedAgain`); every other
  accepted policy is kept in each context that names it (`KeptInEachRoute`, `KeptFromSpec`,
  `AcceptedForEachMinion`), and two policies never collide (`NoPathRenderedTwice`,
  `NoPathMergedTwice`). A post-logout page is lost when the policy that registered it is
  dropped later (`PostLogoutPageLost`), and only then (`PostLogoutServed`).
- A tier for the value `default` beside another default is accepted although NGINX refuses the
  map (`QuotedDefaultAccepted`); in all other cases the code rejects just the second defaults that
  NGINX refuses (`RejectionAgrees`).
- One tiered rate-limit policy on two routes has two maps for one zone, and the one that first
  occurs last is in force on both (`ZoneMapInForce`, `EarlierRouteMisled`): the key follows that
  route's tiers (`KeyFollowsLast`).
- With two empty-host Ingresses the shared default-server file can keep the content of one
  that is gone (`StaleDefaultServer`); it always holds what the last writer stored
  (`LastWriterStays`).
- The labels of an Ingress stay when its deletion stops at the default-server file
  (`LeftBehind`); the collector holds exactly the labels of live resources when and only when
  no such Ingress had any (`LabelsExactly`).
- The readiness gate goes by what was excluded. It misses a second try, file by file, that
  rejects everything (`BrokenButReady`), and failures while the batch was written that leave
  only excluded resources (`OneOfEach`); nothing else (`HeldExactly`). `CountIsReported` says when
  the count is right. The comments on isolation list a search that cannot decide as one way to
  end; the code has no such way (`IsolateBadConfigs`).
- Labels are lost when two resources share a name, and only then (`UpdateAgrees`,
  `RemoveAgrees`).
- Endpoints of external-auth services are pushed under a name that no upstream of an
  external-auth policy has (`ExternalAuthPushMissesUpstream`).
- A rate policy with its unit in capitals or with a number wider than the machine's is accepted
  but not scaled (`CapitalsNotScaled`, `WideNotScaled`); all others never over-admit, and become
  zero, which NGINX refuses, when there are more replicas than requests per minute
  (`PolicyRateScaled`).

## Model

| member | source | states |
|---|---|---|
| `Routes.FirstMatch` | internal/configs/virtualserver.go:2423-2500 | The first match from a position on whose conditions all hold, and none earlier: the reading of `matches` that the maps must implement |
| `Routes.ChosenCovers` | internal/configs/virtualserver.go:2257-2266 | Each share of a split owns exactly the part of the hash space that its weight stands for; weight zero owns nothing |
| `Routes.ChosenUnique` | internal/configs/virtualserver.go:2257-2266 | A bucket belongs to one share only |
| `VariableNames.VariableNameInjective` | internal/configs/virtualserver.go:227-275 | Two routing variables of a VirtualServer have the same name only if they stand for the same thing, for any namespace and name |
| `VariableNames.PathNameInjective` | internal/configs/virtualserver.go:2263 | Internal paths of splits, matches and defaults are pairwise distinct |
| `VariableNames.ZoneNameInjective` | internal/configs/virtualserver.go:228-231 | Key-value zones of different split indices differ |
| `VariableNames.WeightKeyTextInjective` | internal/configs/virtualserver.go:248-251 | The stored keys of different weights differ even when `map` ignores case |
| `VariableNames.NamesAreReadable` | internal/configs/virtualserver.go:215-275 | NGINX reads every generated name back as the whole name it was written as, if and only if the VirtualServer's safe name is a word |
| `VariableNames.SafeNameIsWord` | internal/configs/virtualserver.go:221-226 | For object names the safe name is a word exactly when neither namespace nor name holds a dot |
| `VariableNames.DottedNameMisread` | internal/configs/virtualserver.go:227-275 | With a dot, every routing variable is read as a shorter variable followed by text |
| `VariableNames.MyCafeMisread` | internal/configs/virtualserver.go:221-226 | For example the variable of `my.cafe` in `ns` is read as `$vs_ns_my` |
| `VariableNames.DottedNameLeadsNowhere` | internal/configs/virtualserver.go:2263 | So it never evaluates to an internal path, whatever the variables hold |
| `VariableNames.NamesAreDistinct` | internal/configs/virtualserver.go:215-275 | All kinds of generated names are pairwise distinct |
| `RouteMeaning.ConditionSelects` | internal/configs/virtualserver.go:2623-2662 | One condition map gives success exactly when the condition holds of the header, cookie, argument or variable that it names: plain, negated, empty, special and regular-expression values |
| `RouteMeaning.SubjectHolds` | internal/configs/virtualserver.go:2664-2678 | The variable that a condition is compiled to holds the named part of the request: all fields of the header, the cookie, the argument, or the variable itself |
| `RouteMeaning.ConditionChain` | internal/configs/virtualserver.go:2423-2449 | The chained variables of a match evaluate to 1 exactly when all its conditions hold, and to 0 otherwise |
| `RouteMeaning.MainSourceValue` | internal/configs/virtualserver.go:2453-2457 | The concatenated variables evaluate to one digit per match |
| `RouteMeaning.FirstPattern` | internal/configs/virtualserver.go:2456-2476 | Among the patterns `~^0*1` with their leading digits the first that matches is that of the first match that holds |
| `RouteMeaning.MainSelects` | internal/configs/virtualserver.go:2451-2500 | The main map selects the destination of the first match that holds, otherwise the default destination |
| `RouteMeaning.GroupCorrect` | internal/configs/virtualserver.go:2257-2300 | The variable of a group of splits, static or by stored weights, names the internal path of the share that owns the request's bucket |
| `RouteMeaning.RouteCorrect` | internal/configs/virtualserver.go:2423-2605 | Compiling a route preserves its meaning: for every request the redirect's destination expands to the internal path that the route asks for |
| `Layout.RouteGroupsPacked` | internal/configs/virtualserver.go:2451-2596 | Within a route the index that the main map computes for a group equals the number of split clients made before it, one or 101 a group |
| `Layout.GroupsArePacked` | internal/configs/virtualserver.go:818-880 | The same over a whole VirtualServer, so every group of splits has its own index |
| `Layout.AllMapKeysSpec` | internal/configs/virtualserver.go:838-860 | No two routing maps of a VirtualServer define the same variable |
| `Layout.AllSpotsUnique` | internal/configs/virtualserver.go:1052-1115 | No two generated locations of a VirtualServer share an internal path's identity |
| `Definitions.DeduplicatedKeeps` | internal/configs/virtualserver.go:1480-1496 | Removing duplicates keeps a map when every map it could be mistaken for, by source and variable run together, is the same map |
| `Definitions.RoutingMapInForce` | internal/configs/virtualserver.go:1480-1496 | Removing duplicates never drops or replaces a routing map: it is the definition in force |
| `Definitions.DefinitionsInForce` | internal/configs/virtualserver.go:1130-1170 | In the generated program every routing map, split client and key-value is in force and NGINX's own variables keep their meaning |
| `VirtualServers.ErrorPagesResolve` | internal/configs/virtualserver.go:2843-2944 | Every error page that is not a redirect, own or inherited from the VirtualServer's route, names exactly one location, its own, and the pages are numbered as their references are |
| `VirtualServers.ReferencesResolve` | internal/configs/virtualserver.go:2175-2219 | Every reference by name in the generated locations of a whole VirtualServer, to a return location or an error page, is to exactly one of the named locations |
| `VirtualServers.ReturnNames` | internal/configs/virtualserver.go:2311-2317 | The return locations are exactly `@return_0` to `@return_(n-1)` in order |
| `VirtualServers.LocationMeaning` | internal/configs/virtualserver.go:2175-2219 | Each generated location does what its action and its error pages say, for every status of the upstream: the first page for the status answers with its redirect or its response, otherwise the upstream itself |
| `LocationChoice.PlainBlockChosen` | internal/configs/version2/nginx-plus.virtualserver.tmpl:532-536 | A location at exactly the requested path is accepted and chosen by NGINX if and only if no other location is there, has it as its exact path, or matches it by a regular expression |
| `LocationChoice.TakerChosen` | internal/configs/version2/nginx-plus.virtualserver.tmpl:532-536 | One exact path or matching regular expression takes the request from a plain location at its path |
| `VirtualServers.LeadsExactly` | internal/configs/virtualserver.go:2423-2605 | The redirect of a route with matches or splits expands to the internal path that the route asks for if and only if the safe name is a word |
| `VirtualServers.InternalPathExclusive` | internal/configs/virtualserver.go:1960-1978 | Among all blocks of a server nobody else takes a generated internal path exactly when no route's path does, plain, exact or by regular expression, and no block does that policies or snippets add |
| `Sites.JobAt` | internal/configs/virtualserver.go:616-697 | Every route that does not hand over, and every subroute of every VirtualServerRoute, is generated in its place, with the prefix of its own resource and the error pages in force for it: its own, or for a subroute without any those of the last route that hands over to it with error pages |
| `Sites.SiteOf` | internal/configs/virtualserver.go:884-897 | Nothing else is generated |
| `Sites.PathIsRead` | internal/configs/virtualserver.go:1960-1978 | NGINX reads the generated path of every route as the exact, preferred, plain or regular-expression path that the route's path means |
| `Sites.BlockOrigin` | internal/configs/version2/nginx-plus.virtualserver.tmpl:532-629 | Every location block of the server is one that was added, has the pattern of a route or subroute, or is an internal path |
| `Sites.NoneTakesExactly` | internal/configs/virtualserver.go:1960-1978 | Nobody takes a path among the generated locations exactly when no route's or subroute's own path does, and no added block |
| `Sites.VirtualServerCorrect` | internal/configs/virtualserver.go:417-1170 | For every valid VirtualServer whose safe name is a word, every route and subroute and every request: one location block has the pattern of the route, and some generated location answers as the action asked for and the error pages in force say, whatever the upstream answers. A request that enters the block ends there, through NGINX's choice of location, if and only if no route, no subroute and no added block takes the internal path in between |
| `Weights.SendUpdates` | internal/configs/configurator.go:794-803 | The loop over two-way splits stores one update each, in order |
| `Weights.UpdatesStoreDeclared` | internal/configs/configurator.go:794-803 | Afterwards every split of the VirtualServer has the key of its declared weights stored, and none overwrites another's |
| `Weights.DynamicRefinesStatic` | internal/configs/virtualserver.go:2368-2421 | With that key stored, key-value, map and split clients give the distribution of the static split, for all weights |
| `Weights.HeavierWithoutKey` | internal/configs/virtualserver.go:2268-2300 | With no key stored everything goes to the heavier side, ties to the first |
| `Weights.RequestsAreServed` | internal/configs/virtualserver.go:417-1170 | End to end, for every valid VirtualServer whose safe name is a word: after the updates are sent every request to every route and subroute ends with the effect of the first match that holds and the share its hash falls in, with the error pages in force for every answer of the upstream, with weights dynamic or not, unless a route, a subroute or an added block takes the internal path |
| `TakenPaths.InternalPathCanBeTaken` | internal/configs/virtualserver.go:2305-2318 | Beside any valid route, or any added block, that takes the internal path and not the first route's own, a request enters the first route and does not end at its internal location, or the path is there twice |
| `TakenPaths.TakingRoutes` | pkg/apis/configuration/validation/virtualserver.go:1431-1454 | An exact route at the internal path, or a regular expression that matches it: a request for the first route enters it and is proxied to the other route's upstream |
| `TakenPaths.ServedElsewhere` | internal/configs/virtualserver.go:1960-1978 | The same for every plain route whose exact path or regular expression takes the internal path and not the first route's own |
| `TakenPaths.PathTwice` | pkg/apis/configuration/validation/virtualserver.go:1431-1454 | A route at the internal path itself, with or without splits: the request enters the first route, and its internal location is a second block at one path |
| `TakenPaths.ServedByPolicy` | internal/configs/version2/nginx-plus.virtualserver.tmpl:589-606 | An exact block that a policy adds at the internal path: the request ends at no location of a route |
| `PolicyLocations.RenderedExactly` | internal/configs/policy.go:974-1031 | An OIDC location is at an internal path exactly when a rendered policy has it as its callback, its post-logout page, or the NJS callback |
| `PolicyLocations.NobodyTakesExactly` | internal/configs/version2/nginx-plus.virtualserver.tmpl:589-629 | With the blocks of OIDC and external-auth policies: nobody takes an internal path exactly when no route and no other block does, no rendered OIDC policy asks for it, and no external-auth policy signs in there |
| `PolicyLocations.InternalPathKept` | internal/configs/version2/nginx-plus.virtualserver.tmpl:532-629 | The same for the policies of a whole VirtualServer: its internal location has the path to itself exactly then |
| `PolicyLocations.OidcTakesPath` | pkg/apis/configuration/validation/policy.go:657-665 | A native policy with an internal path as its callback is accepted, and the requests of that split end at its block |
| `Generator.GenerateWeightClients` | internal/configs/virtualserver.go:2368-2421 | The loop over 0 to 100 builds the 101 split clients and the map entries of the specification |
| `Generator.GenerateSplits` | internal/configs/virtualserver.go:2232-2318 | Split clients, key-values and map of one group, as specified |
| `Generator.GenerateSplitLocations` | internal/configs/virtualserver.go:2302-2318 | The loop over splits numbers return locations from those already there |
| `Generator.GenerateConditionMaps` | internal/configs/virtualserver.go:2423-2449 | The nested loops build every condition map |
| `Generator.GenerateMainMap` | internal/configs/virtualserver.go:2451-2500 | The first pass, with its own running index, builds the specified main map |
| `Generator.GenerateAllMatches` | internal/configs/virtualserver.go:2502-2553 | The second pass, counting the split clients it really makes, meets the indices of the first |
| `Generator.GenerateMatchesConfig` | internal/configs/virtualserver.go:2423-2614 | Both passes together build the specified output of a route with matches |
| `Generator.GenerateDefaultSplitsConfig` | internal/configs/virtualserver.go:2323-2366 | The output of a route with splits only, as specified |
| `Generator.ProgressExtends` | internal/configs/virtualserver.go:818-880 | Taking the number of matches routes, of split clients and of return locations so far as the next indices continues the specified layout |
| `Generator.RemoveDuplicateMaps` | internal/configs/virtualserver.go:1480-1496 | The loop with its set of keys computes the specified list |
| `Generator.GenerateErrorPageLocations` | internal/configs/virtualserver.go:2911-2944 | The loop over error pages adds a named location for each page that is not a redirect |
| `Generator.Collector.AddSpecRoute` | internal/configs/virtualserver.go:618-697 | One route: its error pages are stored for the VirtualServerRoutes it hands over to, or its configuration is appended, keeping the collector in step |
| `Generator.Collector.AddSubroute` | internal/configs/virtualserver.go:888-897 | One subroute, with inherited error pages where it sets none |
| `Generator.GenerateVirtualServerConfig` | internal/configs/virtualserver.go:417-1170 | The whole fold over routes and subroutes builds the configuration that the theorems are about |
| `OidcRegistry.LocationRegistry.RegisterNative` | internal/configs/policy.go:974-1031 | All claims are checked before any is entered: accepted exactly when admitted, and a rejection leaves the registry as it was |
| `OidcRegistry.LocationRegistry.RegisterNjs` | internal/configs/policy.go:776-807 | All eight paths are checked before any is entered |
| `OidcRegistry.RemoveDuplicateProviders` | internal/configs/virtualserver.go:1445-1478 | The loop with its two sets computes the specified list |
| `OidcRegistry.OwnersNeverChange` | internal/configs/policy.go:974-1031 | No step changes the owner of a registered path, whatever the policies' own paths are |
| `OidcRegistry.OwnersNeverChangeInRun` | internal/configs/policy.go:774-807 | Nor does any run of native and NJS registrations |
| `OidcRegistry.SecondPassIdle` | internal/configs/virtualserver.go:1459-1474 | The second pass over post-logout locations finds nothing to remove when no two providers have the same one, which every run ensures |
| `OidcRegistry.NoPathRenderedTwice` | internal/configs/virtualserver.go:1445-1478 | After every run no two rendered OIDC locations have the same path exactly when each rendered policy's own paths are distinct |
| `OidcRegistry.OwnPathsCanCollide` | internal/configs/policy.go:1000-1028 | A callback equal to the policy's own proxy path is rendered twice |
| `OidcRegistry.OnlyPostLogoutShared` | internal/configs/policy.go:1011-1014 | Two accepted policies name the same path only as the post-logout page of two native providers |
| `OidcRegistry.NjsPathsNeverShared` | internal/configs/policy.go:784-807 | A native provider never shares a path with the NJS module |
| `OidcRegistry.PostLogoutServed` | internal/configs/policy.go:1020-1028 | A post-logout page is served exactly when the provider that registered it is kept |
| `OidcRegistry.PostLogoutPageLost` | internal/configs/policy.go:1020-1028 | If that provider's context fails afterwards, the other is accepted and nobody serves the page |
| `OidcAdmission.AdmittedExactly` | internal/configs/policy.go:1000-1019 | A native policy is refused if and only if its callback, post-logout or proxy path has another provider or another role, two post-logout pages aside |
| `OidcAdmission.NjsAdmittedExactly` | internal/configs/policy.go:776-800 | An NJS policy is refused if and only if its callback or one of the fixed locations has another owner |
| `OidcAdmission.NativeAfterNjs` | internal/configs/version2/oidc.tmpl:10-113 | After the NJS policy a native policy is accepted if and only if none of its paths is the NJS callback or one of the seven locations of the NJS module |
| `OidcAdmission.NjsAgain` | internal/configs/policy.go:801-807 | Registering an accepted NJS policy again is accepted and changes nothing |
| `OidcAdmission.AcceptedAgain` | internal/configs/policy.go:1008-1011 | However the registry grows after it accepted a policy, it accepts the policy again if and only if the policy's own paths differ from each other, and then nothing changes |
| `OidcAdmission.AcceptedAgainInRun` | internal/configs/policy.go:1000-1028 | So it is over every run of registrations |
| `OidcAdmission.KeptInEachRoute` | internal/configs/virtualserver.go:697-727 | A policy that one route of a VirtualServer has is kept in every later route that asks for it and is otherwise fine, if and only if its own paths differ |
| `OidcAdmission.KeptFromSpec` | internal/configs/virtualserver.go:445-470 | So is a policy that the spec has |
| `MergeableOidc.GenerateProviders` | internal/configs/ingress.go:1339-1507 | The loop over master and minions with one shared registry, one provider for every host, and duplicates removed in each and again in all, builds the specified list |
| `MergeableOidc.PartsFromRun` | internal/configs/ingress.go:351-375 | All that master and minions collect comes from one registry run over their policies in order |
| `MergeableOidc.DeduplicatedInManyParts` | internal/configs/ingress.go:1496-1507 | Removing duplicates member by member and then from all keeps the same providers as doing it once, for any number of minions |
| `MergeableOidc.NoPathMergedTwice` | internal/configs/ingress.go:1339-1507 | For every master and minions no OIDC location is rendered twice exactly when each rendered policy's own paths are distinct |
| `OidcAdmission.AcceptedForEachMinion` | internal/configs/ingress.go:338-375 | A policy that the master or one minion has is accepted for every later minion that names it, if and only if its own paths differ |
| `OidcAdmission.MemberIsRendered` | internal/configs/ingress.go:1339-1507 | Every member that is kept, has a valid host and whose policy is accepted has its provider among those rendered |
| `ExternalAuth.GenerateLocations` | internal/configs/virtualserver.go:567-610 | The loop over spec, routes and subroutes with its marks and its flag generates the specified locations |
| `ExternalAuth.AnsweredByFirst` | internal/configs/virtualserver.go:753-792 | Over every run: the subrequests of a context are answered for the first context with its auth URI, and by nobody when an earlier sign-in page was marked under the path |
| `ExternalAuth.AnsweredByOwn` | internal/configs/virtualserver.go:753-792 | A context is answered for its own policy if and only if the first context with its auth URI has that policy and no earlier sign-in page had taken the path |
| `ExternalAuth.MarkedExactly` | internal/configs/virtualserver.go:753-792 | The paths marked are those of the contexts that get locations, their own and their sign-in pages; a context gets locations exactly when its path is not among them |
| `ExternalAuth.BlocksExactly` | internal/configs/virtualserver.go:567-610 | The locations are exactly one for the subrequests of every context that gets locations, and one for signing in, at the base path of the first of them with a page for it |
| `ExternalAuth.AnsweredForOther` | internal/configs/virtualserver.go:790-792 | Two policies with one auth URI: both contexts are answered for the first |
| `ExternalAuth.NobodyAnswers` | internal/configs/virtualserver.go:782-784 | A policy that signs in at the path of another leaves that one without a location |
| `ExternalAuth.PathsUnique` | internal/configs/virtualserver.go:988-1026 | No two of the locations have the same path if and only if the sign-in location is not at the path of a policy's subrequests |
| `Policies.Builder.AddSingle` | internal/configs/policy.go:510-592 | One single-valued slot: misplaced, ignored, refused or filled, in the order of the code |
| `Policies.Builder.AddNjs` | internal/configs/policy.go:687-879 | An NJS policy: ignored, in conflict, reused, or registered and built |
| `Policies.Builder.AddNative` | internal/configs/policy.go:1033-1150 | A native policy: ignored, in conflict, or registered and built |
| `Policies.GeneratePolicies` | internal/configs/policy.go:1635-1746 | The fold answers 500 exactly when some reference fails or tiers conflict, otherwise returns exactly the declared record, and leaves the registry as specified either way |
| `Policies.Advance` | internal/configs/policy.go:1649-1731 | Each reference fails or extends the record as the declarative reading says, although it meets the registry as changed by earlier ones |
| `Policies.DeclaredAppend` | internal/configs/policy.go:187-250 | The declared record grows by one reference as the code's update does: first value of a slot, lists in order, first options, last CORS headers |
| `Policies.FailsIsStepFails` | internal/configs/policy.go:1649-1731 | Failing in terms of the references before is failing in terms of the record built so far |
| `Policies.FirstIsFirst` | internal/configs/policy.go:253-263 | A slot holds the first policy that fills it |
| `Policies.FailsClosed` | internal/configs/policy.go:1720-1731 | Nothing after a failing reference lifts the denial |
| `PolicyDenial.LookupExactly` | internal/configs/policy.go:1649-1668 | A reference finds the policy stored under namespace/name, the holder's namespace when it has none, and nothing else; an Ingress finds none of the kinds that it cannot have |
| `PolicyDenial.DeniedExactly` | internal/configs/policy.go:1635-1746 | Over the references and the stored policies: a context answers 500 if and only if a reference is missing, is not for an Ingress, is out of place, is a second API key, cannot be resolved before another fills its slot, mixes the two kinds of OIDC, or has the OIDC policy refused, or tiers conflict; otherwise every policy used is the one stored under the reference's text |
| `PolicyDenial.RecordExactly` | internal/configs/policy.go:187-263 | What an accepted context holds, read off its policies: every address of its access lists, every rate limit in order with the options of the first, in every slot the first usable value, and the last CORS headers and origins |
| `VirtualServerPolicies.ServerStays` | internal/configs/virtualserver.go:715-727 | The NJS policy that the server block renders never changes once set |
| `VirtualServerPolicies.OneNjsPolicy` | internal/configs/virtualserver.go:950-962 | Every location protected by NJS uses the policy in the server block, whatever spec, routes and subroutes name |
| `VirtualServerPolicies.OtherPolicyDenied` | internal/configs/policy.go:711-719 | A context whose first OIDC policy is another NJS policy gets 500 |
| `VirtualServerPolicies.NoLeak` | internal/configs/virtualserver.go:611-727 | A route is protected by NJS exactly when it names a policy itself and is accepted, or the spec's own protects it and it has no native provider |
| `VirtualServerPolicies.PassIsRun` | internal/configs/virtualserver.go:436-727 | What spec, routes and subroutes do to the registry, the providers and the NJS policy is a registry run |
| `VirtualServerPolicies.OidcLocationsUnique` | internal/configs/virtualserver.go:1134-1160 | So no OIDC location of a VirtualServer is rendered twice, exactly when own paths are distinct |
| `VirtualServerPolicies.GenerateRoutePolicies` | internal/configs/virtualserver.go:700-727 | One route's mark, provider and the NJS policy from then on |
| `VirtualServerPolicies.GenerateAllPolicies` | internal/configs/virtualserver.go:456-962 | The loop over spec, routes and subroutes computes the specified pass |
| `RateLimitTiers.GenerateGroupMaps` | internal/configs/policy.go:1888-1917 | The loop that prepends to the maps of a Go map builds, for every group variable, the specified map |
| `RateLimitTiers.HasDuplicateDefaults` | internal/configs/virtualserver.go:1512-1522 | True exactly when more than one entry is `default` |
| `RateLimitTiers.CollectGroupMaps` | internal/configs/policy.go:1733-1743 | In whatever order the Go map is visited: rejected exactly when some map has two defaults, otherwise every map is listed once |
| `RateLimitTiers.RejectedExactly` | internal/configs/policy.go:1733-1743 | A context is rejected exactly when two tiers of one group write a default, or one does so twice over |
| `RateLimitTiers.RejectionAgrees` | internal/configs/policy.go:1733-1743 | For every group the code rejects exactly what NGINX refuses for a second default, if and only if it does not compare with the word `default` beside another default, or conflicts anyway |
| `RateLimitTiers.QuotedDefaultAccepted` | internal/configs/policy.go:1859-1861 | A tier for the value `default` and a default tier for `gold`: accepted, and refused by NGINX |
| `RateLimitTiers.GroupMapSelectsTier` | internal/configs/policy.go:1888-1917 | A group map gives every request the policy value of its tier, whatever the conditions: one that names its value, else one whose regular expression matches, else a default one, of several the last; or nothing |
| `RateLimitTiers.KeyFollowsGroup` | internal/configs/policy.go:1919-1937 | A zone's key is non-empty exactly when the group variable holds its policy value |
| `RateLimitTiers.KeyFollowsTier` | internal/configs/policy.go:1888-1937 | For every context and request: a zone's key is non-empty exactly when the policy value of the request's tier is the zone's own |
| `RateLimitTiers.OnlyOwnTier` | internal/configs/policy.go:1801-1886 | With distinct policy values each zone limits its own tier and no other |
| `RateLimitTiers.OneTierAtMost` | internal/configs/policy.go:1888-1917 | A request has at most one tier |
| `TiersInForce.DroppedExactly` | internal/configs/virtualserver.go:1480-1496 | A zone's map is dropped as a duplicate exactly when the zone already has one in the same group |
| `TiersInForce.ZoneMapInForce` | internal/configs/virtualserver.go:1480-1496 | Over all maps of a VirtualServer: the map of a zone in its group is in force exactly when no map of the same zone in another group first occurs after it |
| `TiersInForce.RouteFollowsTier` | internal/configs/virtualserver.go:795-800 | For every VirtualServer, route and request: a zone whose map is in force limits the request exactly when the request's tier on that route has the zone's policy value |
| `TiersInForce.KeyFollowsLast` | internal/configs/virtualserver.go:1480-1496 | For every VirtualServer, zone and request: the key follows the tiers of the context whose map of the zone first occurs last, so it serves another context right exactly when the two put the request in the zone's tier alike |
| `TiersInForce.EarlierRouteMisled` | internal/configs/virtualserver.go:475-480 | When a second route names the default policy alone, requests of the first route that ask for its other tier are limited by the default tier too |
| `TiersInForce.MisleadingExample` | internal/configs/policy.go:1801-1886 | Such policies exist |
| `IngressFiles.Configurator.HasActiveEmptyHost` | internal/configs/configurator.go:467-474 | True exactly when some Ingress held in memory has the empty host |
| `IngressFiles.Configurator.SyncDefaultServer` | internal/configs/configurator.go:476-490 | Writes the fallback unless an empty-host Ingress is active |
| `IngressFiles.Configurator.AddOrUpdate` | internal/configs/configurator.go:494-554 | The new memory and files, for every outcome of the two writes |
| `IngressFiles.Configurator.DeleteIngress` | internal/configs/configurator.go:1154-1166 | The new memory and files |
| `IngressFiles.FilesAlwaysMatch` | internal/configs/configurator.go:521-549 | In every run, whatever writes fail, a dedicated file exists exactly for each Ingress with a host, with its content |
| `IngressFiles.FailedWriteChangesNothing` | internal/configs/configurator.go:533-538 | In every run a failed write of the own file is reported, and leaving it out of the run comes to the same memory and files |
| `IngressFiles.DefaultServerCorrect` | internal/configs/configurator.go:467-554 | In every run that never has two empty-host Ingresses active the shared file serves the active one, and after a success the fallback if there is none |
| `IngressFiles.LastWriterStays` | internal/configs/configurator.go:476-490 | In every run, while any is active the shared file holds what the last of them to be written stored |
| `IngressFiles.StaleDefaultServer` | internal/configs/configurator.go:476-490 | Deleting the last of two writers leaves its content although only the other is active |
| `IngressFiles.MemoryExactly` | internal/configs/configurator.go:494-554 | In every run memory holds exactly the Ingresses that were written and not deleted since, each as last written |
| `IngressFiles.SucceedsExactly` | internal/configs/configurator.go:494-554 | An operation reports success if and only if its own file was written and an empty-host Ingress is held or the fallback could be written |
| `ResourceUpdates.ApplyResourceUpdates` | internal/configs/configurator.go:1709-1744 | The processed prefix, the error keys, the trailing failures, the weight updates and the shared-input verdict, for all three modes |
| `ResourceUpdates.ProcessedUnique` | internal/configs/configurator.go:1709-1744 | There is one such prefix: it ends at the first two failures in a row |
| `ResourceUpdates.FailuresBounded` | internal/configs/configurator.go:1732-1737 | With early exit at most (processed + 2) / 2 updates have failed |
| `ResourceUpdates.BuildFilenameToErrorKey` | internal/configs/configurator.go:1753-1793 | The map holds, for every written file, the keys of all resources that share it, in order |
| `ResourceUpdates.OwnFileNamesOwner` | internal/configs/configurator.go:1746-1752 | Every resource's own written file leads back to the resource |
| `ResourceUpdates.FileIsWritten` | internal/configs/configurator.go:1753-1793 | The file that a resource is looked up by is the one its content is written to, the shared file for an empty host |
| `ResourceUpdates.AttributeExclusions` | internal/configs/configurator.go:1829-1845 | The nested loops collect the keys that the excluded files stand for |
| `ResourceUpdates.EffectiveCount` | internal/configs/configurator.go:1829-1845 | The count is one for each resource whose file was excluded, even for shared files, plus one for each excluded file that no resource wrote |
| `ResourceUpdates.AllBroken` | internal/configs/configurator.go:1588-1596 | When only files of resources are excluded the count reaches the total exactly when every resource's file is excluded |
| `ResourceUpdates.ErrorKeyInjective` | internal/configs/warnings.go:21-23 | Error keys tell resources apart by kind, namespace and name |
| `ResourceUpdates.BatchReport.CompleteBatchAndIsolate` | internal/configs/configurator.go:1809-1896 | Errors and count when the tree was made valid, when no resource can be applied, and after a second try; a second try follows only when some file could not be excluded |
| `ResourceUpdates.CountIsReported` | internal/configs/configurator.go:1829-1896 | The count equals the number of reported resources exactly when, in a valid tree, nothing failed beside the exclusions, and after a second try, as many excluded resources are accepted as other resources are rejected |
| `ResourceUpdates.HeldExactly` | internal/k8s/controller.go:1380-1394 | A pod that is held back has every resource reported as broken; the other way round exactly two cases are missed: a second try that rejects everything, and exclusions of some resources when all the others failed while the batch was written |
| `ResourceUpdates.ReplayIsNotHeld` | internal/configs/configurator.go:1880-1896 | After a second try the pod is never held back |
| `ResourceUpdates.BrokenButReady` | internal/configs/configurator.go:1845 | Two resources, both rejected in the second try, and the pod becomes ready |
| `ResourceUpdates.OneOfEach` | internal/configs/configurator.go:1829-1849 | One resource failed while the batch was written and the other is excluded, and the pod becomes ready |
| `ResourceUpdates.UnrecoverableReportsAll` | internal/configs/configurator.go:1862-1877 | The unrecoverable path reports every resource |
| `BatchIsolation.Manager.BinarySearch` | internal/nginx/rollback_manager.go:401-436 | The search ends at one of the candidates and enables again all that it disabled; when files do not depend on each other it ends at a bad one, however many are bad |
| `BatchIsolation.Manager.IsolateBadConfigs` | internal/nginx/rollback_manager.go:325-370 | Whatever files do to each other: it ends with a valid tree, at a file that cannot be taken out, or with nothing left of the batch; nothing is taken out of a valid tree; the iteration cap is never reached; and with independent files exactly the bad ones are taken out |
| `BatchIsolation.Manager.CompleteBatch` | internal/nginx/rollback_manager.go:285-320 | The same after the first test of the whole tree, with the files that are left deleted on failure |
| `LabelIndex.FindRemovedKeys` | internal/configs/configurator.go:216-224 | The names that are no longer used |
| `LabelIndex.MetricLabels.UpdateLabels` | internal/configs/configurator.go:235-292 | Index and labels of upstreams and peers after an update |
| `LabelIndex.MetricLabels.DeleteLabels` | internal/configs/configurator.go:294-308 | Exactly the names that the resource indexed lose their labels, every other label keeps its value and no other resource's index changes |
| `LabelIndex.UpdateAgrees` | internal/configs/configurator.go:235-288 | An update keeps collector and index in agreement exactly when no name it takes back belongs to another resource too |
| `LabelIndex.RemoveAgrees` | internal/configs/configurator.go:705-719 | So does a deletion |
| `LabelIndex.CollectorFollowsIndex` | internal/configs/configurator.go:235-308 | In every run of updates and deletions with different names for different resources the collector holds exactly the indexed names, each with the label asked for last |
| `LabelIndex.EntriesExactly` | internal/configs/configurator.go:235-292 | There is an entry for every upstream, and one for every server of every upstream under upstream/address with its pod, and no other |
| `LabelIndex.TableLast` | internal/configs/configurator.go:235-292 | Of several entries with one name the last decides the label |
| `LabelIndex.IndexedIsLatest` | internal/configs/configurator.go:235-308 | In every run a resource has indexed exactly the names it asked for last |
| `LiveLabels.Labelled.AddOrUpdateIngress` | internal/configs/configurator.go:533-552 | Files and labels after an update: labels follow the own file, not the default server |
| `LiveLabels.Labelled.DeleteIngress` | internal/configs/configurator.go:1154-1170 | Files and labels after a deletion: labels go only when the default server is in order |
| `LiveLabels.IndexedExactly` | internal/configs/configurator.go:1154-1207 | In every run the index holds exactly the live resources and the Ingresses whose deletion stopped half-way and that have not been put or deleted since |
| `LiveLabels.LiveExactly` | internal/configs/configurator.go:1154-1207 | The live resources are those that were written and not deleted since |
| `LiveLabels.LabelsExactly` | internal/configs/configurator.go:1154-1207 | In every run with different names for different resources the collector holds exactly the names of live resources, if and only if those Ingresses had none |
| `LiveLabels.LeftBehind` | internal/configs/configurator.go:1164-1170 | An Ingress that is gone and whose label stays |
| `ResourceNames.UpstreamNamesInjective` | internal/configs/virtualserver.go:177-213 | Upstreams of VirtualServers, of routes and of the external-auth policies that either names never share a name, across all resources |
| `ResourceNames.ExternalAuthPushMissesUpstream` | internal/configs/configurator.go:1378-1392 | The name pushed for an external-auth service is no such upstream's name and no route's; only an upstream in a namespace `exauth` could have it |
| `ResourceNames.FileNamesInjective` | internal/configs/configurator.go:2151-2161 | Files of VirtualServers, TransportServers and their OIDC parts never share a name |
| `ResourceNames.DeletesWhatWasWritten` | internal/configs/configurator.go:2163-2171 | The name derived from a key is the name derived from the object |
| `ResourceNames.IngressDeletesWhatWasWritten` | internal/configs/configurator.go:2139-2145 | The same for Ingresses |
| `ResourceNames.IngressFileNamesCollide` | internal/configs/configurator.go:2143-2145 | Two Ingresses can share a file name |
| `ResourceNames.IngressFilesApart` | internal/configs/configurator.go:2143-2153 | But never with a file of another kind |
| `PlusEndpoints.OrderedUnique` | internal/configs/virtualserver.go:1639-1641 | There is one sorted list of given addresses, so the order of endpoints and the sort make no difference |
| `PlusEndpoints.SortedOfPermutation` | internal/configs/virtualserver.go:1632-1641 | Endpoints in any order give the same servers |
| `PlusEndpoints.LeqExactly` | internal/configs/virtualserver.go:1639-1641 | Addresses are compared lexicographically: a prefix first, otherwise by the first difference |
| `PlusEndpoints.CreateUpstreamsForPlus` | internal/configs/virtualserver.go:2757-2818 | The loops over the spec's and the routes' upstreams build the specified list |
| `PlusEndpoints.PushedIsFile` | internal/configs/virtualserver.go:2757-2818 | On NGINX Plus what is pushed is what the file has without the ExternalName services: names, sorted servers and parameters |
| `UpstreamFields.ReferenceParsed` | internal/configs/virtualserver.go:154-167 | A service reference with exactly one slash names namespace and service, any other a service in the namespace of the resource |
| `UpstreamFields.FileFields` | internal/configs/virtualserver.go:364-389 | Every upstream of the VirtualServer and its routes is in the file under its own name, and no other: the servers are the sorted addresses stored for its service, subselector and port, the 502 server or none in the cases of the code, and each parameter is its own or the default |
| `UpstreamFields.PushFields` | internal/configs/virtualserver.go:1624-1681 | The same for what is pushed, with the rules of NGINX Plus: every upstream whose service is no ExternalName service, and no other |
| `PlusEndpoints.Plus.PushAll` | internal/configs/configurator.go:1358-1369 | Each upstream's running servers are set in turn up to the first failure, and no others change |
| `PlusEndpoints.Plus.UpdateEndpoints` | internal/configs/configurator.go:1325-1356 | With reloads enabled a success leaves the running servers of every managed upstream equal to the file, by API or by reload, for all VirtualServers given |
| `TimeFormat.NeverSplit` | internal/configs/parsing_helpers.go:215 | Backtracking never splits a number into seconds and milliseconds |
| `TimeFormat.MatchIsMunch` | internal/configs/parsing_helpers.go:215 | The lazy groups with all their backtracking capture exactly what reading number after number captures |
| `TimeFormat.MunchValue` | internal/configs/parsing_helpers.go:215 | The captured parts add up to the duration that the text denotes |
| `TimeFormat.Reparse` | internal/configs/parsing_helpers.go:222-235 | The text of canonical parts reads back as the same parts |
| `TimeFormat.ParseTimeSound` | internal/configs/parsing_helpers.go:215-235 | Every accepted time has a non-empty normal form that is accepted unchanged and denotes the same duration, a bare number being seconds |
| `TimeGrammar.AcceptedExactly` | internal/configs/parsing_helpers.go:215-221 | A text is accepted if and only if it is not blank and is a list of amounts in the order y, M, w, d, h, m, s or bare, ms, with blanks after any amount but the last unit's |
| `TimeGrammar.WrittenText` | internal/configs/parsing_helpers.go:222-235 | What is written is the text without its blanks, with an `s` put in where seconds lack it |
| `RateScaling.ScaleRate` | internal/configs/ingress.go:1606-1630 | The division with its change of unit and flooring computes the specified share |
| `RateScaling.NeverOverAdmits` | internal/configs/ingress.go:1620-1629 | n replicas together admit at most the rate, across the change of unit, and fall short by less than n steps of the result |
| `RateScaling.ReadShow` | internal/configs/parsing_helpers.go:278-300 | A rate that is written reads back |
| `RateScaling.RateAcceptedExactly` | internal/configs/parsing_helpers.go:281-300 | A text is accepted if and only if it is, between spaces, a number from one to the largest integer directly followed by r/s or r/m; and what is accepted is that rate |
| `RateScaling.ScaledAcceptedExactly` | internal/configs/parsing_helpers.go:281-300 | A scaled rate is accepted again exactly when it is not zero: n <= a for a per minute, n <= 60a for a per second |
| `RateScaling.PolicyRateScaled` | pkg/apis/configuration/validation/policy.go:1581-1592 | For every rate that policy validation accepts: the replicas together never admit more than the rate if and only if there is one replica, or the unit is in small letters and the number fits the machine; in all other cases the text stays as it is; and the result is a rate again if and only if it was not scaled or there are at most as many replicas as requests per minute |
| `RateScaling.WideNotScaled` | pkg/apis/configuration/validation/policy.go:1581-1592 | A number too wide for the machine is never scaled |
| `RateScaling.CapitalsNotScaled` | pkg/apis/configuration/validation/policy.go:1581-1592 | A unit in capitals is never scaled |

## Left out

- Upstream contents other than the servers and parameters pushed to Plus, health checks, TLS, snippets and listeners: field copies with easy per-branch facts.
- Rewrites, header changes, gRPC and proxy settings of an action: the meaning of an action is its upstream, redirect or response.
- Backup servers: the API pushes none, so they stay outside the agreement of file and running servers.
- PlusEndpoints.Plus.UpdateEndpoints: does not push for external-auth services, because only that the name pushed for them misses the file is stated.
- Generator.GenerateVirtualServerConfig: takes the location blocks that policies and snippets add as given, because `OidcRegistry`, `ExternalAuth` and `PolicyLocations` say what they are; external-auth locations, written among those of the routes, count as written before them, which makes no difference for plain paths.
- Which VirtualServerRoutes a route hands over to, by name or by selector: their keys are given with the route.
- Status codes from an upstream under 300: no error page can be for them, as validation has it.
- Headers that NGINX keeps only once: several fields of one name are joined by commas, as it does for the others.
- An Ingress is identified by its file name, in `IngressFiles` and in `LiveLabels`; that two Ingresses can share one is stated in `ResourceNames`.
- TransportServers, TLS passthrough and the Ingress rule compiler: separate generators with simpler structure.
- Secrets, bundles and their error texts: a policy's resolution is a value that is usable or not.
- Warnings: none are modelled.
- The scope of a policy's names, such as snake-cased provider, zone and variable names across resources: identity tokens, since the code does not make them unique.
- A policy with more than one specification field set: validation rejects it, and the first in the code's order would be used.
- Mergeable Ingresses follow the same file transitions as a single Ingress and are one operation in `IngressFiles`; the map of minions is not modelled.
- Server-zone labels: kept in the same way as upstream and peer labels.
- RateScaling.ScaleRate: divides exactly, because the code's float64 rounding for rates near the limits of its precision is not the point.
- RateLimitTiers.GroupMapSelectsTier: of two tiers with the same plain value the later is taken, and that NGINX refuses such a map is not modelled, because the code has no check for it.
- RateLimitTiers.KeyFollowsTier: a `${name}` in a zone key is not expanded as NGINX does, because only whether the key is empty matters.
- TimeFormat.ParseTimeSound: years have 365 and months 30 days, as NGINX counts them.
- BatchIsolation.Manager.IsolateBadConfigs: which files disabling and enabling may fail for is not modelled, nor the saved copy that replaces an excluded default-server file, because the test of a tree is an arbitrary predicate of the batch files in it.
- Nginx variable expansion is bounded by a depth; every theorem holds at any depth that is at least the longest chain of conditions plus four.
