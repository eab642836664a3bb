/** Which stored job answers a request, and when its worker application is resolved again. */
module ReusableImpact {
  import opened Outcome
  import opened LikePattern
  import opened OptionsHash
  import opened ReformImpacts
  import SpmSelection
  import RC = ReformImpactCache

  /** One request, with the versions and options hash resolved so far. `spm` is the resolved SPM
      selection among its options, if it has one. */
  datatype Request = Request(
    scope: Scope,
    apiVersion: string,
    target: string,
    options: map<string, OptionValue>,
    policyengineVersion: Option<string>,
    dataVersion: Option<string>,
    modelVersion: Option<string>,
    runtimeAppName: Option<string>,
    optionsHash: string,
    spm: Option<SpmSelection.Values>)

  /** The gateway's answer: the worker application and its model version. */
  datatype Resolution = Resolution(appName: string, modelVersion: Option<string>)

  function Bundle(request: Request): RuntimeBundle {
    RuntimeBundle(request.scope.dataset, request.modelVersion, request.policyengineVersion, request.dataVersion,
                  request.runtimeAppName)
  }

  function Resolved(request: Request, resolution: Resolution): Request {
    var resolved := request.(runtimeAppName := Some(resolution.appName), modelVersion := resolution.modelVersion);
    resolved.(optionsHash := BuildOptionsHash(request.options, Bundle(resolved)))
  }

  /** A resolved request asks for the very application and model version that the gateway named,
      with the dataset and other versions it had; nothing else of it changes. */
  lemma ResolvedNamesTheAnswer(request: Request, resolution: Resolution)
    ensures var resolved := Resolved(request, resolution);
            && resolved.optionsHash
               == BuildOptionsHash(request.options,
                                   RuntimeBundle(request.scope.dataset, resolution.modelVersion, request.policyengineVersion,
                                                 request.dataVersion, Some(resolution.appName)))
            && resolved.modelVersion == resolution.modelVersion && resolved.runtimeAppName == Some(resolution.appName)
            && resolved.scope == request.scope && resolved.apiVersion == request.apiVersion
            && resolved.options == request.options && resolved.spm == request.spm && resolved.target == request.target
  {
  }

  // ---- Selecting a stored job ----

  /** The previous runs among these entries of the scope index. */
  function Previous(entries: seq<(nat, Option<Stored>)>, request: Request): seq<Impact> {
    RC.BestFirst(
      RC.Selected(Found(entries), Some(request.optionsHash), Some(BuildLookupPattern(request.optionsHash))),
      Some(request.optionsHash))
  }

  function FirstExact(impacts: seq<Impact>, optionsHash: string): (r: Option<Impact>)
    ensures r.Some? ==> r.value in impacts && r.value.optionsHash == Some(optionsHash)
    ensures r.None? ==> forall impact :: impact in impacts ==> impact.optionsHash != Some(optionsHash)
  {
    if impacts == [] then None
    else if impacts[0].optionsHash == Some(optionsHash) then Some(impacts[0])
    else FirstExact(impacts[1..], optionsHash)
  }

  function MostRecent(entries: seq<(nat, Option<Stored>)>, request: Request): Option<Impact> {
    var previous := Previous(entries, request);
    if previous == [] then None
    else
      var exact := FirstExact(previous, request.optionsHash);
      if exact.Some? then exact else Some(previous[0])
  }

  predicate NamesApp(impact: Impact, appName: string) {
    impact.resolvedAppName == Some(appName) && appName != ""
  }

  /** Whether a selected job must be selected again under the resolved options hash. */
  predicate ShouldRefresh(impact: Impact, resolution: Option<Resolution>) {
    impact.status != Computing && resolution.Some? && !NamesApp(impact, resolution.value.appName)
  }

  /** The request after the check: resolving is skipped for a job that is still computing, and
      changes nothing when it fails. */
  function AfterCheck(request: Request, impact: Impact, resolution: Option<Resolution>): Request {
    if impact.status == Computing || resolution.None? then request else Resolved(request, resolution.value)
  }

  /** What a second selection may return. */
  function ExactOnly(selected: Option<Impact>, request: Request): Option<Impact> {
    if selected.Some? && selected.value.optionsHash == Some(request.optionsHash) then selected else None
  }

  /** The job that answers the request: the selected one or, if it must be selected again under the
      refreshed request, the one selected then. */
  function Chosen(selected: Option<Impact>, again: Option<Impact>, refreshed: Request, resolution: Option<Resolution>)
    : Option<Impact>
  {
    if selected.Some? && ShouldRefresh(selected.value, resolution) then ExactOnly(again, refreshed) else selected
  }

  /** The request that a second selection is made for. */
  function Refreshed(request: Request, resolution: Option<Resolution>): Request {
    if resolution.Some? then Resolved(request, resolution.value) else request
  }

  /** The job that answers the request, from the entries read first and, if it is selected again, second. */
  function Reusable(first: seq<(nat, Option<Stored>)>, second: seq<(nat, Option<Stored>)>, request: Request,
                    resolution: Option<Resolution>): Option<Impact>
  {
    Chosen(MostRecent(first, request), MostRecent(second, Refreshed(request, resolution)), Refreshed(request, resolution),
           resolution)
  }

  /** The impact's hash is the request's, or extends it. */
  predicate HashMatches(impact: Impact, request: Request) {
    && impact.optionsHash.Some?
    && (|| impact.optionsHash.value == request.optionsHash
        || ExtendsOnOneLine(LookupPrefix(request.optionsHash), impact.optionsHash.value))
  }

  /** The impact is in these entries, and matches the request's hash or extends it. */
  predicate MatchesRequest(impact: Impact, entries: seq<(nat, Option<Stored>)>, request: Request) {
    impact in Found(entries) && HashMatches(impact, request)
  }

  lemma PreviousHolds(entries: seq<(nat, Option<Stored>)>, request: Request, impact: Impact)
    ensures impact in Previous(entries, request) <==> MatchesRequest(impact, entries, request)
  {
    var hash, pattern := request.optionsHash, BuildLookupPattern(request.optionsHash);
    var selected := RC.Selected(Found(entries), Some(hash), Some(pattern));
    RC.SelectedHolds(Found(entries), Some(hash), Some(pattern), impact);
    if impact.optionsHash.Some? { PatternFindsExtensions(hash, impact.optionsHash.value); }
    assert impact in Previous(entries, request) <==> impact in multiset(Previous(entries, request));
    assert impact in selected <==> impact in multiset(selected);
  }

  /** The selected job is the best of all that match: an exact hash before any extension, then the
      newest; and there is one exactly if any job matches. */
  lemma MostRecentIsBest(entries: seq<(nat, Option<Stored>)>, request: Request, other: Impact)
    ensures var selected := MostRecent(entries, request);
            && (selected.Some? ==> MatchesRequest(selected.value, entries, request))
            && (MatchesRequest(other, entries, request) ==>
                  selected.Some? && !RC.Better(other, selected.value, Some(request.optionsHash)))
  {
    var previous := Previous(entries, request);
    var hash := Some(request.optionsHash);
    PreviousHolds(entries, request, other);
    RC.BestFirstRanks(RC.Selected(Found(entries), hash, Some(BuildLookupPattern(request.optionsHash))), hash);
    if previous != [] {
      PreviousHolds(entries, request, previous[0]);
      FirstExactIsFirst(previous, request.optionsHash);
      if other in previous {
        var i :| 0 <= i < |previous| && previous[i] == other;
        assert !RC.Better(other, previous[0], hash);
      }
    }
  }

  /** Ranked impacts start with the exact one, if there is one. */
  lemma FirstExactIsFirst(ranked: seq<Impact>, optionsHash: string)
    requires ranked != [] && RC.Ranking(ranked, Some(optionsHash))
    ensures var exact := FirstExact(ranked, optionsHash);
            exact.Some? ==> exact.value == ranked[0]
  {
    var exact := FirstExact(ranked, optionsHash);
    if exact.Some? {
      var i :| 0 <= i < |ranked| && ranked[i] == exact.value;
      assert !RC.Better(ranked[i], ranked[0], Some(optionsHash));
    }
  }

  /** A finished job that names the worker application the request resolves to, or has exactly
      the refreshed options hash; any job if it is computing or nothing could be resolved. */
  predicate Trusted(impact: Impact, refreshed: Request, resolution: Option<Resolution>) {
    impact.status != Computing && resolution.Some? ==>
      || NamesApp(impact, resolution.value.appName)
      || impact.optionsHash == Some(refreshed.optionsHash)
  }

  /** The impact was listed under the request's scope, with a hash that matches or extends the one looked up. */
  ghost predicate WasListed(impact: Impact, first: seq<(nat, Option<Stored>)>, second: seq<(nat, Option<Stored>)>,
                            request: Request, refreshed: Request)
  {
    MatchesRequest(impact, first, request) || MatchesRequest(impact, second, refreshed)
  }

  lemma ChosenIsSelected(selected: Option<Impact>, again: Option<Impact>, refreshed: Request, resolution: Option<Resolution>)
    ensures var chosen := Chosen(selected, again, refreshed, resolution);
            chosen.Some? ==> (chosen == selected || chosen == again) && Trusted(chosen.value, refreshed, resolution)
  {
  }

  /** Reuse is sound: a finished job is returned only if it names the worker application the
      request now resolves to, or has exactly the refreshed options hash, or the application
      could not be resolved. */
  lemma ReuseIsSound(first: seq<(nat, Option<Stored>)>, second: seq<(nat, Option<Stored>)>, request: Request,
                     resolution: Option<Resolution>)
    ensures var reused, refreshed := Reusable(first, second, request, resolution), Refreshed(request, resolution);
            reused.Some? ==>
              && WasListed(reused.value, first, second, request, refreshed)
              && Trusted(reused.value, refreshed, resolution)
  {
    var refreshed := Refreshed(request, resolution);
    SelectedMatches(first, request);
    SelectedMatches(second, refreshed);
    ChosenIsSelected(MostRecent(first, request), MostRecent(second, refreshed), refreshed, resolution);
  }

  /** A selected job that needs no other is reused: one that is computing, or names the application
      that the request resolves to, or any if nothing could be resolved. Every other is given up for
      the best job with exactly the refreshed hash, if there is one. */
  lemma TrustedJobIsKept(first: seq<(nat, Option<Stored>)>, second: seq<(nat, Option<Stored>)>, request: Request,
                         resolution: Option<Resolution>, selected: Impact)
    requires MostRecent(first, request) == Some(selected)
    ensures var reused, refreshed := Reusable(first, second, request, resolution), Refreshed(request, resolution);
            if selected.status == Computing || resolution.None?
               || (selected.resolvedAppName == Some(resolution.value.appName) && resolution.value.appName != "")
            then reused == Some(selected)
            else
              && (reused.Some? ==> reused.value in Found(second) && reused.value.optionsHash == Some(refreshed.optionsHash))
              && (reused.None? ==>
                    forall impact :: impact in Found(second) ==> impact.optionsHash != Some(refreshed.optionsHash))
  {
    var refreshed := Refreshed(request, resolution);
    SelectedMatches(second, refreshed);
    forall impact | impact in Found(second) && impact.optionsHash == Some(refreshed.optionsHash)
      ensures ExactOnly(MostRecent(second, refreshed), refreshed).Some?
    {
      ExactIsKept(second, refreshed, impact);
    }
  }

  /** Without a selected job nothing is reused. */
  lemma NothingSelected(first: seq<(nat, Option<Stored>)>, second: seq<(nat, Option<Stored>)>, request: Request,
                        resolution: Option<Resolution>, impact: Impact)
    requires Reusable(first, second, request, resolution).None?
    ensures resolution.None? ==> !MatchesRequest(impact, first, request)
    ensures MatchesRequest(impact, first, request) ==> impact !in Found(second) || impact.optionsHash != Some(Refreshed(request, resolution).optionsHash)
  {
    MostRecentIsBest(first, request, impact);
    var selected := MostRecent(first, request);
    if selected.Some? { TrustedJobIsKept(first, second, request, resolution, selected.value); }
  }

  lemma SelectedMatches(entries: seq<(nat, Option<Stored>)>, request: Request)
    ensures var selected := MostRecent(entries, request);
            selected.Some? ==> MatchesRequest(selected.value, entries, request)
  {
    var selected := MostRecent(entries, request);
    if selected.Some? { MostRecentIsBest(entries, request, selected.value); }
  }

  /** No job is lost: if each selection lists a job stored under exactly the hash the request
      resolves to, and resolving keeps the model version, then the request reuses a stored job, for
      every options dictionary and every other entry. The application's name must have no newline. */
  lemma StoredJobIsReused(first: seq<(nat, Option<Stored>)>, second: seq<(nat, Option<Stored>)>, request: Request,
                          resolution: Resolution, stored: Impact, storedThen: Impact)
    requires request.optionsHash == BuildOptionsHash(request.options, Bundle(request))
    requires request.runtimeAppName.None? && resolution.modelVersion == request.modelVersion
    requires resolution.appName != "" && NewlineFree(resolution.appName)
    requires stored in Found(first) && stored.optionsHash == Some(Resolved(request, resolution).optionsHash)
    requires storedThen in Found(second) && storedThen.optionsHash == stored.optionsHash
    ensures Reusable(first, second, request, Some(resolution)).Some?
  {
    StoredJobMatches(first, request, resolution, stored);
    MostRecentIsBest(first, request, stored);
    ExactIsKept(second, Resolved(request, resolution), storedThen);
  }

  lemma StoredJobMatches(entries: seq<(nat, Option<Stored>)>, request: Request, resolution: Resolution, stored: Impact)
    requires request.optionsHash == BuildOptionsHash(request.options, Bundle(request))
    requires request.runtimeAppName.None? && resolution.modelVersion == request.modelVersion
    requires resolution.appName != "" && NewlineFree(resolution.appName)
    requires stored in Found(entries) && stored.optionsHash == Some(Resolved(request, resolution).optionsHash)
    ensures MatchesRequest(stored, entries, request)
  {
    var resolved := Resolved(request, resolution);
    assert Bundle(resolved) == Bundle(request).(runtimeAppName := Some(resolution.appName));
    LookupFindsResolvedHash(request.options, Bundle(request), resolution.appName);
    PatternFindsExtensions(request.optionsHash, resolved.optionsHash);
  }

  lemma ExactIsKept(entries: seq<(nat, Option<Stored>)>, request: Request, stored: Impact)
    requires stored in Found(entries) && stored.optionsHash == Some(request.optionsHash)
    ensures ExactOnly(MostRecent(entries, request), request).Some?
  {
    MostRecentIsBest(entries, request, stored);
  }

  // ---- The service's operations ----

  class SetupOptions {
    const scope: Scope
    const apiVersion: string
    const target: string
    const options: map<string, OptionValue>
    const policyengineVersion: Option<string>
    const dataVersion: Option<string>
    const spm: Option<SpmSelection.Values>
    var modelVersion: Option<string>
    var runtimeAppName: Option<string>
    var optionsHash: string

    ghost function Current(): Request
      reads this
    {
      Request(scope, apiVersion, target, options, policyengineVersion, dataVersion, modelVersion, runtimeAppName,
              optionsHash, spm)
    }

    constructor (scope: Scope, apiVersion: string, target: string, options: map<string, OptionValue>,
                 policyengineVersion: Option<string>, dataVersion: Option<string>, modelVersion: Option<string>,
                 spm: Option<SpmSelection.Values>)
      ensures Current().scope == scope && Current().apiVersion == apiVersion && Current().target == target
      ensures Current().options == options && Current().modelVersion == modelVersion && Current().runtimeAppName == None
      ensures Current().spm == spm
      ensures Current().policyengineVersion == policyengineVersion && Current().dataVersion == dataVersion
      ensures optionsHash == BuildOptionsHash(options, Bundle(Current()))
    {
      this.scope, this.apiVersion, this.target, this.options := scope, apiVersion, target, options;
      this.policyengineVersion, this.dataVersion := policyengineVersion, dataVersion;
      this.modelVersion, this.spm, runtimeAppName := modelVersion, spm, None;
      optionsHash := BuildOptionsHash(options, RuntimeBundle(scope.dataset, modelVersion, policyengineVersion,
                                                             dataVersion, None));
    }

    method Rebuild()
      modifies this`optionsHash
      ensures Current() == old(Current()).(optionsHash := BuildOptionsHash(options, Bundle(old(Current()))))
    {
      optionsHash := BuildOptionsHash(options, RuntimeBundle(scope.dataset, modelVersion, policyengineVersion,
                                                             dataVersion, runtimeAppName));
    }

    /** Resolves the worker application unless it is already known, and rebuilds the hash. */
    method ResolveRuntimeBundle(resolution: Resolution)
      modifies this
      ensures Current() == if old(runtimeAppName).None? then Resolved(old(Current()), resolution)
                           else old(Current()).(optionsHash := BuildOptionsHash(options, Bundle(old(Current()))))
    {
      if runtimeAppName.None? {
        runtimeAppName := Some(resolution.appName);
        modelVersion := resolution.modelVersion;
      }
      Rebuild();
    }

    method ShouldRefreshCachedImpact(impact: Impact, resolution: Option<Resolution>) returns (refresh: bool)
      modifies this
      ensures refresh == ShouldRefresh(impact, resolution)
      ensures Current() == AfterCheck(old(Current()), impact, resolution)
    {
      if impact.status == Computing || resolution.None? {
        return false;
      }
      runtimeAppName := Some(resolution.value.appName);
      modelVersion := resolution.value.modelVersion;
      Rebuild();
      if impact.resolvedAppName.None? || impact.resolvedAppName.value == "" {
        return true;
      }
      return resolution.value.appName != impact.resolvedAppName.value;
    }
  }

  class StoredImpacts {
    const cache: RC.ReformImpactCache

    constructor (cache: RC.ReformImpactCache)
      ensures this.cache == cache
    {
      this.cache := cache;
    }

    ghost function Entries(setup: SetupOptions): seq<(nat, Option<Stored>)>
      reads cache.client
    {
      IndexEntries(cache.View(), ScopeIndex(setup.scope, setup.apiVersion), REFORM_IMPACT_INDEX_LIMIT)
    }

    method GetMostRecentImpact(setup: SetupOptions) returns (impact: Option<Impact>)
      requires cache.Valid()
      modifies cache.client
      ensures cache.Valid() && cache.View() == old(cache.View())
      ensures impact == MostRecent(Entries(setup), setup.Current())
    {
      var pattern := BuildLookupPattern(setup.optionsHash);
      var previous := cache.LookUp(Identity(setup.scope, setup.apiVersion, Some(setup.optionsHash)), Some(pattern));
      if previous == [] {
        return None;
      }
      for i := 0 to |previous|
        invariant cache.Valid() && cache.View() == old(cache.View())
        invariant FirstExact(previous, setup.optionsHash) == FirstExact(previous[i..], setup.optionsHash)
      {
        if previous[i].optionsHash == Some(setup.optionsHash) {
          return Some(previous[i]);
        }
      }
      return Some(previous[0]);
    }

    method GetReusableImpact(setup: SetupOptions, resolution: Option<Resolution>) returns (impact: Option<Impact>)
      requires cache.Valid()
      modifies cache.client, setup
      ensures cache.Valid() && cache.View() == old(cache.View())
      ensures impact == Reusable(old(Entries(setup)), old(Entries(setup)), old(setup.Current()), resolution)
      ensures setup.Current()
           == var selected := MostRecent(old(Entries(setup)), old(setup.Current()));
              if selected.None? then old(setup.Current()) else AfterCheck(old(setup.Current()), selected.value, resolution)
    {
      impact := GetMostRecentImpact(setup);
      if impact.Some? {
        var refresh := setup.ShouldRefreshCachedImpact(impact.value, resolution);
        if refresh {
          impact := GetMostRecentImpact(setup);
          if impact.None? || impact.value.optionsHash != Some(setup.optionsHash) {
            impact := None;
          }
        }
      }
    }
  }
}
