/**
 * `SearchTool.execute`: fills in option defaults, negotiates the version to
 * search (verbatim in exact-match mode, otherwise the store's best match,
 * which may be null), runs the store's search and shapes the outcome,
 * turning a `VersionNotFoundError` into a structured result and rethrowing
 * every other error.
 *
 * The document store is an injected oracle: two total functions giving the
 * completion (a normal value or a thrown error) of `findBestVersion` and of
 * `searchStore` for each argument tuple. An execution records the store
 * calls it made, in order, so which calls happen is part of its value.
 * `R` is the store's opaque search-result entry.
 */
module SearchTool {
  import opened Wrappers

  const DEFAULT_VERSION: string := "latest"
  const DEFAULT_LIMIT: int := 5
  const DEFAULT_EXACT_MATCH: bool := false

  /** One entry of the "available versions" list a `VersionNotFoundError` carries. */
  datatype AvailableVersion = AvailableVersion(version: string, indexed: bool)

  /** A value thrown by the store: the anticipated version-not-found error, or anything else. */
  datatype StoreError =
    | VersionNotFoundError(message: string, availableVersions: seq<AvailableVersion>)
    | OtherError(description: string)

  /** How a call finished: with a value, or by throwing. */
  datatype Completion<+T> = Normal(value: T) | Abrupt(error: StoreError)

  /**
   * The store. `findBestVersion` yields the `bestMatch` of its result
   * (`None` for null); `searchStore` takes the version to search (`None`
   * for null) and yields the ranked entries.
   */
  datatype DocumentStore<R> = DocumentStore(
    findBestVersion: (string, string) -> Completion<Option<string>>,
    searchStore: (string, Option<string>, string, int) -> Completion<seq<R>>)

  /** A store call, with its arguments. */
  datatype Call =
    | FindBestVersionCall(library: string, requested: string)
    | SearchStoreCall(library: string, versionToSearch: Option<string>, query: string, limit: int)

  /** `SearchToolOptions`: optional fields are `None` when omitted (`undefined`). */
  datatype SearchToolOptions = SearchToolOptions(
    library: string,
    version: Option<string>,
    query: string,
    limit: Option<int>,
    exactMatch: Option<bool>)

  /** The options after destructuring with defaults. */
  datatype Request = Request(library: string, version: string, query: string, limit: int, exactMatch: bool)

  datatype ErrorInfo = ErrorInfo(message: string, availableVersions: seq<AvailableVersion>)

  /** `SearchToolResult`: `error` is `None` when the field is absent. */
  datatype SearchToolResult<R> = SearchToolResult(results: seq<R>, error: Option<ErrorInfo>)

  /** How the `try` block completed, and the store calls it made. */
  datatype Attempt<R> = Attempt(completion: Completion<seq<R>>, calls: seq<Call>)

  /** What `execute` produced, and the store calls it made on the way. */
  datatype Execution<R> = Execution(outcome: Completion<SearchToolResult<R>>, calls: seq<Call>)

  /** Destructuring with defaults: omitted fields take "latest", 5 and false; given ones are kept. */
  function ApplyDefaults(options: SearchToolOptions): (req: Request)
    ensures req.library == options.library && req.query == options.query
    ensures options.version.None? ==> req.version == DEFAULT_VERSION
    ensures options.version.Some? ==> req.version == options.version.value
    ensures options.limit.None? ==> req.limit == DEFAULT_LIMIT
    ensures options.limit.Some? ==> req.limit == options.limit.value
    ensures options.exactMatch.None? ==> req.exactMatch == DEFAULT_EXACT_MATCH
    ensures options.exactMatch.Some? ==> req.exactMatch == options.exactMatch.value
  {
    Request(
      options.library,
      options.version.GetOr(DEFAULT_VERSION),
      options.query,
      options.limit.GetOr(DEFAULT_LIMIT),
      options.exactMatch.GetOr(DEFAULT_EXACT_MATCH))
  }

  /** The error a call throws when made against `store`, if it throws. */
  function ErrorOf<R>(store: DocumentStore<R>, call: Call): Option<StoreError>
  {
    match call
    case FindBestVersionCall(library, version) =>
      var c := store.findBestVersion(library, version);
      if c.Abrupt? then Some(c.error) else None
    case SearchStoreCall(library, version, query, limit) =>
      var c := store.searchStore(library, version, query, limit);
      if c.Abrupt? then Some(c.error) else None
  }

  /**
   * The `catch` clause: a `VersionNotFoundError` becomes a result with no
   * entries and the error's message and available versions; anything else
   * is rethrown as it is.
   */
  function Catch<R>(e: StoreError): (o: Completion<SearchToolResult<R>>)
    ensures o.Normal? <==> e.VersionNotFoundError?
    ensures e.VersionNotFoundError? ==>
      o.Normal? && o.value.results == [] && o.value.error == Some(ErrorInfo(e.message, e.availableVersions))
    ensures o.Abrupt? ==> o.error == e
  {
    match e
    case VersionNotFoundError(message, availableVersions) =>
      Normal(SearchToolResult([], Some(ErrorInfo(message, availableVersions))))
    case OtherError(_) =>
      Abrupt(e)
  }

  /**
   * The `try` block: negotiate the version unless in exact-match mode, then
   * search. Yields the search entries or the first error thrown, with the
   * calls made.
   */
  function TryBlock<R>(store: DocumentStore<R>, req: Request): (t: Attempt<R>)
    ensures 1 <= |t.calls| <= 2
    ensures req.exactMatch ==> t.calls == [SearchStoreCall(req.library, Some(req.version), req.query, req.limit)]
    ensures !req.exactMatch ==> t.calls[0] == FindBestVersionCall(req.library, req.version)
    // Best effort, resolution returned: its bestMatch, null included, is searched with the other arguments unchanged.
    ensures var resolution := store.findBestVersion(req.library, req.version);
      !req.exactMatch && resolution.Normal? ==>
        t.calls == [FindBestVersionCall(req.library, req.version),
                    SearchStoreCall(req.library, resolution.value, req.query, req.limit)]
    // Every call but the last returned normally; the block completes as its last call did.
    ensures forall i :: 0 <= i < |t.calls| - 1 ==> ErrorOf(store, t.calls[i]).None?
    ensures var last := t.calls[|t.calls| - 1];
      t.completion.Abrupt? <==> ErrorOf(store, last).Some?
    ensures var last := t.calls[|t.calls| - 1];
      t.completion.Abrupt? ==> ErrorOf(store, last) == Some(t.completion.error)
    ensures var last := t.calls[|t.calls| - 1];
      t.completion.Normal? ==>
        && last.SearchStoreCall?
        && store.searchStore(last.library, last.versionToSearch, last.query, last.limit) == t.completion
  {
    var resolution: Completion<Option<string>> :=
      if req.exactMatch then Normal(Some(req.version))
      else store.findBestVersion(req.library, req.version);
    var resolutionCalls := if req.exactMatch then [] else [FindBestVersionCall(req.library, req.version)];
    match resolution
    case Abrupt(e) => Attempt(Abrupt(e), resolutionCalls)
    case Normal(versionToSearch) =>
      var search := SearchStoreCall(req.library, versionToSearch, req.query, req.limit);
      Attempt(store.searchStore(req.library, versionToSearch, req.query, req.limit), resolutionCalls + [search])
  }

  /** `SearchTool.execute`. */
  function Execute<R>(store: DocumentStore<R>, options: SearchToolOptions): (x: Execution<R>)
    // The trace: one or two calls; when two, resolution strictly before search.
    ensures 1 <= |x.calls| <= 2
    ensures |x.calls| == 2 ==> x.calls[0].FindBestVersionCall? && x.calls[1].SearchStoreCall?
    // Exact match: no resolution, the defaulted version is searched verbatim.
    ensures var req := ApplyDefaults(options);
      req.exactMatch ==>
        x.calls == [SearchStoreCall(req.library, Some(req.version), req.query, req.limit)]
    // Best effort: resolution comes first, with the defaulted library and version.
    ensures var req := ApplyDefaults(options);
      !req.exactMatch ==> x.calls[0] == FindBestVersionCall(req.library, req.version)
    // Best effort, resolution returned: its bestMatch, null included, is searched.
    ensures var req := ApplyDefaults(options);
      var resolution := store.findBestVersion(req.library, req.version);
      !req.exactMatch && resolution.Normal? ==>
        x.calls == [FindBestVersionCall(req.library, req.version),
                    SearchStoreCall(req.library, resolution.value, req.query, req.limit)]
    // Best effort, resolution threw: no search.
    ensures var req := ApplyDefaults(options);
      !req.exactMatch && store.findBestVersion(req.library, req.version).Abrupt? ==>
        |x.calls| == 1
    // Only the last call may throw; if it does, the catch clause decides the outcome.
    ensures forall i :: 0 <= i < |x.calls| - 1 ==> ErrorOf(store, x.calls[i]).None?
    ensures var last := x.calls[|x.calls| - 1];
      ErrorOf(store, last).Some? ==> x.outcome == Catch(ErrorOf(store, last).value)
    // Otherwise the last call was the search and its entries are returned unmodified, with no error.
    ensures var last := x.calls[|x.calls| - 1];
      ErrorOf(store, last).None? ==>
        && last.SearchStoreCall?
        && x.outcome == Normal(SearchToolResult(
             store.searchStore(last.library, last.versionToSearch, last.query, last.limit).value, None))
  {
    var req := ApplyDefaults(options);
    var attempt := TryBlock(store, req);
    match attempt.completion
    case Normal(results) => Execution(Normal(SearchToolResult(results, None)), attempt.calls)
    case Abrupt(e) => Execution(Catch(e), attempt.calls)
  }

  // ---------------------------------------------------------------------------
  // The dispatch policy as a case table over the store's answers
  // ---------------------------------------------------------------------------

  /** Searching `version` after the calls `before`, with the outcome the search's completion dictates. */
  ghost predicate SearchedThen<R>(store: DocumentStore<R>, req: Request, version: Option<string>,
                                  before: seq<Call>, x: Execution<R>)
  {
    && x.calls == before + [SearchStoreCall(req.library, version, req.query, req.limit)]
    && match store.searchStore(req.library, version, req.query, req.limit)
       case Normal(results) => x.outcome == Normal(SearchToolResult(results, None))
       case Abrupt(e) => x.outcome == Catch(e)
  }

  /**
   * The policy: exact match searches the given version; otherwise a match
   * is searched, no match (null) is searched as null, and a thrown
   * resolution error goes to the catch clause without any search.
   */
  ghost predicate Policy<R>(store: DocumentStore<R>, options: SearchToolOptions, x: Execution<R>)
  {
    var req := ApplyDefaults(options);
    var find := FindBestVersionCall(req.library, req.version);
    if req.exactMatch then SearchedThen(store, req, Some(req.version), [], x)
    else match store.findBestVersion(req.library, req.version)
      case Normal(Some(v)) => SearchedThen(store, req, Some(v), [find], x)
      case Normal(None) => SearchedThen(store, req, None, [find], x)
      case Abrupt(e) => x == Execution(Catch(e), [find])
  }

  /** `execute` follows the policy, and the policy admits no other execution. */
  lemma ExecuteIsPolicy<R>(store: DocumentStore<R>, options: SearchToolOptions, x: Execution<R>)
    ensures Policy(store, options, x) <==> x == Execute(store, options)
  {
  }

  // ---------------------------------------------------------------------------
  // Properties relating several executions
  // ---------------------------------------------------------------------------

  /** Omitting an option is the same as passing its default. */
  lemma OmittedOptionsTakeDefaults<R>(store: DocumentStore<R>, library: string, query: string)
    ensures Execute(store, SearchToolOptions(library, None, query, None, None))
         == Execute(store, SearchToolOptions(library, Some(DEFAULT_VERSION), query,
                                             Some(DEFAULT_LIMIT), Some(DEFAULT_EXACT_MATCH)))
  {
  }

  /** In exact-match mode the resolver is irrelevant: stores that differ only there behave alike. */
  lemma ExactMatchIgnoresResolver<R>(store: DocumentStore<R>,
                                     resolver: (string, string) -> Completion<Option<string>>,
                                     options: SearchToolOptions)
    requires ApplyDefaults(options).exactMatch
    ensures Execute(store, options) == Execute(DocumentStore(resolver, store.searchStore), options)
  {
  }

  /** A thrown resolution error makes the search oracle irrelevant: it is never consulted. */
  lemma ResolutionErrorIgnoresSearch<R>(store: DocumentStore<R>,
                                        search: (string, Option<string>, string, int) -> Completion<seq<R>>,
                                        options: SearchToolOptions)
    requires !ApplyDefaults(options).exactMatch
    requires store.findBestVersion(ApplyDefaults(options).library, ApplyDefaults(options).version).Abrupt?
    ensures Execute(store, options) == Execute(DocumentStore(store.findBestVersion, search), options)
  {
  }

  /** A `VersionNotFoundError` yields the same result whether resolution or search threw it. */
  lemma NotFoundTranslatedAlike<R>(store: DocumentStore<R>, options: SearchToolOptions,
                                   message: string, available: seq<AvailableVersion>)
    requires var x := Execute(store, options);
      ErrorOf(store, x.calls[|x.calls| - 1]) == Some(VersionNotFoundError(message, available))
    ensures Execute(store, options).outcome
         == Normal(SearchToolResult([], Some(ErrorInfo(message, available))))
  {
  }

  // ---------------------------------------------------------------------------
  // Two concrete executions
  // ---------------------------------------------------------------------------

  /** "foo" at "2.x" resolves to "2.3.1", whose search yields two entries: both are returned, no error. */
  lemma ResolvedSearchScenario()
    ensures var store := DocumentStore(
        (library: string, version: string) =>
          if library == "foo" && version == "2.x" then Normal(Some("2.3.1")) else Normal(None),
        (library: string, version: Option<string>, query: string, limit: int) =>
          if version == Some("2.3.1") then Normal([10, 20]) else Normal([]));
      Execute(store, SearchToolOptions("foo", Some("2.x"), "hooks", None, None))
        == Execution(Normal(SearchToolResult([10, 20], None)),
                     [FindBestVersionCall("foo", "2.x"), SearchStoreCall("foo", Some("2.3.1"), "hooks", 5)])
  {
  }

  /** "bar" at "9.9.9" is not found: no search, no entries, and the error's versions are passed on. */
  lemma VersionNotFoundScenario(message: string)
    ensures var available := [AvailableVersion("1.0.0", true)];
      var store := DocumentStore(
        (library: string, version: string) => Abrupt(VersionNotFoundError(message, available)),
        (library: string, version: Option<string>, query: string, limit: int) => Normal([1]));
      Execute(store, SearchToolOptions("bar", Some("9.9.9"), "config", None, None))
        == Execution(Normal(SearchToolResult([], Some(ErrorInfo(message, available)))),
                     [FindBestVersionCall("bar", "9.9.9")])
  {
  }
}
