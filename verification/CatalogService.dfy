/**
 * Refreshing the remote catalog (crates/proxy/src/catalog_service.rs), the
 * layers it feeds (crates/core/src/config.rs) and the runtime slot that holds
 * the active document (crates/proxy/src/runtime_config.rs).  The network's
 * answer and the clock are parameters.
 */
module CatalogService {
  import opened Wrappers
  import opened Json
  import opened Text
  import Pricing
  import opened Catalog
  import CatalogFields
  import opened Versions

  const CATALOG_FETCH_THROTTLE: nat := 60 * 1_000_000_000

  /** What does not change between refreshes. */
  datatype Config = Config(
    embedded: Document,
    overrides: Overrides,
    remoteEnabled: bool,
    hasRemoteUrl: bool,
    summarize: string -> string)

  datatype Layer = Builtin | Cache | Remote

  /** The answer to one manifest request. */
  datatype Answer =
    | Unreachable(detail: string)
    | TimedOut
    | NotModified
    | HttpError(detail: string)
    | ReadFailed(detail: string)
    | Invalid(detail: string)
    | Fetched(document: Document, etag: Option<string>)

  datatype Outcome =
    | Disabled
    | Throttled
    | StillCurrent
    | Failed(code: string)
    | Ignored
    | Unchanged
    | Activated

  datatype State = State(
    remote: Option<Document>,
    layer: Layer,
    etag: Option<string>,
    lastAttempt: Option<nat>,
    lastSuccess: Option<nat>,
    lastFailure: Option<string>,
    lastFailureAt: Option<nat>)

  /** The effective document: built-in, then the remote layer, then user overrides. */
  function ActiveDocument(config: Config, remote: Option<Document>): Document {
    var layered := match remote
                   case Some(document) => MergedDocument(config.embedded, document)
                   case None => config.embedded;
    Overridden(layered, config.overrides, config.embedded.models)
  }

  function ActiveRevision(config: Config, s: State): string {
    ActiveDocument(config, s.remote).revision
  }

  // ------------------------------------------------------------ a refresh, as a step

  predicate IsThrottled(s: State, now: nat) {
    s.lastAttempt.Some? && (now < s.lastAttempt.value || now - s.lastAttempt.value < CATALOG_FETCH_THROTTLE)
  }

  function FailedState(config: Config, s: State, now: nat, code: string, detail: string): State {
    s.(lastFailure := Some(code + ": " + config.summarize(detail)), lastFailureAt := Some(now))
  }

  /** A document with the revision already in place is not swapped in. */
  function ActivatedState(s: State, now: nat, document: Document, etag: Option<string>): State {
    var swap := !(s.remote.Some? && s.remote.value.revision == document.revision);
    s.(remote := if swap then Some(document) else s.remote,
       layer := if swap then Remote else s.layer,
       lastSuccess := Some(now), lastFailure := None, lastFailureAt := None,
       etag := if etag.Some? then etag else s.etag)
  }

  /** What a refresh reads before it waits for the network. */
  datatype Snapshot = Snapshot(revision: string, layer: Layer)

  function SnapshotOf(config: Config, s: State): Snapshot {
    Snapshot(ActiveRevision(config, s), s.layer)
  }

  /** A fetched document is compared with the snapshot and put in place of whatever is there now. */
  function FetchedState(seen: Snapshot, s: State, now: nat, document: Document, etag: Option<string>)
    : (State, Outcome)
  {
    if RevisionIsOlder(seen.revision, document.revision) then (s, Ignored)
    else if document.revision == seen.revision && seen.layer == Remote then
      (s.(lastSuccess := Some(now), etag := if etag.Some? then etag else s.etag), Unchanged)
    else (ActivatedState(s, now, document, etag), Activated)
  }

  function FailedWith(config: Config, s: State, now: nat, code: string, detail: string): (State, Outcome) {
    (FailedState(config, s, now, code, detail), Failed(code))
  }

  predicate Runs(config: Config, s: State, now: nat) {
    config.remoteEnabled && config.hasRemoteUrl && !IsThrottled(s, now)
  }

  /** The part of a refresh before the network answers. */
  function Begun(s: State, now: nat): State {
    s.(lastAttempt := Some(now))
  }

  /** The part of a refresh after the network has answered. */
  function Finished(config: Config, seen: Snapshot, s: State, now: nat, answer: Answer): (State, Outcome) {
    match answer
    case Unreachable(detail) => FailedWith(config, s, now, "catalog_remote_unreachable", detail)
    case TimedOut => FailedWith(config, s, now, "catalog_remote_timeout", "request timed out")
    case NotModified => (s, StillCurrent)
    case HttpError(detail) => FailedWith(config, s, now, "catalog_remote_http_error", detail)
    case ReadFailed(detail) => FailedWith(config, s, now, "catalog_remote_read_failed", detail)
    case Invalid(detail) => FailedWith(config, s, now, "catalog_remote_invalid", detail)
    case Fetched(document, etag) => FetchedState(seen, s, now, document, etag)
  }

  /** A refresh that no other refresh overlaps. */
  function Refreshed(config: Config, before: State, now: nat, answer: Answer): (State, Outcome) {
    if !config.remoteEnabled || !config.hasRemoteUrl then (before, Disabled)
    else if IsThrottled(before, now) then (before, Throttled)
    else Finished(config, SnapshotOf(config, before), Begun(before, now), now, answer)
  }

  // ------------------------------------------------------------- imperative forms

  /** A shared document: which layer it came from is told by identity, not by content. */
  class SharedDocument {
    const document: Document

    constructor (document: Document)
      ensures this.document == document
    {
      this.document := document;
    }
  }

  /** The slot that holds the active remote layer. */
  class Runtime {
    const config: Config
    var remote: SharedDocument?
    var cache: SharedDocument?

    constructor (config: Config)
      ensures this.config == config && remote == null && cache == null
    {
      this.config := config;
      remote, cache := null, null;
    }

    function CatalogLayer(): Layer
      reads this
    {
      if remote == null then Builtin else if remote == cache then Cache else Remote
    }

    function RemoteDocument(): Option<Document>
      reads this
    {
      if remote == null then None else Some(remote.document)
    }

    function CatalogDocument(): Document
      reads this
    {
      ActiveDocument(config, RemoteDocument())
    }

    /** Loads the cache file's document unless the built-in one is newer. */
    method LoadCachedCatalog(cached: Option<Document>)
      modifies this
      ensures var loads := config.remoteEnabled && cached.Some?
                           && !RevisionIsOlder(config.embedded.revision, cached.value.revision);
              if loads then RemoteDocument() == cached && CatalogLayer() == Cache
              else remote == old(remote) && cache == old(cache)
    {
      hide RevisionIsOlder;
      if !config.remoteEnabled {
        return;
      }
      if cached.Some? {
        if RevisionIsOlder(config.embedded.revision, cached.value.revision) {
          return;
        }
        var shared := new SharedDocument(cached.value);
        remote := shared;
        cache := shared;
      }
    }

    method SetCatalogDocument(document: Document) returns (changed: bool)
      modifies this`remote
      ensures changed == !(old(RemoteDocument()).Some? && old(RemoteDocument()).value.revision == document.revision)
      ensures if changed then RemoteDocument() == Some(document) && CatalogLayer() == Remote
              else remote == old(remote)
    {
      if remote != null && remote.document.revision == document.revision {
        return false;
      }
      remote := new SharedDocument(document);
      return true;
    }
  }

  /** The refresh bookkeeping, updated in place. */
  class Service {
    const runtime: Runtime
    var etag: Option<string>
    var lastAttempt: Option<nat>
    var lastSuccess: Option<nat>
    var lastFailure: Option<string>
    var lastFailureAt: Option<nat>

    constructor (runtime: Runtime)
      ensures this.runtime == runtime
      ensures etag == None && lastAttempt == None && lastSuccess == None && lastFailure == None && lastFailureAt == None
    {
      this.runtime := runtime;
      etag, lastAttempt, lastSuccess, lastFailure, lastFailureAt := None, None, None, None, None;
    }

    ghost function View(): State
      reads this, runtime
    {
      State(runtime.RemoteDocument(), runtime.CatalogLayer(), etag, lastAttempt, lastSuccess, lastFailure,
            lastFailureAt)
    }

    method Activate(now: nat, document: Document, newEtag: Option<string>)
      modifies this, runtime`remote
      ensures View() == ActivatedState(old(View()), now, document, newEtag)
    {
      var changed := runtime.SetCatalogDocument(document);
      lastSuccess, lastFailure, lastFailureAt := Some(now), None, None;
      if newEtag.Some? {
        etag := newEtag;
      }
    }

    method RecordRefreshFailure(now: nat, code: string, detail: string) returns (outcome: Outcome)
      modifies this
      ensures View() == FailedState(runtime.config, old(View()), now, code, detail) && outcome == Failed(code)
    {
      lastFailure := Some(code + ": " + runtime.config.summarize(detail));
      lastFailureAt := Some(now);
      return Failed(code);
    }

    /** Up to the request: what it will be compared with, or why none is made. */
    method BeginRefresh(now: nat) returns (r: Result<Snapshot, Outcome>)
      modifies this`lastAttempt
      ensures r.Ok? <==> Runs(runtime.config, old(View()), now)
      ensures r.Ok? ==> r.value == SnapshotOf(runtime.config, old(View())) && View() == Begun(old(View()), now)
      ensures r.Err? ==> View() == old(View())
                         && r.error == if runtime.config.remoteEnabled && runtime.config.hasRemoteUrl then Throttled
                                       else Disabled
    {
      hide ActiveDocument;
      var config := runtime.config;
      var seen := Snapshot(runtime.CatalogDocument().revision, runtime.CatalogLayer());
      if !config.remoteEnabled || !config.hasRemoteUrl {
        return Err(Disabled);
      }
      if lastAttempt.Some? && (now < lastAttempt.value || now - lastAttempt.value < CATALOG_FETCH_THROTTLE) {
        return Err(Throttled);
      }
      lastAttempt := Some(now);
      return Ok(seen);
    }

    /** From the answer on. */
    method FinishRefresh(seen: Snapshot, now: nat, answer: Answer) returns (outcome: Outcome)
      modifies this, runtime`remote
      ensures (View(), outcome) == Finished(runtime.config, seen, old(View()), now, answer)
    {
      hide RevisionIsOlder, ActiveDocument;
      match answer {
        case Unreachable(detail) =>
          outcome := RecordRefreshFailure(now, "catalog_remote_unreachable", detail);
        case TimedOut =>
          outcome := RecordRefreshFailure(now, "catalog_remote_timeout", "request timed out");
        case NotModified =>
          outcome := StillCurrent;
        case HttpError(detail) =>
          outcome := RecordRefreshFailure(now, "catalog_remote_http_error", detail);
        case ReadFailed(detail) =>
          outcome := RecordRefreshFailure(now, "catalog_remote_read_failed", detail);
        case Invalid(detail) =>
          outcome := RecordRefreshFailure(now, "catalog_remote_invalid", detail);
        case Fetched(document, newEtag) =>
          if RevisionIsOlder(seen.revision, document.revision) {
            return Ignored;
          }
          if document.revision == seen.revision && seen.layer == Remote {
            lastSuccess := Some(now);
            if newEtag.Some? {
              etag := newEtag;
            }
            return Unchanged;
          }
          Activate(now, document, newEtag);
          outcome := Activated;
      }
    }

    method Refresh(now: nat, answer: Answer) returns (outcome: Outcome)
      modifies this, runtime`remote
      ensures (View(), outcome) == Refreshed(runtime.config, old(View()), now, answer)
    {
      hide RevisionIsOlder, ActiveDocument, Finished;
      var begun := BeginRefresh(now);
      match begun {
        case Err(reason) =>
          outcome := reason;
        case Ok(seen) =>
          outcome := FinishRefresh(seen, now, answer);
      }
    }
  }

  // -------------------------------------------------------------- the active document

  /** A further field of an active model that was fetched: the user's override, or else the fetched
      document's value, or else the built-in one. */
  lemma ActiveField(config: Config, fetched: Document, i: nat, key: string)
    requires i < |fetched.models| && CatalogFields.IsFirstOf(fetched.models, i)
    ensures var active, slug := ActiveDocument(config, Some(fetched)).models, fetched.models[i].slug;
            var given := if slug in config.overrides.models then
                           CatalogFields.Given(config.overrides.models[slug], key)
                         else None;
            var builtin := FindModel(config.embedded.models, slug);
            && |active| >= |fetched.models| && active[i].slug == slug
            && Lookup(active[i].extra, key)
               == First(given, Lookup(fetched.models[i].extra, key),
                        if builtin.Some? then Lookup(builtin.value.extra, key) else None)
  {
    hide MergedDocument, Overridden, FindModel, Lookup, First, CatalogFields.Given;
    CatalogFields.FieldThroughLayers(config.embedded, fetched, config.overrides, i, key);
  }

  // ----------------------------------------------------------------- no rollback

  /** Only an activation changes the catalog. */
  lemma OnlyActivationChanges(config: Config, s: State, now: nat, answer: Answer)
    ensures var (next, outcome) := Refreshed(config, s, now, answer);
            outcome != Activated ==> next.remote == s.remote && next.layer == s.layer
  {
    hide RevisionIsOlder, ActiveDocument;
  }

  /** The active revision is the layer's revision, marked if there are user overrides. */
  function Marked(config: Config, revision: string): string {
    if config.overrides.models == map[] && config.overrides.pricing.None? then revision else MarkUser(revision)
  }

  lemma ActiveRevisionMarked(config: Config, s: State)
    ensures ActiveRevision(config, s)
            == Marked(config, if s.remote.Some? then s.remote.value.revision else config.embedded.revision)
  {
    hide OverrideModels, OverridePricing, MergeModels, MarkUser;
  }

  lemma MarkedKeepsRank(config: Config, revision: string)
    ensures SameRank(Rank(Marked(config, revision)), Rank(revision))
  {
    hide Rank, SameRank;
    UserSuffixKeepsRank(revision);
    SameRankSymmetric(Rank(revision), Rank(revision));
  }

  /** A fetched document starts with a number. */
  predicate IsNumeric(answer: Answer) {
    answer.Fetched? ==> StartsNumeric(answer.document.revision)
  }

  /** One refresh with a numeric candidate never lowers the active revision. */
  lemma RefreshKeepsRank(config: Config, s: State, now: nat, answer: Answer)
    requires IsNumeric(answer)
    ensures AtLeast(Rank(ActiveRevision(config, Refreshed(config, s, now, answer).0)), Rank(ActiveRevision(config, s)))
  {
    hide Rank, AtLeast, RevisionIsOlder, StartsNumeric, ActiveDocument, Marked, SameRank;
    var next := Refreshed(config, s, now, answer).0;
    var before, after := Rank(ActiveRevision(config, s)), Rank(ActiveRevision(config, next));
    AtLeastIsTotalPreorder(before, before, before);
    ActiveRevisionMarked(config, s);
    ActiveRevisionMarked(config, next);
    if answer.Fetched? && next.remote != s.remote {
      var revision := answer.document.revision;
      assert next.remote == Some(answer.document);
      assert !RevisionIsOlder(ActiveRevision(config, s), revision);
      NotOlderRanksHigher(ActiveRevision(config, s), revision);
      MarkedKeepsRank(config, revision);
      AtLeastIsTotalPreorder(after, Rank(revision), before);
    }
  }

  /** A refresh lowers the active revision exactly when it fetches a document that does not start
      with a number and ranks below it: such a candidate is never turned away. */
  lemma RollsBackExactly(config: Config, s: State, now: nat, answer: Answer)
    ensures var before := Rank(ActiveRevision(config, s));
            !AtLeast(Rank(ActiveRevision(config, Refreshed(config, s, now, answer).0)), before)
            <==> config.remoteEnabled && config.hasRemoteUrl && !IsThrottled(s, now) && !IsNumeric(answer)
                 && !AtLeast(Rank(answer.document.revision), before)
  {
    hide Rank, AtLeast, StartsNumeric, ActiveDocument, Marked, SameRank;
    var next := Refreshed(config, s, now, answer).0;
    var before, after := Rank(ActiveRevision(config, s)), Rank(ActiveRevision(config, next));
    AtLeastIsTotalPreorder(before, before, before);
    ActiveRevisionMarked(config, s);
    ActiveRevisionMarked(config, next);
    if IsNumeric(answer) {
      RefreshKeepsRank(config, s, now, answer);
    } else {
      var fetched := Rank(answer.document.revision);
      MarkedKeepsRank(config, answer.document.revision);
      AtLeastIsTotalPreorder(after, fetched, before);
      AtLeastIsTotalPreorder(fetched, after, before);
    }
  }

  datatype Attempt = Attempt(now: nat, answer: Answer)

  function AfterAll(config: Config, s: State, attempts: seq<Attempt>): State {
    if attempts == [] then s
    else
      var last := attempts[|attempts| - 1];
      Refreshed(config, AfterAll(config, s, attempts[..|attempts| - 1]), last.now, last.answer).0
  }

  /** Over every run of refreshes with numeric candidates the active revision never decreases. */
  lemma {:induction false} RunNeverRollsBack(config: Config, s: State, attempts: seq<Attempt>)
    requires forall i | 0 <= i < |attempts| :: IsNumeric(attempts[i].answer)
    ensures AtLeast(Rank(ActiveRevision(config, AfterAll(config, s, attempts))), Rank(ActiveRevision(config, s)))
    decreases |attempts|
  {
    hide Rank, AtLeast, IsNumeric, Refreshed, ActiveRevision;
    var start := Rank(ActiveRevision(config, s));
    if attempts == [] {
      AtLeastIsTotalPreorder(start, start, start);
    } else {
      var init, last := attempts[..|attempts| - 1], attempts[|attempts| - 1];
      RunNeverRollsBack(config, s, init);
      var mid := AfterAll(config, s, init);
      RefreshKeepsRank(config, mid, last.now, last.answer);
      AtLeastIsTotalPreorder(Rank(ActiveRevision(config, AfterAll(config, s, attempts))),
                             Rank(ActiveRevision(config, mid)), start);
    }
  }

  lemma OneSegment(s: string)
    requires s != [] && Trimmed(s) && s[0] != 'v' && forall i | 0 <= i < |s| :: !IsSeparator(s[i])
    ensures Normalize(s) == s && FirstSeparator(s) == |s| && Rank(s) == [SegmentValue(s)]
    ensures StartsNumeric(s) <==> ParseUnsigned(s, U64_MAX).Some?
    ensures SegmentValue(s) == if ParseUnsigned(s, U64_MAX).Some? then ParseUnsigned(s, U64_MAX).value else 0
  {
    hide Trim;
    TrimFixed(s);
    assert s[..|s|] == s;
  }

  lemma BetaIsNoNumber()
    ensures ParseUnsigned("beta", U64_MAX) == None
  {
    assert "beta"[0] == 'b';
  }

  lemma OneDigit()
    ensures ParseUnsigned("2", U64_MAX) == Some(2)
  {
    assert "2"[..0] == "";
    assert DigitsValue("") == 0;
  }

  /** Such candidates exist. */
  lemma NonNumericCanRollBack()
    ensures !RevisionIsOlder("2", "beta") && !AtLeast(Rank("beta"), Rank("2"))
  {
    hide Rank, StartsNumeric, ParseUnsigned, SegmentValue, Normalize;
    OneSegment("2");
    OneSegment("beta");
    BetaIsNoNumber();
    OneDigit();
  }

  // ------------------------------------------------------------- the validator

  /** The revision is active without a user-override mark added to it, or cannot be ordered. */
  predicate Comparable(config: Config, revision: string) {
    StartsNumeric(revision) ==> Marked(config, revision) == revision
  }

  /** The validator of a fetched document is remembered exactly when the refresh runs and the
      document is not turned away. */
  lemma ValidatorRemembered(config: Config, s: State, now: nat, document: Document, etag: string)
    requires s.etag != Some(etag)
    ensures Refreshed(config, s, now, Fetched(document, Some(etag))).0.etag == Some(etag)
            <==> Runs(config, s, now) && !RevisionIsOlder(ActiveRevision(config, s), document.revision)
  {
    hide RevisionIsOlder, ActiveDocument;
  }

  /** The active revision turns away its own unmarked form exactly when it carries a mark. */
  lemma MarkTurnsAway(config: Config, revision: string)
    ensures RevisionIsOlder(Marked(config, revision), revision) <==> !Comparable(config, revision)
  {
    hide Rank, AtLeast, StartsNumeric, MarkUser, SameRank, Marked;
    if Marked(config, revision) != revision {
      MarkedDiffers(config, revision);
      MarkedKeepsRank(config, revision);
      AtLeastIsTotalPreorder(Rank(Marked(config, revision)), Rank(revision), Rank(revision));
    }
  }

  predicate Holds(s: State, revision: string) {
    s.remote.Some? && s.remote.value.revision == revision
  }

  /** A document fetched again under the revision in place, from the cache file or from the network,
      has its validator remembered exactly when that revision starts with no number or is active
      without a user-override mark. */
  lemma ValidatorRememberedIff(config: Config, s: State, now: nat, document: Document, etag: string)
    requires Runs(config, s, now) && Holds(s, document.revision) && s.etag != Some(etag)
    ensures Refreshed(config, s, now, Fetched(document, Some(etag))).0.etag == Some(etag)
            <==> !StartsNumeric(document.revision) || Marked(config, document.revision) == document.revision
  {
    hide StartsNumeric, ActiveRevision, RevisionIsOlder, Marked, Refreshed, IsThrottled;
    ValidatorRemembered(config, s, now, document, etag);
    ActiveRevisionMarked(config, s);
    MarkTurnsAway(config, document.revision);
  }

  /** A server that holds one document: it sends it unless the request names its validator. */
  function Serve(document: Document, etag: string, sent: Option<string>): Answer {
    if sent == Some(etag) then NotModified else Fetched(document, Some(etag))
  }

  /** Attempt `i` sends a request. */
  predicate RunsAt(config: Config, s: State, attempts: seq<Attempt>, i: nat)
    requires i < |attempts|
  {
    Runs(config, AfterAll(config, s, attempts[..i]), attempts[i].now)
  }

  /** Every request is answered by that server, given the validator remembered at that time. */
  predicate ServedBy(config: Config, s: State, attempts: seq<Attempt>, document: Document, etag: string) {
    forall i: nat | i < |attempts| && RunsAt(config, s, attempts, i) ::
      attempts[i].answer == Serve(document, etag, AfterAll(config, s, attempts[..i]).etag)
  }

  /** One attempt against the server keeps the document in place, and remembers the validator if the
      refresh runs and the revisions compare. */
  lemma ServedOnce(config: Config, s: State, now: nat, answer: Answer, document: Document, etag: string)
    requires Holds(s, document.revision)
    requires Runs(config, s, now) ==> answer == Serve(document, etag, s.etag)
    ensures var next := Refreshed(config, s, now, answer).0;
            && Holds(next, document.revision)
            && next.etag == if Runs(config, s, now) && Comparable(config, document.revision) then Some(etag) else s.etag
  {
    hide Comparable, ActiveRevision, RevisionIsOlder, IsThrottled;
    ActiveRevisionMarked(config, s);
    MarkTurnsAway(config, document.revision);
    if s.etag != Some(etag) {
      ValidatorRemembered(config, s, now, document, etag);
    }
  }

  /** What a run of attempts against the server leaves remembered. */
  lemma {:induction false} ServedRun(config: Config, s: State, attempts: seq<Attempt>, document: Document, etag: string)
    requires Holds(s, document.revision) && ServedBy(config, s, attempts, document, etag)
    ensures var last := AfterAll(config, s, attempts);
            && Holds(last, document.revision)
            && (!Comparable(config, document.revision) ==> last.etag == s.etag)
            && (Comparable(config, document.revision) && attempts != [] && Runs(config, s, attempts[0].now)
                ==> last.etag == Some(etag))
    decreases |attempts|
  {
    hide Comparable, Refreshed, Serve, Holds, Runs, ServedBy;
    if attempts != [] {
      var n := |attempts| - 1;
      var init := attempts[..n];
      ServedInit(config, s, attempts, n, document, etag);
      ServedRun(config, s, init, document, etag);
      ServedAt(config, s, attempts, n, document, etag);
      ServedOnce(config, AfterAll(config, s, init), attempts[n].now, attempts[n].answer, document, etag);
      assert n > 0 ==> init[0] == attempts[0];
    }
  }

  lemma ServedInit(config: Config, s: State, attempts: seq<Attempt>, n: nat, document: Document, etag: string)
    requires n <= |attempts| && ServedBy(config, s, attempts, document, etag)
    ensures ServedBy(config, s, attempts[..n], document, etag)
  {
    hide Serve, Runs, AfterAll;
    var init := attempts[..n];
    forall i: nat | i < n && RunsAt(config, s, init, i)
      ensures init[i].answer == Serve(document, etag, AfterAll(config, s, init[..i]).etag)
    {
      assert init[..i] == attempts[..i];
      assert RunsAt(config, s, attempts, i);
    }
  }

  lemma ServedAt(config: Config, s: State, attempts: seq<Attempt>, i: nat, document: Document, etag: string)
    requires i < |attempts| && ServedBy(config, s, attempts, document, etag)
    ensures var mid := AfterAll(config, s, attempts[..i]);
            Runs(config, mid, attempts[i].now) ==> attempts[i].answer == Serve(document, etag, mid.etag)
  {
    hide Serve, Runs, AfterAll;
    assert RunsAt(config, s, attempts, i) <==> Runs(config, AfterAll(config, s, attempts[..i]), attempts[i].now);
  }

  /** After a first refresh that ran, the server answers every later request with the whole document
      exactly when its revision starts with a number and is active with a user-override mark. */
  lemma DownloadsAgainExactly(config: Config, s: State, attempts: seq<Attempt>, document: Document, etag: string,
                              i: nat)
    requires Holds(s, document.revision) && s.etag != Some(etag)
    requires ServedBy(config, s, attempts, document, etag)
    requires 1 <= i < |attempts| && Runs(config, s, attempts[0].now) && RunsAt(config, s, attempts, i)
    ensures attempts[i].answer.Fetched?
            <==> StartsNumeric(document.revision) && Marked(config, document.revision) != document.revision
  {
    hide StartsNumeric, Marked, AfterAll, Holds, Runs, ServedBy;
    var init := attempts[..i];
    ServedInit(config, s, attempts, i, document, etag);
    ServedAt(config, s, attempts, i, document, etag);
    assert init[0] == attempts[0];
    ServedRun(config, s, init, document, etag);
  }

  /** The service after a restart: the cache file's document in place and nothing remembered. */
  function Restarted(document: Document): State {
    State(Some(document), Cache, None, None, None, None, None)
  }

  /** The document and the configuration of a concrete run, with or without a price override. */
  function Sample(revision: string): Document {
    Document(1, revision, None, "", "", None, [], Pricing.DefaultTable())
  }

  function SampleConfig(priced: bool): Config {
    var overrides := Overrides(map[], if priced then Some(Obj(map[])) else None);
    Config(Sample("1"), overrides, true, true, (detail: string) => detail)
  }

  lemma SampleIsMarked()
    ensures StartsNumeric("1") && Marked(SampleConfig(true), "1") != "1"
  {
    hide Normalize, ParseUnsigned, FirstSeparator;
    PlainNormalizes("1");
    DigitParses("1", 1);
    assert "1"[..1] == "1";
  }

  /** A concrete one: with a price override, a restarted service that fetches the document it already
      has from the cache file turns it away and remembers nothing. */
  lemma RestartForgetsValidator(now: nat)
    ensures var s := Restarted(Sample("1"));
            && s.layer == Cache
            && Refreshed(SampleConfig(true), s, now, Fetched(Sample("1"), Some("e")))
               == (s.(lastAttempt := Some(now)), Ignored)
  {
    hide StartsNumeric, RevisionIsOlder, Marked, ActiveRevision;
    var s := Restarted(Sample("1"));
    SampleIsMarked();
    MarkTurnsAway(SampleConfig(true), "1");
    ActiveRevisionMarked(SampleConfig(true), s);
  }

  lemma MarkedDiffers(config: Config, revision: string)
    requires Marked(config, revision) != revision
    ensures Normalize(Marked(config, revision)) != Normalize(revision)
  {
    hide Normalize, IsSolid;
    UserIsSolid();
    var w := NormalizeSuffixed(revision, "+user");
    assert |Normalize(revision) + w + "+user"| > |Normalize(revision)|;
  }

  lemma UserIsSolid()
    ensures IsSolid("+user")
  {
    UserAddsZero();
  }
}
