/**
 * The artifact viewer's selection state machine. The component's state cells are the fields
 * of a class; each effect is a method. Every fetch purpose (namespace list, resource list,
 * artifacts) carries a generation counter: issuing a request aborts the previous one of the
 * same purpose, and a response carries the generation of the request that produced it.
 * Network responses arrive as method arguments, in any order.
 */
module Viewer {
  import opened Wrappers
  import WorkerArgs

  // ---------------------------------------------------------------- catalog

  const SnapshotGroup: string := "snapshot.kaidotio.github.io"
  const SkaffoldGroup: string := "skaffold.snapshot.kaidotio.github.io"
  const SupportedGroups: seq<string> := [SnapshotGroup, SkaffoldGroup]

  /** The versions the catalog lists for a group; None for a group it does not know. */
  function SupportedVersions(g: string): (vs: Option<seq<string>>)
    ensures vs.Some? <==> g in SupportedGroups
    ensures vs.Some? ==> vs.value == ["v1"]
  {
    if g == SnapshotGroup || g == SkaffoldGroup then Some(["v1"]) else None
  }

  /** The kinds the catalog lists for a group; None for a group it does not know. */
  function SupportedKinds(g: string): (ks: Option<seq<string>>)
    ensures ks.Some? <==> g in SupportedGroups
    ensures ks.Some? ==> ks.value == ["snapshot", "scheduledsnapshot"]
  {
    if g == SnapshotGroup || g == SkaffoldGroup then Some(["snapshot", "scheduledsnapshot"]) else None
  }

  /** `list ?? []`. */
  function ListOr(l: Option<seq<string>>): seq<string>
  {
    if l.Some? then l.value else []
  }

  // ---------------------------------------------------------------- selection

  /** The five-dimensional selection. */
  datatype Selection = Selection(namespace: string, group: string, version: string, kind: string, resource: string)

  /**
   * The query parameters read once on mount, unvalidated; "" stands for a parameter that is
   * absent. A parameter that is present but empty is not represented: the component's
   * `!== null` test would let it override the default, which this model does not capture.
   */
  datatype UrlParams = UrlParams(namespace: string, group: string, version: string, kind: string, resource: string)

  /** A parameter overrides the current value only when it is non-empty. */
  function ParamOr(p: string, current: string): (v: string)
    ensures v == p || (p == "" && v == current)
  {
    if p != "" then p else current
  }

  /** The query applied over a selection: each non-empty parameter replaces its dimension. */
  function Overridden(s: Selection, p: UrlParams): Selection
  {
    Selection(ParamOr(p.namespace, s.namespace), ParamOr(p.group, s.group), ParamOr(p.version, s.version),
              ParamOr(p.kind, s.kind), ParamOr(p.resource, s.resource))
  }

  const InitialSelection: Selection := Selection("default", SnapshotGroup, "v1", "snapshot", "")

  /** "/api/<namespace>/<group>/<version>/<kind>": the resource list of a selection. */
  function ResourcesPath(s: Selection): string
  {
    "/api/" + s.namespace + "/" + s.group + "/" + s.version + "/" + s.kind
  }

  /** The resource list path followed by "/<resource>/artifacts". */
  function ArtifactsPath(s: Selection): (path: string)
    ensures path == ResourcesPath(s) + "/" + s.resource + "/artifacts"
  {
    ResourcesPath(s) + "/" + s.resource + "/artifacts"
  }

  /**
   * The viewer reads a selection's artifacts from the very path the controllers give the
   * worker as its callback URL for that resource.
   */
  lemma ReadsWhereWorkerPosts(host: string, s: Selection)
    ensures WorkerArgs.CallbackURL(host, s.namespace, s.group, s.version, s.kind, s.resource) ==
            "http://" + host + ArtifactsPath(s)
  {
  }

  /** The artifact bundle as served; every field may be absent. */
  datatype Artifacts = Artifacts(
    screenshotDiff: Option<string>,
    baseline: Option<string>,
    target: Option<string>,
    htmlDiff: Option<string>,
    baselineHtml: Option<string>,
    targetHtml: Option<string>)

  // ---------------------------------------------------------------- listings

  /** A candidate list filled from the network, with the generation of its latest request. */
  datatype Listing = Listing(gen: nat, items: seq<string>)

  /** Issuing a request aborts the outstanding one: its generation is no longer current. */
  function Issued(l: Listing): (l': Listing)
    ensures l'.gen > l.gen && l'.items == l.items
  {
    l.(gen := l.gen + 1)
  }

  /**
   * A response of generation gen: a current success replaces the list wholesale; an aborted
   * request or a failure leaves it as it was.
   */
  function Arrived(l: Listing, gen: nat, result: Option<seq<string>>): (l': Listing)
    ensures l'.gen == l.gen
    ensures l'.items == (if gen == l.gen && result.Some? then result.value else l.items)
  {
    if gen == l.gen && result.Some? then l.(items := result.value) else l
  }

  /**
   * Two requests issued one after the other: whatever order their responses come in, the list
   * ends as the second one's result (or as it was, when the second fails).
   */
  lemma LaterListingWins(l: Listing, first: Option<seq<string>>, second: Option<seq<string>>)
    ensures var l1 := Issued(l);
            var l2 := Issued(l1);
            Arrived(Arrived(l2, l1.gen, first), l2.gen, second) == Arrived(l2, l2.gen, second) &&
            Arrived(Arrived(l2, l2.gen, second), l1.gen, first) == Arrived(l2, l2.gen, second)
  {
  }

  /** The resources effect: a non-empty list selects its first entry; an empty one changes nothing. */
  function FirstResource(resources: seq<string>, selected: string): (r: string)
    ensures |resources| > 0 ==> r == resources[0] && r in resources
    ensures |resources| == 0 ==> r == selected
  {
    if |resources| > 0 then resources[0] else selected
  }

  // ---------------------------------------------------------------- artifact fetch

  /**
   * The artifact fetch's lifecycle: the generation of the latest request, whether that request
   * is still outstanding, the loading flag and the bundle on display.
   */
  datatype Fetch = Fetch(gen: nat, inFlight: bool, loading: bool, artifacts: Option<Artifacts>)

  /** Loading is shown whenever the latest request is outstanding. */
  predicate LoadingShown(f: Fetch)
  {
    f.inFlight ==> f.loading
  }

  /**
   * The artifact effect: the previous request is aborted; with a resource selected a new one
   * is issued and loading is set, with none nothing else happens.
   */
  function Requested(f: Fetch, resource: string): (f': Fetch)
    ensures f'.gen == f.gen + 1 && f'.artifacts == f.artifacts
    ensures f'.inFlight <==> resource != ""
    ensures f'.loading == (resource != "" || f.loading)
  {
    if resource == "" then f.(gen := f.gen + 1, inFlight := false)
    else f.(gen := f.gen + 1, inFlight := true, loading := true)
  }

  /**
   * The response handlers as written: a response of the latest request replaces the bundle
   * on success and clears loading; any failure clears loading, including the rejection an
   * aborted request ends with.
   */
  function SettledAsWritten(f: Fetch, gen: nat, outcome: Option<Artifacts>): Fetch
  {
    if gen == f.gen && f.inFlight then
      f.(inFlight := false, loading := false, artifacts := if outcome.Some? then outcome else f.artifacts)
    else f.(loading := false)
  }

  /**
   * The response handlers with the abort checked first: a response of an aborted request
   * changes nothing; the latest request's success replaces the bundle wholesale, its failure
   * keeps the previous bundle, and both clear loading.
   */
  function Settled(f: Fetch, gen: nat, outcome: Option<Artifacts>): (f': Fetch)
    ensures f'.gen == f.gen
    ensures !(gen == f.gen && f.inFlight) ==> f' == f
    ensures gen == f.gen && f.inFlight ==>
              !f'.inFlight && !f'.loading && f'.artifacts == (if outcome.Some? then outcome else f.artifacts)
  {
    if gen == f.gen && f.inFlight then
      f.(inFlight := false, loading := false, artifacts := if outcome.Some? then outcome else f.artifacts)
    else f
  }

  /** Issuing and settling both keep loading shown while the latest request is outstanding. */
  lemma LoadingShownKept(f: Fetch, resource: string, gen: nat, outcome: Option<Artifacts>)
    requires LoadingShown(f)
    ensures LoadingShown(Requested(f, resource))
    ensures LoadingShown(Settled(f, gen, outcome))
  {
  }

  /**
   * A response of an aborted request never reaches the display: once a newer request has been
   * issued, whatever the older one returns leaves the bundle and loading as they are.
   */
  lemma AbortedResponseIgnored(f: Fetch, r1: string, r2: string, outcome: Option<Artifacts>)
    ensures var f1 := Requested(f, r1);
            var f2 := Requested(f1, r2);
            Settled(f2, f1.gen, outcome) == f2
  {
  }

  /**
   * As written, the rejection of an aborted request clears loading while the request that
   * replaced it is still outstanding: the loading indicator disappears and the previous bundle
   * shows as if it were current.
   */
  lemma AsWrittenAbortClearsLoading(f: Fetch)
    ensures var f1 := Requested(f, "a");
            var f2 := Requested(f1, "b");
            var f3 := SettledAsWritten(f2, f1.gen, None);
            f3.inFlight && !f3.loading && !LoadingShown(f3)
  {
  }

  // ---------------------------------------------------------------- mount

  /**
   * The selection after mount as written: every effect of the first pass sees the first
   * render's group, so the group reset for the default group runs after the query overrides
   * and replaces the query's version and kind; a query group then resets them again to its
   * own first entries. A group the catalog does not know makes the reset throw (None).
   */
  function MountedAsWritten(p: UrlParams): (s: Option<Selection>)
    ensures s.Some? <==> ParamOr(p.group, SnapshotGroup) in SupportedGroups
    ensures s.Some? ==> s.value.version == "v1" && s.value.kind == "snapshot"
  {
    var g := ParamOr(p.group, SnapshotGroup);
    if SupportedVersions(g).None? then None
    else
      Some(Selection(ParamOr(p.namespace, "default"), g, SupportedVersions(g).value[0],
                     SupportedKinds(g).value[0], ParamOr(p.resource, "")))
  }

  /**
   * The selection after mount with the query applied over the group's defaults: each present
   * parameter selects its value verbatim, absent ones take the defaults.
   */
  function Mounted(p: UrlParams): (s: Option<Selection>)
    ensures s.Some? <==> ParamOr(p.group, SnapshotGroup) in SupportedGroups
  {
    var g := ParamOr(p.group, SnapshotGroup);
    if SupportedVersions(g).None? then None
    else
      Some(Selection(ParamOr(p.namespace, "default"), g, ParamOr(p.version, SupportedVersions(g).value[0]),
                     ParamOr(p.kind, SupportedKinds(g).value[0]), ParamOr(p.resource, "")))
  }

  /** As written, a link to a ScheduledSnapshot opens on the Snapshot kind instead. */
  lemma AsWrittenMountDropsKind()
    ensures var p := UrlParams("", "", "", "scheduledsnapshot", "nightly");
            MountedAsWritten(p).Some? && MountedAsWritten(p).value.kind == "snapshot" &&
            MountedAsWritten(p).value.kind != p.kind
  {
  }

  /** Every parameter present in the query is the selected value after mount; absent ones are the defaults. */
  lemma MountedKeepsQuery(p: UrlParams)
    requires Mounted(p).Some?
    ensures var s := Mounted(p).value;
            var g := ParamOr(p.group, SnapshotGroup);
            s.namespace == ParamOr(p.namespace, InitialSelection.namespace) &&
            s.group == ParamOr(p.group, InitialSelection.group) &&
            s.version == ParamOr(p.version, "v1") &&
            s.kind == ParamOr(p.kind, "snapshot") &&
            s.resource == ParamOr(p.resource, InitialSelection.resource)
  {
  }

  /** Without query parameters both mounts give the initial selection. */
  lemma EmptyQueryMountsInitial()
    ensures var p := UrlParams("", "", "", "", "");
            Mounted(p) == MountedAsWritten(p) == Some(InitialSelection)
  {
  }

  // ---------------------------------------------------------------- rendering

  /** What renderScreenshot produces. */
  datatype Shot = Placeholder(text: string) | Image(src: string, alt: string)

  const NoImage: string := "画像がありません"
  const PngDataPrefix: string := "data:image/png;base64,"

  /** Missing or empty data gives the placeholder; anything else an image whose source is a PNG data URI. */
  function RenderScreenshot(data: Option<string>, alt: string): (v: Shot)
    ensures v.Placeholder? <==> data.None? || data.value == ""
    ensures v.Image? ==> v.alt == alt && |v.src| > |PngDataPrefix| && v.src[..|PngDataPrefix|] == PngDataPrefix
  {
    if data.None? || data.value == "" then Placeholder(NoImage)
    else Image(PngDataPrefix + data.value, alt)
  }

  /** The data URI's payload is exactly the bundle's base64 text. */
  lemma ScreenshotSourceRoundTrip(data: string, alt: string)
    requires data != ""
    ensures var v := RenderScreenshot(Some(data), alt);
            v.Image? && v.src[|PngDataPrefix|..] == data
  {
  }

  // ---------------------------------------------------------------- the component

  class App {
    // the five selected* cells, held as one value
    var selection: Selection
    var namespaces: seq<string>
    var groups: seq<string>
    var versions: seq<string>
    var kinds: seq<string>
    var resources: seq<string>
    var artifacts: Option<Artifacts>
    var loading: bool
    var showDiff: bool
    // the abort controllers, as generations
    var namespacesGen: nat
    var resourcesGen: nat
    var artifactsGen: nat
    var artifactsInFlight: bool

    /** The catalog-fed candidate lists: groups, versions and kinds. */
    function Choices(): (seq<string>, seq<string>, seq<string>)
      reads this
    {
      (groups, versions, kinds)
    }

    /** The network-fed candidate lists with their request generations: namespaces and resources. */
    function Listings(): (Listing, Listing)
      reads this
    {
      (Listing(namespacesGen, namespaces), Listing(resourcesGen, resources))
    }

    function ArtifactFetch(): Fetch
      reads this
    {
      Fetch(artifactsGen, artifactsInFlight, loading, artifacts)
    }

    /** The state of the first render. */
    predicate Fresh()
      reads this
    {
      selection == InitialSelection &&
      Choices() == (SupportedGroups, ListOr(SupportedVersions(SnapshotGroup)), ListOr(SupportedKinds(SnapshotGroup))) &&
      Listings() == (Listing(0, ["default"]), Listing(0, [])) &&
      ArtifactFetch() == Fetch(0, false, false, None) && showDiff
    }

    constructor()
      ensures Fresh()
    {
      selection := Selection("default", SupportedGroups[0], "v1", "snapshot", "");
      namespaces := ["default"];
      groups := SupportedGroups;
      versions := ListOr(SupportedVersions(SupportedGroups[0]));
      kinds := ListOr(SupportedKinds(SupportedGroups[0]));
      resources := [];
      artifacts := None;
      loading := false;
      showDiff := true;
      namespacesGen, resourcesGen, artifactsGen := 0, 0, 0;
      artifactsInFlight := false;
    }

    /** The query effect: each non-empty parameter overwrites its selection. */
    method ApplyUrlParams(p: UrlParams)
      modifies this
      ensures selection == Overridden(old(selection), p)
      ensures Choices() == old(Choices()) && Listings() == old(Listings())
      ensures ArtifactFetch() == old(ArtifactFetch()) && showDiff == old(showDiff)
    {
      selection := Overridden(selection, p);
    }

    /**
     * The group effect for group g: the catalog's lists (or empty ones), and their first
     * entries selected. The first index is unguarded: for a group the catalog does not know
     * it throws after the versions are emptied (ok is false).
     */
    method ResetForGroup(g: string) returns (ok: bool)
      modifies this
      ensures ok <==> g in SupportedGroups
      ensures versions == ListOr(SupportedVersions(g))
      ensures ok ==> kinds == ListOr(SupportedKinds(g)) && selection == old(selection).(version := versions[0], kind := kinds[0])
      ensures !ok ==> kinds == old(kinds) && selection == old(selection)
      ensures groups == old(groups) && Listings() == old(Listings())
      ensures ArtifactFetch() == old(ArtifactFetch()) && showDiff == old(showDiff)
    {
      versions := ListOr(SupportedVersions(g));
      if SupportedVersions(g).None? {
        return false;
      }
      kinds := ListOr(SupportedKinds(g));
      selection := selection.(version := SupportedVersions(g).value[0], kind := SupportedKinds(g).value[0]);
      return true;
    }

    /** groupChanged: the group effect for the selected group. */
    method GroupChanged() returns (ok: bool)
      modifies this
      ensures ok <==> selection.group in SupportedGroups
      ensures ok ==> versions == SupportedVersions(selection.group).value && kinds == SupportedKinds(selection.group).value
      ensures ok ==> selection == old(selection).(version := versions[0], kind := kinds[0])
      ensures !ok ==> versions == [] && kinds == old(kinds) && selection == old(selection)
      ensures groups == old(groups) && showDiff == old(showDiff)
      ensures Listings() == old(Listings()) && ArtifactFetch() == old(ArtifactFetch())
    {
      ok := ResetForGroup(selection.group);
    }

    /**
     * Mount as written: the query effect, then the group effect with the first render's group
     * (its updates land after the query's), then, when the query named another group, the
     * group effect once more for it.
     */
    method MountAsWritten(p: UrlParams) returns (ok: bool)
      requires Fresh()
      modifies this
      ensures ok <==> MountedAsWritten(p).Some?
      ensures ok ==> selection == MountedAsWritten(p).value
      ensures ok ==> versions == SupportedVersions(selection.group).value && kinds == SupportedKinds(selection.group).value
      ensures !ok ==> versions == [] && kinds == old(kinds) &&
                      selection == Overridden(InitialSelection, p).(version := "v1", kind := "snapshot")
      ensures groups == old(groups) && showDiff == old(showDiff)
      ensures Listings() == old(Listings()) && ArtifactFetch() == old(ArtifactFetch())
    {
      var firstGroup := selection.group;
      ApplyUrlParams(p);
      ok := ResetForGroup(firstGroup);
      if selection.group != firstGroup {
        ok := GroupChanged();
      }
    }

    /** Mount with the query applied over the group's defaults. */
    method Mount(p: UrlParams) returns (ok: bool)
      requires Fresh()
      modifies this
      ensures ok <==> Mounted(p).Some?
      ensures ok ==> selection == Mounted(p).value
      ensures ok ==> versions == SupportedVersions(selection.group).value && kinds == SupportedKinds(selection.group).value
      ensures !ok ==> versions == [] && kinds == old(kinds) &&
                      selection == Overridden(InitialSelection, p.(version := "", kind := ""))
      ensures groups == old(groups) && showDiff == old(showDiff)
      ensures Listings() == (Listing(0, ["default"]), Listing(0, [])) && ArtifactFetch() == Fetch(0, false, false, None)
    {
      ApplyUrlParams(p.(version := "", kind := ""));
      ok := GroupChanged();
      if ok {
        ApplyUrlParams(UrlParams("", "", p.version, p.kind, ""));
      }
    }

    /** The namespace list effect: aborts the outstanding request and issues "/api/". */
    method RequestNamespaces() returns (gen: nat, path: string)
      modifies this
      ensures Listings() == (Issued(old(Listings()).0), old(Listings()).1)
      ensures gen == namespacesGen && path == "/api/"
      ensures selection == old(selection) && ArtifactFetch() == old(ArtifactFetch())
      ensures Choices() == old(Choices()) && showDiff == old(showDiff)
    {
      namespacesGen := namespacesGen + 1;
      return namespacesGen, "/api/";
    }

    /** A namespace list response: only the latest request's success is applied. */
    method NamespacesArrived(gen: nat, result: Option<seq<string>>)
      modifies this
      ensures Listings() == (Arrived(old(Listings()).0, gen, result), old(Listings()).1)
      ensures selection == old(selection) && ArtifactFetch() == old(ArtifactFetch())
      ensures Choices() == old(Choices()) && showDiff == old(showDiff)
    {
      if gen == namespacesGen && result.Some? {
        namespaces := result.value;
      }
    }

    /** The resource list effect: aborts the outstanding request and issues one for the selection. */
    method RequestResources() returns (gen: nat, path: string)
      modifies this
      ensures Listings() == (old(Listings()).0, Issued(old(Listings()).1))
      ensures gen == resourcesGen && path == ResourcesPath(selection)
      ensures selection == old(selection) && ArtifactFetch() == old(ArtifactFetch())
      ensures Choices() == old(Choices()) && showDiff == old(showDiff)
    {
      resourcesGen := resourcesGen + 1;
      gen := resourcesGen;
      path := "/api/" + selection.namespace + "/" + selection.group + "/" + selection.version + "/" + selection.kind;
    }

    /** A resource list response: only the latest request's success is applied. */
    method ResourcesSettled(gen: nat, result: Option<seq<string>>)
      modifies this
      ensures Listings() == (old(Listings()).0, Arrived(old(Listings()).1, gen, result))
      ensures selection == old(selection) && ArtifactFetch() == old(ArtifactFetch())
      ensures Choices() == old(Choices()) && showDiff == old(showDiff)
    {
      if gen == resourcesGen && result.Some? {
        resources := result.value;
      }
    }

    /** resourcesArrived: the resources effect selects the first resource of a non-empty list. */
    method ResourcesArrived()
      modifies this
      ensures selection == old(selection).(resource := FirstResource(resources, old(selection.resource)))
      ensures Choices() == old(Choices()) && showDiff == old(showDiff)
      ensures Listings() == old(Listings()) && ArtifactFetch() == old(ArtifactFetch())
    {
      if |resources| == 0 {
        return;
      }
      selection := selection.(resource := resources[0]);
    }

    /**
     * artifactRequested: the artifact effect. The previous request is aborted; without a
     * resource nothing is fetched, otherwise loading is set and the selection's artifacts requested.
     */
    method ArtifactRequested() returns (gen: nat, path: Option<string>)
      modifies this
      ensures ArtifactFetch() == Requested(old(ArtifactFetch()), selection.resource)
      ensures gen == artifactsGen
      ensures path.Some? <==> selection.resource != ""
      ensures path.Some? ==> path.value == ArtifactsPath(selection)
      ensures selection == old(selection) && Listings() == old(Listings())
      ensures Choices() == old(Choices()) && showDiff == old(showDiff)
    {
      artifactsGen := artifactsGen + 1;
      gen := artifactsGen;
      if selection.resource == "" {
        artifactsInFlight := false;
        return gen, None;
      }
      loading := true;
      artifactsInFlight := true;
      path := Some(ResourcesPath(selection) + "/" + selection.resource + "/artifacts");
    }

    /** artifactSettled as written: the catch clears loading even for an aborted request. */
    method ArtifactSettledAsWritten(gen: nat, outcome: Option<Artifacts>)
      modifies this
      ensures ArtifactFetch() == SettledAsWritten(old(ArtifactFetch()), gen, outcome)
      ensures selection == old(selection) && Listings() == old(Listings())
      ensures Choices() == old(Choices()) && showDiff == old(showDiff)
    {
      if gen == artifactsGen && artifactsInFlight {
        artifactsInFlight := false;
        if outcome.Some? {
          artifacts := outcome;
        }
      }
      loading := false;
    }

    /** artifactSettled: a response of an aborted request is dropped before it touches any state. */
    method ArtifactSettled(gen: nat, outcome: Option<Artifacts>)
      modifies this
      ensures ArtifactFetch() == Settled(old(ArtifactFetch()), gen, outcome)
      ensures selection == old(selection) && Listings() == old(Listings())
      ensures Choices() == old(Choices()) && showDiff == old(showDiff)
    {
      if gen != artifactsGen || !artifactsInFlight {
        return;
      }
      artifactsInFlight := false;
      if outcome.Some? {
        artifacts := outcome;
      }
      loading := false;
    }
  }
}
