/**
 * The two custom resources of the snapshot.kaidotio.github.io API group. A spec is a value the
 * controllers only read; a resource is an object whose status the controllers overwrite in
 * place, so it is a class with a mutable status. Amounts are fractions instead of float64, and
 * a time is an integer instant (LastSnapshotTime is None while the field is nil).
 */
module ApiTypes {
  import opened Wrappers
  import opened Fraction

  datatype SnapshotSpec = SnapshotSpec(
    baseline: string,
    target: string,
    screenshotDiffFormat: string,
    htmlDiffFormat: string,
    maskSelectors: seq<string>,
    headers: map<string, string>)

  datatype SnapshotStatus = SnapshotStatus(
    baselineURL: string,
    targetURL: string,
    baselineHTMLURL: string,
    targetHTMLURL: string,
    screenshotDiffURL: string,
    screenshotDiffAmount: Fraction,
    htmlDiffURL: string,
    htmlDiffAmount: Fraction,
    lastSnapshotTime: Option<int>,
    observedGeneration: int)

  /** The status of a freshly created resource: every field at its zero value. */
  const EmptySnapshotStatus: SnapshotStatus :=
    SnapshotStatus("", "", "", "", "", Zero, "", Zero, None, 0)

  /** A Snapshot as stored by the API server; the reconciler only writes its status. */
  class Snapshot {
    const name: string
    const namespace: string
    const generation: int
    const spec: SnapshotSpec
    var status: SnapshotStatus

    constructor (name: string, namespace: string, generation: int, spec: SnapshotSpec, status: SnapshotStatus)
      ensures this.name == name && this.namespace == namespace && this.generation == generation
      ensures this.spec == spec && this.status == status
    {
      this.name := name;
      this.namespace := namespace;
      this.generation := generation;
      this.spec := spec;
      this.status := status;
    }
  }

  /**
   * The controller reads mask selectors and headers from a ScheduledSnapshot spec too, so the
   * model gives the spec those two fields.
   */
  datatype ScheduledSnapshotSpec = ScheduledSnapshotSpec(
    schedule: string,
    target: string,
    screenshotDiffFormat: string,
    htmlDiffFormat: string,
    maskSelectors: seq<string>,
    headers: map<string, string>)

  datatype ScheduledSnapshotStatus = ScheduledSnapshotStatus(
    baselineURL: string,
    targetURL: string,
    baselineHTMLURL: string,
    targetHTMLURL: string,
    screenshotDiffURL: string,
    screenshotDiffAmount: Fraction,
    htmlDiffURL: string,
    htmlDiffAmount: Fraction,
    lastSnapshotTime: Option<int>)

  const EmptyScheduledSnapshotStatus: ScheduledSnapshotStatus :=
    ScheduledSnapshotStatus("", "", "", "", "", Zero, "", Zero, None)

  /** A ScheduledSnapshot as stored by the API server. */
  class ScheduledSnapshot {
    const name: string
    const namespace: string
    const spec: ScheduledSnapshotSpec
    var status: ScheduledSnapshotStatus

    constructor (name: string, namespace: string, spec: ScheduledSnapshotSpec, status: ScheduledSnapshotStatus)
      ensures this.name == name && this.namespace == namespace
      ensures this.spec == spec && this.status == status
    {
      this.name := name;
      this.namespace := namespace;
      this.spec := spec;
      this.status := status;
    }
  }
}
