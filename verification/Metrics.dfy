/** The gauges exported for a node: publishing a collection and deleting by partial match. */
module Metrics {
  import opened Wrappers
  import opened DiskInfos
  import opened Smart
  import opened Assessment
  import T = Telemetry

  datatype Vec =
    | Device | Version | SmartStatus | Temperature | PowerOnSeconds | PowerCycleCount | PercentageUsed
    | AvailableSpare | AvailableSpareThreshold | CriticalWarning | MediaErrors | NumErrLogEntries | SmartAttribute
    | HealthStatus | CollectionSuccess

  datatype Part = Raw | Value | Worst | Threshold

  /** The labels a gauge vector has besides node, disk and device. */
  datatype Extra =
    | NoExtra
    | Texts(texts: seq<string>)
    | Numbers(numbers: seq<int>)
    | StatusLabel(status: Health)
    | AttributeLabel(name: string, id: int, part: Part)

  /** One time series. `smartctl_version` has no disk and no device; they are empty there. */
  datatype Series = Series(vec: Vec, node: string, disk: string, device: string, extra: Extra)

  type Gauges = map<Series, int>

  type Writes = seq<(Series, int)>

  function At(g: Gauges, s: Series): Option<int> { if s in g then Some(g[s]) else None }

  // ----- Writing

  function SetAll(g: Gauges, w: Writes): Gauges {
    if w == [] then g else SetAll(g, w[..|w| - 1])[w[|w| - 1].0 := w[|w| - 1].1]
  }

  /** The value a list of writes leaves in a series. */
  function Final(w: Writes, s: Series): Option<int> {
    if w == [] then None
    else if w[|w| - 1].0 == s then Some(w[|w| - 1].1)
    else Final(w[..|w| - 1], s)
  }

  lemma {:induction false} AtSetAll(g: Gauges, w: Writes, s: Series)
    ensures At(SetAll(g, w), s) == if Final(w, s).Some? then Final(w, s) else At(g, s)
    decreases |w|
  {
    if w != [] {
      AtSetAll(g, w[..|w| - 1], s);
    }
  }

  lemma {:induction false} FinalConcat(a: Writes, b: Writes, s: Series)
    ensures Final(a + b, s) == if Final(b, s).Some? then Final(b, s) else Final(a, s)
    decreases |b|
  {
    if b == [] {
      assert a + b == a;
    } else {
      assert (a + b)[..|a + b| - 1] == a + b[..|b| - 1];
      FinalConcat(a, b[..|b| - 1], s);
    }
  }

  lemma {:induction false} SetAllConcat(g: Gauges, a: Writes, b: Writes)
    ensures SetAll(g, a + b) == SetAll(SetAll(g, a), b)
    decreases |b|
  {
    if b == [] {
      assert a + b == a;
    } else {
      assert (a + b)[..|a + b| - 1] == a + b[..|b| - 1];
      SetAllConcat(g, a, b[..|b| - 1]);
    }
  }

  lemma {:induction false} FinalIsWritten(w: Writes, s: Series)
    ensures Final(w, s).Some? <==> exists e :: e in w && e.0 == s
    ensures Final(w, s).Some? ==> (s, Final(w, s).value) in w
    decreases |w|
  {
    if w != [] {
      assert w == w[..|w| - 1] + [w[|w| - 1]];
      FinalIsWritten(w[..|w| - 1], s);
    }
  }

  lemma SameGauges(g: Gauges, h: Gauges)
    requires forall s :: At(g, s) == At(h, s)
    ensures g == h
  {
    forall s ensures s in g <==> s in h {
      assert At(g, s) == At(h, s);
    }
    forall s | s in g ensures g[s] == h[s] {
      assert At(g, s) == At(h, s);
    }
  }

  /** The writes are already in effect. */
  ghost predicate Settled(g: Gauges, w: Writes) {
    forall s :: Final(w, s).Some? ==> At(g, s) == Final(w, s)
  }

  lemma SettledIff(g: Gauges, w: Writes)
    ensures Settled(g, w) <==> SetAll(g, w) == g
  {
    forall s ensures At(SetAll(g, w), s) == if Final(w, s).Some? then Final(w, s) else At(g, s) {
      AtSetAll(g, w, s);
    }
    if Settled(g, w) {
      SameGauges(SetAll(g, w), g);
    }
  }

  // ----- Deleting

  predicate IsReading(v: Vec) { v != Version && v != CollectionSuccess }

  predicate OfDisk(s: Series, node: string, disk: string) { s.node == node && s.disk == disk }

  function Without(g: Gauges, vecs: set<Vec>, node: string, disk: string): Gauges {
    map s | s in g && !(s.vec in vecs && OfDisk(s, node, disk)) :: g[s]
  }

  const READINGS: set<Vec> := {
    Device, SmartStatus, Temperature, PowerOnSeconds, PowerCycleCount, PercentageUsed, AvailableSpare,
    AvailableSpareThreshold, CriticalWarning, MediaErrors, NumErrLogEntries, SmartAttribute, HealthStatus}

  lemma ReadingsAre(v: Vec)
    ensures v in READINGS <==> IsReading(v)
  {
  }

  lemma WithoutTwice(g: Gauges, a: set<Vec>, b: set<Vec>, node: string, disk: string)
    ensures Without(Without(g, a, node, disk), b, node, disk) == Without(g, a + b, node, disk)
  {
  }

  class Registry {
    var gauges: Gauges

    constructor ()
      ensures gauges == map[]
    {
      gauges := map[];
    }

    method Set(s: Series, value: int)
      modifies this
      ensures gauges == old(gauges)[s := value]
    {
      gauges := gauges[s := value];
    }

    method DeletePartialMatch(vec: Vec, node: string, disk: string)
      modifies this
      ensures gauges == Without(old(gauges), {vec}, node, disk)
    {
      gauges := map s | s in gauges && !(s.vec == vec && OfDisk(s, node, disk)) :: gauges[s];
    }

    /** Drops all hardware readings of a disk, vector by vector. */
    method DeleteDeviceHealthMetrics(node: string, disk: string)
      modifies this
      ensures gauges == Without(old(gauges), READINGS, node, disk)
    {
      var order := [
        Device, SmartStatus, Temperature, PowerOnSeconds, PowerCycleCount, PercentageUsed, AvailableSpare,
        AvailableSpareThreshold, CriticalWarning, MediaErrors, NumErrLogEntries, SmartAttribute, HealthStatus];
      ghost var done: set<Vec> := {};
      for i := 0 to |order|
        invariant done == set v | v in order[..i]
        invariant gauges == Without(old(gauges), done, node, disk)
      {
        WithoutTwice(old(gauges), done, {order[i]}, node, disk);
        assert order[..i + 1] == order[..i] + [order[i]];
        DeletePartialMatch(order[i], node, disk);
        done := done + {order[i]};
      }
      assert order[..|order|] == order;
      assert done == READINGS;
    }

    method DeleteAllDiskMetrics(node: string, disk: string)
      modifies this
      ensures gauges == Without(old(gauges), READINGS + {CollectionSuccess}, node, disk)
    {
      DeleteDeviceHealthMetrics(node, disk);
      WithoutTwice(old(gauges), READINGS, {CollectionSuccess}, node, disk);
      DeletePartialMatch(CollectionSuccess, node, disk);
    }

    /** Writes one collection's gauges, as publishHealthMetrics does, in its order. */
    method PublishHealthMetrics(node: string, disk: string, info: DiskInfo, o: Output, status: Health)
      modifies this
      ensures gauges == SetAll(old(gauges), PublishWrites(node, disk, info, o, status))
    {
      ghost var g := gauges;
      var d := info.path;
      var w := DeviceWrites(node, disk, info, o);
      SetEach(w);
      ghost var done := w;
      w := StatusWrites(node, disk, d, status);
      SetEach(w);
      SetAllConcat(g, done, w);
      done := done + w;
      w := TelemetryWrites(node, disk, d, T.Snapshot(o));
      SetEach(w);
      SetAllConcat(g, done, w);
      done := done + w;
      if o.nvme.Some? {
        w := NvmeWrites(node, disk, d, o.nvme.value);
        SetEach(w);
        SetAllConcat(g, done, w);
        done := done + w;
      } else {
        assert done + [] == done;
      }
      if o.ata.Some? {
        w := AttributeWrites(node, disk, d, o.ata.value);
        SetEach(w);
        SetAllConcat(g, done, w);
      } else {
        assert done + [] == done;
      }
    }

    method SetEach(w: Writes)
      modifies this
      ensures gauges == SetAll(old(gauges), w)
    {
      for i := 0 to |w|
        invariant gauges == SetAll(old(gauges), w[..i])
      {
        assert w[..i + 1][..i] == w[..i];
        Set(w[i].0, w[i].1);
      }
      assert w[..|w|] == w;
    }
  }

  // ----- What one collection publishes

  const ALL_STATUSES: seq<Health> := [
    Good, SectorErrors, ExcessiveSectorErrors, AttributeFailingNow, AttributeFailedInPast, SelfAssessmentFailed, Unknown]

  function Plain(v: Vec, node: string, disk: string, device: string): Series { Series(v, node, disk, device, NoExtra) }

  function DeviceWrites(node: string, disk: string, info: DiskInfo, o: Output): Writes {
    [(Series(Device, node, disk, info.path, Texts(o.labels + [info.firmwareVersion])), 1),
     (Series(Version, node, "", "", Numbers(o.version)), 1),
     (Plain(SmartStatus, node, disk, info.path), if o.passed then 1 else 0)]
  }

  function StatusSeries(node: string, disk: string, device: string, h: Health): Series {
    Series(HealthStatus, node, disk, device, StatusLabel(h))
  }

  /** One gauge for every status, 1 for the assessed one. */
  function StatusWrites(node: string, disk: string, device: string, status: Health): Writes {
    seq(|ALL_STATUSES|, i requires 0 <= i < |ALL_STATUSES| =>
      (StatusSeries(node, disk, device, ALL_STATUSES[i]), if ALL_STATUSES[i] == status then 1 else 0))
  }

  function IfSome(s: Series, v: Option<int>): Writes { if v.Some? then [(s, v.value)] else [] }

  function Seconds(hours: Option<int64>): Option<int> {
    if hours.Some? then Some(Wrap(hours.value * 3600)) else None
  }

  function TelemetryWrites(node: string, disk: string, device: string, t: T.Telemetry): Writes {
    IfSome(Series(Temperature, node, disk, device, Texts(["current"])), t.temperatureCelsius)
    + IfSome(Plain(PowerOnSeconds, node, disk, device), Seconds(t.powerOnHours))
    + IfSome(Plain(PowerCycleCount, node, disk, device), t.powerCycleCount)
  }

  function NvmeWrites(node: string, disk: string, device: string, n: Nvme): Writes {
    [(Plain(PercentageUsed, node, disk, device), n.percentageUsed),
     (Plain(AvailableSpare, node, disk, device), n.availableSpare),
     (Plain(AvailableSpareThreshold, node, disk, device), n.availableSpareThreshold),
     (Plain(CriticalWarning, node, disk, device), n.criticalWarning),
     (Plain(MediaErrors, node, disk, device), n.mediaErrors),
     (Plain(NumErrLogEntries, node, disk, device), n.numErrLogEntries)]
  }

  function AttributeWrite(node: string, disk: string, device: string, a: Attribute): Writes {
    [(Series(SmartAttribute, node, disk, device, AttributeLabel(a.name, a.id, Raw)), a.raw),
     (Series(SmartAttribute, node, disk, device, AttributeLabel(a.name, a.id, Value)), a.value),
     (Series(SmartAttribute, node, disk, device, AttributeLabel(a.name, a.id, Worst)), a.worst),
     (Series(SmartAttribute, node, disk, device, AttributeLabel(a.name, a.id, Threshold)), a.threshold)]
  }

  function AttributeWrites(node: string, disk: string, device: string, t: seq<Attribute>): Writes {
    if t == [] then [] else AttributeWrite(node, disk, device, t[0]) + AttributeWrites(node, disk, device, t[1..])
  }

  function PublishWrites(node: string, disk: string, info: DiskInfo, o: Output, status: Health): Writes {
    DeviceWrites(node, disk, info, o)
    + StatusWrites(node, disk, info.path, status)
    + TelemetryWrites(node, disk, info.path, T.Snapshot(o))
    + (if o.nvme.Some? then NvmeWrites(node, disk, info.path, o.nvme.value) else [])
    + (if o.ata.Some? then AttributeWrites(node, disk, info.path, o.ata.value) else [])
  }

  /** Every write concerns this disk, or is the constant 1 of the smartctl version. */
  predicate Owned(w: Writes, node: string, disk: string) {
    forall e :: e in w ==> if e.0.vec == Version then e.1 == 1 else OfDisk(e.0, node, disk)
  }

  predicate Avoids(w: Writes, v: Vec) { forall e :: e in w ==> e.0.vec != v }

  lemma AttributeWriteOwned(node: string, disk: string, device: string, a: Attribute)
    ensures Owned(AttributeWrite(node, disk, device, a), node, disk)
    ensures Avoids(AttributeWrite(node, disk, device, a), HealthStatus)
  {
  }

  lemma {:induction false} AttributeWritesOwned(node: string, disk: string, device: string, t: seq<Attribute>)
    ensures Owned(AttributeWrites(node, disk, device, t), node, disk)
    ensures Avoids(AttributeWrites(node, disk, device, t), HealthStatus)
    decreases |t|
  {
    hide AttributeWrite;
    if t != [] {
      AttributeWriteOwned(node, disk, device, t[0]);
      AttributeWritesOwned(node, disk, device, t[1..]);
    }
  }

  /** A piece of a publication: it concerns this disk and no health series. */
  predicate Piece(w: Writes, node: string, disk: string) { Owned(w, node, disk) && Avoids(w, HealthStatus) }

  lemma DevicePiece(node: string, disk: string, info: DiskInfo, o: Output)
    ensures Piece(DeviceWrites(node, disk, info, o), node, disk)
  {
  }

  lemma TelemetryPiece(node: string, disk: string, device: string, t: T.Telemetry)
    ensures Piece(TelemetryWrites(node, disk, device, t), node, disk)
  {
  }

  lemma NvmePiece(node: string, disk: string, device: string, n: Nvme)
    ensures Piece(NvmeWrites(node, disk, device, n), node, disk)
  {
  }

  lemma StatusOwned(node: string, disk: string, device: string, status: Health)
    ensures Owned(StatusWrites(node, disk, device, status), node, disk)
  {
  }

  lemma Pieces(a: Writes, b: Writes, c: Writes, n: Writes, e: Writes, node: string, disk: string, s: Series)
    requires Piece(a, node, disk) && Owned(b, node, disk) && Piece(c, node, disk) && Piece(n, node, disk) && Piece(e, node, disk)
    ensures Owned(a + b + c + n + e, node, disk)
    ensures s.vec == HealthStatus ==> Final(a + b + c + n + e, s) == Final(b, s)
  {
    if s.vec == HealthStatus {
      AvoidsFinal(a, s);
      AvoidsFinal(c, s);
      AvoidsFinal(n, s);
      AvoidsFinal(e, s);
      FinalConcat(a + b + c + n, e, s);
      FinalConcat(a + b + c, n, s);
      FinalConcat(a + b, c, s);
      FinalConcat(a, b, s);
    }
  }

  /** A publication concerns its own disk only, and on the health vector it writes the seven
      statuses and nothing else. */
  lemma PublishPieces(node: string, disk: string, info: DiskInfo, o: Output, status: Health, s: Series)
    ensures Owned(PublishWrites(node, disk, info, o, status), node, disk)
    ensures s.vec == HealthStatus ==>
              Final(PublishWrites(node, disk, info, o, status), s) == Final(StatusWrites(node, disk, info.path, status), s)
  {
    var d, t := info.path, T.Snapshot(o);
    var a, b, c := DeviceWrites(node, disk, info, o), StatusWrites(node, disk, d, status), TelemetryWrites(node, disk, d, t);
    var n := if o.nvme.Some? then NvmeWrites(node, disk, d, o.nvme.value) else [];
    var e := if o.ata.Some? then AttributeWrites(node, disk, d, o.ata.value) else [];
    DevicePiece(node, disk, info, o);
    StatusOwned(node, disk, d, status);
    TelemetryPiece(node, disk, d, t);
    if o.nvme.Some? {
      NvmePiece(node, disk, d, o.nvme.value);
    }
    AttributeWritesOwned(node, disk, d, Table(o));
    Pieces(a, b, c, n, e, node, disk, s);
  }

  // ----- The telemetry gauges

  predicate OnlyVec(w: Writes, v: Vec) { forall e :: e in w ==> e.0.vec == v }

  lemma {:induction false} AttributeVec(node: string, disk: string, device: string, t: seq<Attribute>)
    ensures OnlyVec(AttributeWrites(node, disk, device, t), SmartAttribute)
    decreases |t|
  {
    if t != [] {
      AttributeVec(node, disk, device, t[1..]);
    }
  }

  /** The three readings that a publication takes from the telemetry snapshot. */
  predicate FromTelemetry(v: Vec) { v == Temperature || v == PowerOnSeconds || v == PowerCycleCount }

  function TelemetryValue(t: T.Telemetry, v: Vec): Option<int>
    requires FromTelemetry(v)
  {
    match v
    case Temperature => t.temperatureCelsius
    case PowerOnSeconds => if t.powerOnHours.Some? then Some(Wrap(t.powerOnHours.value * 3600)) else None
    case PowerCycleCount => t.powerCycleCount
  }

  function TelemetrySeries(node: string, disk: string, device: string, v: Vec): Series {
    Series(v, node, disk, device, if v == Temperature then Texts(["current"]) else NoExtra)
  }

  lemma TelemetryFinal(node: string, disk: string, device: string, t: T.Telemetry, v: Vec)
    requires FromTelemetry(v)
    ensures Final(TelemetryWrites(node, disk, device, t), TelemetrySeries(node, disk, device, v)) == TelemetryValue(t, v)
  {
    var s := TelemetrySeries(node, disk, device, v);
    var a := IfSome(Series(Temperature, node, disk, device, Texts(["current"])), t.temperatureCelsius);
    var b := IfSome(Plain(PowerOnSeconds, node, disk, device), Seconds(t.powerOnHours));
    var c := IfSome(Plain(PowerCycleCount, node, disk, device), t.powerCycleCount);
    FinalConcat(a + b, c, s);
    FinalConcat(a, b, s);
    FinalIfSome(Series(Temperature, node, disk, device, Texts(["current"])), t.temperatureCelsius, s);
    FinalIfSome(Plain(PowerOnSeconds, node, disk, device), Seconds(t.powerOnHours), s);
    FinalIfSome(Plain(PowerCycleCount, node, disk, device), t.powerCycleCount, s);
  }

  lemma FinalIfSome(written: Series, v: Option<int>, s: Series)
    ensures Final(IfSome(written, v), s) == if written == s then v else None
  {
  }

  lemma Between(a: Writes, b: Writes, c: Writes, n: Writes, e: Writes, s: Series)
    requires Avoids(a, s.vec) && Avoids(b, s.vec) && Avoids(n, s.vec) && Avoids(e, s.vec)
    ensures Final(a + b + c + n + e, s) == Final(c, s)
  {
    hide Avoids;
    AvoidsFinal(a, s);
    AvoidsFinal(b, s);
    AvoidsFinal(n, s);
    AvoidsFinal(e, s);
    FinalConcat(a + b + c + n, e, s);
    FinalConcat(a + b + c, n, s);
    FinalConcat(a + b, c, s);
    FinalConcat(a, b, s);
  }

  lemma DeviceAvoids(node: string, disk: string, info: DiskInfo, o: Output, v: Vec)
    requires FromTelemetry(v)
    ensures Avoids(DeviceWrites(node, disk, info, o), v)
  {
  }

  lemma StatusAvoids(node: string, disk: string, device: string, status: Health, v: Vec)
    requires FromTelemetry(v)
    ensures Avoids(StatusWrites(node, disk, device, status), v)
  {
  }

  lemma NvmeAvoids(node: string, disk: string, device: string, n: Nvme, v: Vec)
    requires FromTelemetry(v)
    ensures Avoids(NvmeWrites(node, disk, device, n), v)
  {
  }

  /** After a publication the temperature, hours and cycle gauges equal the telemetry snapshot
      that goes into the status; a reading the snapshot lacks keeps the value it had before. */
  lemma TelemetryGaugesMatchStatus(g: Gauges, node: string, disk: string, info: DiskInfo, o: Output, status: Health,
                                   v: Vec)
    requires FromTelemetry(v)
    ensures var s := TelemetrySeries(node, disk, info.path, v);
            var reading := TelemetryValue(T.Snapshot(o), v);
            At(SetAll(g, PublishWrites(node, disk, info, o, status)), s) == if reading.Some? then reading else At(g, s)
  {
    hide T.Snapshot, TelemetryWrites, AttributeWrites, NvmeWrites, DeviceWrites, StatusWrites, TelemetryValue, Seconds;
    var d, t, s := info.path, T.Snapshot(o), TelemetrySeries(node, disk, info.path, v);
    var n := if o.nvme.Some? then NvmeWrites(node, disk, d, o.nvme.value) else [];
    var e := if o.ata.Some? then AttributeWrites(node, disk, d, o.ata.value) else [];
    AttributeVec(node, disk, d, Table(o));
    DeviceAvoids(node, disk, info, o, v);
    StatusAvoids(node, disk, d, status, v);
    if o.nvme.Some? {
      NvmeAvoids(node, disk, d, o.nvme.value, v);
    }
    Between(DeviceWrites(node, disk, info, o), StatusWrites(node, disk, d, status), TelemetryWrites(node, disk, d, t), n, e, s);
    TelemetryFinal(node, disk, d, t, v);
    AtSetAll(g, PublishWrites(node, disk, info, o, status), s);
  }

  // ----- The other gauges of a publication

  /** Only the piece that writes this vector decides a series. */
  lemma PieceDecides(node: string, disk: string, info: DiskInfo, o: Output, status: Health, s: Series)
    requires s.vec != HealthStatus && !FromTelemetry(s.vec)
    ensures Final(PublishWrites(node, disk, info, o, status), s)
         == if s.vec == Device || s.vec == Version || s.vec == SmartStatus then Final(DeviceWrites(node, disk, info, o), s)
            else if s.vec == SmartAttribute then Final(AttributeWrites(node, disk, info.path, Table(o)), s)
            else if o.nvme.Some? then Final(NvmeWrites(node, disk, info.path, o.nvme.value), s)
            else None
  {
    hide T.Snapshot, Final, DeviceWrites, StatusWrites, TelemetryWrites, NvmeWrites, AttributeWrites;
    var d := info.path;
    var a, b := DeviceWrites(node, disk, info, o), StatusWrites(node, disk, d, status);
    var c := TelemetryWrites(node, disk, d, T.Snapshot(o));
    var n := if o.nvme.Some? then NvmeWrites(node, disk, d, o.nvme.value) else [];
    var e := if o.ata.Some? then AttributeWrites(node, disk, d, o.ata.value) else [];
    FinalConcat(a + b + c + n, e, s);
    FinalConcat(a + b + c, n, s);
    FinalConcat(a + b, c, s);
    FinalConcat(a, b, s);
    PieceVectors(node, disk, info, o, status, T.Snapshot(o));
    AvoidsFinal(b, s);
    AvoidsFinal(c, s);
    NoWrites(s);
    NoAttributes(node, disk, d);
    if s.vec == Device || s.vec == Version || s.vec == SmartStatus {
      if o.nvme.Some? {
        NvmeVectors(node, disk, d, o.nvme.value, s.vec);
        AvoidsFinal(n, s);
      }
      if o.ata.Some? {
        AttributeVec(node, disk, d, o.ata.value);
        AvoidsFinal(e, s);
      }
    } else {
      DeviceVectors(node, disk, info, o, s.vec);
      AvoidsFinal(a, s);
      if s.vec == SmartAttribute {
        if o.nvme.Some? {
          NvmeVectors(node, disk, d, o.nvme.value, s.vec);
          AvoidsFinal(n, s);
        }
      } else if o.ata.Some? {
        AttributeVec(node, disk, d, o.ata.value);
        AvoidsFinal(e, s);
      }
    }
  }

  lemma NoWrites(s: Series)
    ensures Final([], s) == None
  {
  }

  lemma NoAttributes(node: string, disk: string, device: string)
    ensures AttributeWrites(node, disk, device, []) == []
  {
  }

  lemma PieceVectors(node: string, disk: string, info: DiskInfo, o: Output, status: Health, t: T.Telemetry)
    ensures forall v :: v != HealthStatus ==> Avoids(StatusWrites(node, disk, info.path, status), v)
    ensures forall v :: !FromTelemetry(v) ==> Avoids(TelemetryWrites(node, disk, info.path, t), v)
  {
  }

  lemma DeviceVectors(node: string, disk: string, info: DiskInfo, o: Output, v: Vec)
    requires v != Device && v != Version && v != SmartStatus
    ensures Avoids(DeviceWrites(node, disk, info, o), v)
  {
  }

  lemma NvmeVectors(node: string, disk: string, device: string, n: Nvme, v: Vec)
    requires v == Device || v == Version || v == SmartStatus || v == SmartAttribute || v == CollectionSuccess
    ensures Avoids(NvmeWrites(node, disk, device, n), v)
  {
  }

  /** After a publication: the static gauges, the self-assessment, and, for an NVMe disk, six gauges
      with the readings of the health log under their own names. Without a health log these six keep
      what they showed. */
  lemma PublishedReadings(g: Gauges, node: string, disk: string, info: DiskInfo, o: Output, status: Health)
    ensures var g', d := SetAll(g, PublishWrites(node, disk, info, o, status)), info.path;
            && At(g', Series(Device, node, disk, d, Texts(o.labels + [info.firmwareVersion]))) == Some(1)
            && At(g', Series(Version, node, "", "", Numbers(o.version))) == Some(1)
            && At(g', Series(SmartStatus, node, disk, d, NoExtra)) == Some(if o.passed then 1 else 0)
            && (o.nvme.Some? ==>
                  var n := o.nvme.value;
                  && At(g', Series(PercentageUsed, node, disk, d, NoExtra)) == Some(n.percentageUsed)
                  && At(g', Series(AvailableSpare, node, disk, d, NoExtra)) == Some(n.availableSpare)
                  && At(g', Series(AvailableSpareThreshold, node, disk, d, NoExtra)) == Some(n.availableSpareThreshold)
                  && At(g', Series(CriticalWarning, node, disk, d, NoExtra)) == Some(n.criticalWarning)
                  && At(g', Series(MediaErrors, node, disk, d, NoExtra)) == Some(n.mediaErrors)
                  && At(g', Series(NumErrLogEntries, node, disk, d, NoExtra)) == Some(n.numErrLogEntries))
            && (o.nvme.None? ==>
                  && At(g', Plain(PercentageUsed, node, disk, d)) == At(g, Plain(PercentageUsed, node, disk, d))
                  && At(g', Plain(AvailableSpare, node, disk, d)) == At(g, Plain(AvailableSpare, node, disk, d))
                  && At(g', Plain(AvailableSpareThreshold, node, disk, d)) == At(g, Plain(AvailableSpareThreshold, node, disk, d))
                  && At(g', Plain(CriticalWarning, node, disk, d)) == At(g, Plain(CriticalWarning, node, disk, d))
                  && At(g', Plain(MediaErrors, node, disk, d)) == At(g, Plain(MediaErrors, node, disk, d))
                  && At(g', Plain(NumErrLogEntries, node, disk, d)) == At(g, Plain(NumErrLogEntries, node, disk, d)))
  {
    hide PublishWrites, SetAll, Final, DeviceWrites, NvmeWrites, At;
    var d := info.path;
    DeviceFinal(node, disk, info, o);
    AfterPublishing(g, node, disk, info, o, status, Series(Device, node, disk, d, Texts(o.labels + [info.firmwareVersion])));
    AfterPublishing(g, node, disk, info, o, status, Series(Version, node, "", "", Numbers(o.version)));
    AfterPublishing(g, node, disk, info, o, status, Plain(SmartStatus, node, disk, d));
    AfterPublishing(g, node, disk, info, o, status, Plain(PercentageUsed, node, disk, d));
    AfterPublishing(g, node, disk, info, o, status, Plain(AvailableSpare, node, disk, d));
    AfterPublishing(g, node, disk, info, o, status, Plain(AvailableSpareThreshold, node, disk, d));
    AfterPublishing(g, node, disk, info, o, status, Plain(CriticalWarning, node, disk, d));
    AfterPublishing(g, node, disk, info, o, status, Plain(MediaErrors, node, disk, d));
    AfterPublishing(g, node, disk, info, o, status, Plain(NumErrLogEntries, node, disk, d));
    if o.nvme.Some? {
      NvmeFinal(node, disk, d, o.nvme.value);
    }
  }

  lemma AfterPublishing(g: Gauges, node: string, disk: string, info: DiskInfo, o: Output, status: Health, s: Series)
    requires s.vec != HealthStatus && !FromTelemetry(s.vec)
    ensures var f := if s.vec == Device || s.vec == Version || s.vec == SmartStatus then Final(DeviceWrites(node, disk, info, o), s)
                     else if s.vec == SmartAttribute then Final(AttributeWrites(node, disk, info.path, Table(o)), s)
                     else if o.nvme.Some? then Final(NvmeWrites(node, disk, info.path, o.nvme.value), s) else None;
            At(SetAll(g, PublishWrites(node, disk, info, o, status)), s) == if f.Some? then f else At(g, s)
  {
    hide PublishWrites, SetAll, Final, DeviceWrites, NvmeWrites, AttributeWrites, At;
    AtSetAll(g, PublishWrites(node, disk, info, o, status), s);
    PieceDecides(node, disk, info, o, status, s);
  }

  /** Whether the collection succeeded is not for the publication to say. */
  lemma PublishAvoids(node: string, disk: string, info: DiskInfo, o: Output, status: Health, s: Series)
    requires s.vec == CollectionSuccess
    ensures Final(PublishWrites(node, disk, info, o, status), s) == None
  {
    hide PublishWrites, Final, NvmeWrites;
    PieceDecides(node, disk, info, o, status, s);
    if o.nvme.Some? {
      NvmeVectors(node, disk, info.path, o.nvme.value, CollectionSuccess);
      AvoidsFinal(NvmeWrites(node, disk, info.path, o.nvme.value), s);
    }
  }

  /** A series that is written once has that value. */
  lemma WrittenOnce(w: Writes, i: nat)
    requires i < |w| && forall j :: 0 <= j < |w| && j != i ==> w[j].0 != w[i].0
    ensures Final(w, w[i].0) == Some(w[i].1)
  {
    FinalIsWritten(w, w[i].0);
    assert w[i] in w;
  }

  lemma DeviceFinal(node: string, disk: string, info: DiskInfo, o: Output)
    ensures var w := DeviceWrites(node, disk, info, o);
            && Final(w, Series(Device, node, disk, info.path, Texts(o.labels + [info.firmwareVersion]))) == Some(1)
            && Final(w, Series(Version, node, "", "", Numbers(o.version))) == Some(1)
            && Final(w, Series(SmartStatus, node, disk, info.path, NoExtra)) == Some(if o.passed then 1 else 0)
  {
    hide Final;
    var w := DeviceWrites(node, disk, info, o);
    WrittenOnce(w, 0);
    WrittenOnce(w, 1);
    WrittenOnce(w, 2);
  }

  lemma NvmeFinal(node: string, disk: string, device: string, n: Nvme)
    ensures var w := NvmeWrites(node, disk, device, n);
            && Final(w, Series(PercentageUsed, node, disk, device, NoExtra)) == Some(n.percentageUsed)
            && Final(w, Series(AvailableSpare, node, disk, device, NoExtra)) == Some(n.availableSpare)
            && Final(w, Series(AvailableSpareThreshold, node, disk, device, NoExtra)) == Some(n.availableSpareThreshold)
            && Final(w, Series(CriticalWarning, node, disk, device, NoExtra)) == Some(n.criticalWarning)
            && Final(w, Series(MediaErrors, node, disk, device, NoExtra)) == Some(n.mediaErrors)
            && Final(w, Series(NumErrLogEntries, node, disk, device, NoExtra)) == Some(n.numErrLogEntries)
  {
    hide Final;
    var w := NvmeWrites(node, disk, device, n);
    WrittenOnce(w, 0);
    WrittenOnce(w, 1);
    WrittenOnce(w, 2);
    WrittenOnce(w, 3);
    WrittenOnce(w, 4);
    WrittenOnce(w, 5);
  }

  /** The four gauges of an ATA attribute show the last entry of the table with its name and ID. */
  lemma PublishedAttributes(g: Gauges, node: string, disk: string, info: DiskInfo, o: Output, status: Health, i: nat)
    requires o.ata.Some? && i < |o.ata.value|
    requires forall j :: i < j < |o.ata.value| ==> o.ata.value[j].name != o.ata.value[i].name || o.ata.value[j].id != o.ata.value[i].id
    ensures var g', d, a := SetAll(g, PublishWrites(node, disk, info, o, status)), info.path, o.ata.value[i];
            && At(g', Series(SmartAttribute, node, disk, d, AttributeLabel(a.name, a.id, Raw))) == Some(a.raw)
            && At(g', Series(SmartAttribute, node, disk, d, AttributeLabel(a.name, a.id, Value))) == Some(a.value)
            && At(g', Series(SmartAttribute, node, disk, d, AttributeLabel(a.name, a.id, Worst))) == Some(a.worst)
            && At(g', Series(SmartAttribute, node, disk, d, AttributeLabel(a.name, a.id, Threshold))) == Some(a.threshold)
  {
    hide PublishWrites, SetAll, Final, AttributeWrites;
    var a := o.ata.value[i];
    forall part ensures
      var s := Series(SmartAttribute, node, disk, info.path, AttributeLabel(a.name, a.id, part));
      At(SetAll(g, PublishWrites(node, disk, info, o, status)), s) == Some(PartOf(a, part))
    {
      var s := Series(SmartAttribute, node, disk, info.path, AttributeLabel(a.name, a.id, part));
      AfterPublishing(g, node, disk, info, o, status, s);
      AttributeFinal(node, disk, info.path, o.ata.value, i, part);
    }
  }

  function PartOf(a: Attribute, part: Part): int {
    match part
    case Raw => a.raw
    case Value => a.value
    case Worst => a.worst
    case Threshold => a.threshold
  }

  function AttributeSeries(node: string, disk: string, device: string, a: Attribute, part: Part): Series {
    Series(SmartAttribute, node, disk, device, AttributeLabel(a.name, a.id, part))
  }

  lemma {:induction false} AttributeFinal(node: string, disk: string, device: string, t: seq<Attribute>, i: nat, part: Part)
    requires i < |t| && forall j :: i < j < |t| ==> t[j].name != t[i].name || t[j].id != t[i].id
    ensures Final(AttributeWrites(node, disk, device, t), AttributeSeries(node, disk, device, t[i], part)) == Some(PartOf(t[i], part))
    decreases |t|
  {
    hide Final, AttributeWrite;
    var s := AttributeSeries(node, disk, device, t[i], part);
    FinalConcat(AttributeWrite(node, disk, device, t[0]), AttributeWrites(node, disk, device, t[1..]), s);
    if i == 0 {
      OneAttribute(node, disk, device, t[0], part);
      OtherAttributes(node, disk, device, t[1..], t[0], part);
    } else {
      AttributeFinal(node, disk, device, t[1..], i - 1, part);
    }
  }

  lemma OneAttribute(node: string, disk: string, device: string, a: Attribute, part: Part)
    ensures Final(AttributeWrite(node, disk, device, a), AttributeSeries(node, disk, device, a, part)) == Some(PartOf(a, part))
  {
    hide Final;
    var w := AttributeWrite(node, disk, device, a);
    WrittenOnce(w, 0);
    WrittenOnce(w, 1);
    WrittenOnce(w, 2);
    WrittenOnce(w, 3);
  }

  lemma {:induction false} OtherAttributes(node: string, disk: string, device: string, t: seq<Attribute>, a: Attribute, part: Part)
    requires forall j :: 0 <= j < |t| ==> t[j].name != a.name || t[j].id != a.id
    ensures Final(AttributeWrites(node, disk, device, t), AttributeSeries(node, disk, device, a, part)) == None
    decreases |t|
  {
    hide Final, AttributeWrite;
    var s := AttributeSeries(node, disk, device, a, part);
    if t == [] {
      NoWrites(s);
    } else {
      FinalConcat(AttributeWrite(node, disk, device, t[0]), AttributeWrites(node, disk, device, t[1..]), s);
      OtherAttribute(node, disk, device, t[0], a, part);
      OtherAttributes(node, disk, device, t[1..], a, part);
    }
  }

  lemma OtherAttribute(node: string, disk: string, device: string, b: Attribute, a: Attribute, part: Part)
    requires b.name != a.name || b.id != a.id
    ensures Final(AttributeWrite(node, disk, device, b), AttributeSeries(node, disk, device, a, part)) == None
  {
    FinalIsWritten(AttributeWrite(node, disk, device, b), AttributeSeries(node, disk, device, a, part));
  }

  // ----- The health gauges

  predicate OfDevice(s: Series, node: string, disk: string, device: string) {
    s.vec == HealthStatus && OfDisk(s, node, disk) && s.device == device
  }

  ghost predicate IsHot(g: Gauges, node: string, disk: string, device: string, hot: Health) {
    forall h :: At(g, StatusSeries(node, disk, device, h))
             == if h in ALL_STATUSES then Some(if h == hot then 1 else 0) else None
  }

  ghost predicate NoHealth(g: Gauges, node: string, disk: string, device: string) {
    forall h :: At(g, StatusSeries(node, disk, device, h)) == None
  }

  /** Either no health series of this device, or all seven with exactly one at 1. */
  ghost predicate OneHot(g: Gauges, node: string, disk: string, device: string) {
    NoHealth(g, node, disk, device) || exists hot :: hot in ALL_STATUSES && IsHot(g, node, disk, device, hot)
  }

  ghost predicate HealthGaugesSound(g: Gauges) {
    forall node, disk, device :: OneHot(g, node, disk, device)
  }

  lemma SameOneHot(g: Gauges, g': Gauges, node: string, disk: string, device: string)
    requires forall h :: At(g', StatusSeries(node, disk, device, h)) == At(g, StatusSeries(node, disk, device, h))
    requires OneHot(g, node, disk, device)
    ensures OneHot(g', node, disk, device)
  {
    if !NoHealth(g, node, disk, device) {
      var hot :| hot in ALL_STATUSES && IsHot(g, node, disk, device, hot);
      assert IsHot(g', node, disk, device, hot);
    }
  }

  lemma EveryStatus(h: Health)
    ensures h in ALL_STATUSES <==> h != Unset
  {
    assert ALL_STATUSES[0] == Good && ALL_STATUSES[1] == SectorErrors && ALL_STATUSES[2] == ExcessiveSectorErrors;
    assert ALL_STATUSES[3] == AttributeFailingNow && ALL_STATUSES[4] == AttributeFailedInPast;
    assert ALL_STATUSES[5] == SelfAssessmentFailed && ALL_STATUSES[6] == Unknown;
  }

  lemma StatusWritesFinal(node: string, disk: string, device: string, status: Health, s: Series)
    ensures var w := StatusWrites(node, disk, device, status);
            Final(w, s) == if OfDevice(s, node, disk, device) && s.extra.StatusLabel? && s.extra.status in ALL_STATUSES
                           then Some(if s.extra.status == status then 1 else 0) else None
  {
    var w := StatusWrites(node, disk, device, status);
    FinalIsWritten(w, s);
    if OfDevice(s, node, disk, device) && s.extra.StatusLabel? && s.extra.status in ALL_STATUSES {
      var i :| 0 <= i < |ALL_STATUSES| && ALL_STATUSES[i] == s.extra.status;
      assert w[i] in w && w[i].0 == s;
    }
  }

  lemma AvoidsFinal(w: Writes, s: Series)
    requires Avoids(w, s.vec)
    ensures Final(w, s) == None
  {
    FinalIsWritten(w, s);
  }

  /** After publishing, exactly the assessed status of the device is hot, and the gauges stay
      sound for every device of every disk. */
  lemma PublishSound(g: Gauges, node: string, disk: string, info: DiskInfo, o: Output, status: Health)
    requires HealthGaugesSound(g) && status in ALL_STATUSES
    ensures var g' := SetAll(g, PublishWrites(node, disk, info, o, status));
            IsHot(g', node, disk, info.path, status) && HealthGaugesSound(g')
  {
    var w := PublishWrites(node, disk, info, o, status);
    var g' := SetAll(g, w);
    forall n, k, d, h ensures At(g', StatusSeries(n, k, d, h)) == PublishedAt(g, node, disk, info.path, status, n, k, d, h) {
      var s := StatusSeries(n, k, d, h);
      AtSetAll(g, w, s);
      PublishPieces(node, disk, info, o, status, s);
      StatusWritesFinal(node, disk, info.path, status, s);
    }
    NoUnset(g, node, disk, info.path);
    assert IsHot(g', node, disk, info.path, status);
    forall n, k, d ensures OneHot(g', n, k, d) {
      assert OneHot(g, n, k, d);
      if !(n == node && k == disk && d == info.path) {
        SameOneHot(g, g', n, k, d);
      }
    }
  }

  /** A health series after a publication for (node, disk, device). */
  function PublishedAt(g: Gauges, node: string, disk: string, device: string, status: Health,
                       n: string, k: string, d: string, h: Health): Option<int> {
    if n == node && k == disk && d == device && h in ALL_STATUSES then Some(if h == status then 1 else 0)
    else At(g, StatusSeries(n, k, d, h))
  }

  lemma NoUnset(g: Gauges, node: string, disk: string, device: string)
    requires HealthGaugesSound(g)
    ensures forall h :: h !in ALL_STATUSES ==> At(g, StatusSeries(node, disk, device, h)) == None
  {
    assert OneHot(g, node, disk, device);
  }

  /** Deleting a disk's readings removes whole groups of health series. */
  lemma WithoutSound(g: Gauges, vecs: set<Vec>, node: string, disk: string)
    requires HealthGaugesSound(g)
    ensures HealthGaugesSound(Without(g, vecs, node, disk))
  {
    var g' := Without(g, vecs, node, disk);
    forall n, k, d ensures OneHot(g', n, k, d) {
      assert OneHot(g, n, k, d);
      if HealthStatus in vecs && n == node && k == disk {
        assert NoHealth(g', n, k, d);
      } else {
        SameOneHot(g, g', n, k, d);
      }
    }
  }

  lemma SetSound(g: Gauges, s: Series, value: int)
    requires HealthGaugesSound(g) && s.vec != HealthStatus
    ensures HealthGaugesSound(g[s := value])
  {
    var g' := g[s := value];
    forall n, k, d ensures OneHot(g', n, k, d) {
      assert OneHot(g, n, k, d);
      SameOneHot(g, g', n, k, d);
    }
  }
}
