/** The operational snapshot taken from smartctl's output, and its agreement with the assessment. */
module Telemetry {
  import opened Wrappers
  import opened Smart
  import Assessment

  datatype Telemetry = Telemetry(
    temperatureCelsius: Option<int64>, powerOnHours: Option<int64>, powerCycleCount: Option<int64>,
    reallocatedSectors: Option<int64>, pendingSectors: Option<int64>,
    percentageUsed: Option<int64>, availableSpare: Option<int64>, criticalWarning: Option<int64>,
    mediaErrors: Option<int64>)

  /** The first table entry with one of the two IDs and a positive raw value. */
  function FirstPositive(t: seq<Attribute>, id: int, alias: int): Option<int64> {
    if t == [] then None
    else
      var earlier := FirstPositive(t[..|t| - 1], id, alias);
      var a := t[|t| - 1];
      if earlier.Some? then earlier
      else if (a.id == id || a.id == alias) && a.raw > 0 then Some(a.raw)
      else None
  }

  function OrElse(a: Option<int64>, b: Option<int64>): Option<int64> { if a.Some? then a else b }

  function Temperature(o: Output): Option<int64> {
    if o.temperature.Some? && o.temperature.value > 0 then o.temperature
    else if o.nvme.Some? && o.nvme.value.temperature > 0 then Some(o.nvme.value.temperature)
    else FirstPositive(Assessment.Table(o), 194, 190)
  }

  /** Field by field: the preferred source, else the first (temperature, hours, cycles) or the
      last (sector counts) entry of the attribute table. */
  function Snapshot(o: Output): Telemetry {
    var t := Assessment.Table(o);
    Telemetry(
      Temperature(o),
      OrElse(o.powerOnHours, FirstPositive(t, 9, 9)),
      OrElse(o.powerCycleCount, FirstPositive(t, 12, 12)),
      LastRaw(t, 5),
      LastRaw(t, 197),
      if o.nvme.Some? then Some(o.nvme.value.percentageUsed) else None,
      if o.nvme.Some? then Some(o.nvme.value.availableSpare) else None,
      if o.nvme.Some? then Some(o.nvme.value.criticalWarning) else None,
      if o.nvme.Some? then Some(o.nvme.value.mediaErrors) else None)
  }

  /** Entry `i` is the first one with one of the two IDs and a positive raw value. */
  predicate IsFirstPositive(t: seq<Attribute>, id: int, alias: int, i: int) {
    && 0 <= i < |t| && (t[i].id == id || t[i].id == alias) && t[i].raw > 0
    && forall j :: 0 <= j < i ==> (t[j].id != id && t[j].id != alias) || t[j].raw <= 0
  }

  /** `r` is the first positive raw value of the table with one of the two IDs, if there is one. */
  predicate IsFirstReading(t: seq<Attribute>, id: int, alias: int, r: Option<int64>) {
    match r
    case None => forall j :: 0 <= j < |t| ==> (t[j].id != id && t[j].id != alias) || t[j].raw <= 0
    case Some(v) => exists i :: 0 <= i < |t| && IsFirstPositive(t, id, alias, i) && t[i].raw == v
  }

  lemma {:induction false} FirstPositiveMeaning(t: seq<Attribute>, id: int, alias: int)
    ensures IsFirstReading(t, id, alias, FirstPositive(t, id, alias))
    decreases |t|
  {
    if t != [] {
      var n := |t| - 1;
      var rest := t[..n];
      FirstPositiveMeaning(rest, id, alias);
      assert forall j :: 0 <= j < n ==> rest[j] == t[j];
      if FirstPositive(rest, id, alias).Some? {
        var i :| 0 <= i < n && IsFirstPositive(rest, id, alias, i) && rest[i].raw == FirstPositive(rest, id, alias).value;
        assert IsFirstPositive(t, id, alias, i);
      } else if FirstPositive(t, id, alias).Some? {
        assert IsFirstPositive(t, id, alias, n);
      }
    }
  }

  /** Where every field of the snapshot comes from. Temperature, hours and cycles have a preferred
      source and fall back to the attribute table; the sector counts are the last entries with IDs 5
      and 197; the other four are the NVMe log's. */
  lemma SnapshotSources(o: Output)
    ensures var d, t := Snapshot(o), if o.ata.Some? then o.ata.value else [];
            var top := o.temperature.Some? && o.temperature.value > 0;
            var log := o.nvme.Some? && o.nvme.value.temperature > 0;
            && (top ==> d.temperatureCelsius == o.temperature)
            && (!top && log ==> d.temperatureCelsius == Some(o.nvme.value.temperature))
            && (!top && !log ==> IsFirstReading(t, 194, 190, d.temperatureCelsius))
            && (if o.powerOnHours.Some? then d.powerOnHours == o.powerOnHours else IsFirstReading(t, 9, 9, d.powerOnHours))
            && (if o.powerCycleCount.Some? then d.powerCycleCount == o.powerCycleCount
                else IsFirstReading(t, 12, 12, d.powerCycleCount))
            && (forall i :: IsLastOf(t, 5, i) ==> d.reallocatedSectors == Some(t[i].raw))
            && (forall i :: IsLastOf(t, 197, i) ==> d.pendingSectors == Some(t[i].raw))
            && (d.reallocatedSectors.None? <==> forall a :: a in t ==> a.id != 5)
            && (d.pendingSectors.None? <==> forall a :: a in t ==> a.id != 197)
            && d.percentageUsed == (if o.nvme.Some? then Some(o.nvme.value.percentageUsed) else None)
            && d.availableSpare == (if o.nvme.Some? then Some(o.nvme.value.availableSpare) else None)
            && d.criticalWarning == (if o.nvme.Some? then Some(o.nvme.value.criticalWarning) else None)
            && d.mediaErrors == (if o.nvme.Some? then Some(o.nvme.value.mediaErrors) else None)
  {
    hide FirstPositive, LastRaw, IsFirstReading;
    var t := Assessment.Table(o);
    FirstPositiveMeaning(t, 194, 190);
    FirstPositiveMeaning(t, 9, 9);
    FirstPositiveMeaning(t, 12, 12);
    forall i | IsLastOf(t, 5, i) ensures LastRaw(t, 5) == Some(t[i].raw) {
      LastRawMeaning(t, 5, i);
    }
    forall i | IsLastOf(t, 197, i) ensures LastRaw(t, 197) == Some(t[i].raw) {
      LastRawMeaning(t, 197, i);
    }
  }

  lemma FirstPositiveStep(t: seq<Attribute>, i: nat, id: int, alias: int)
    requires i < |t|
    ensures FirstPositive(t[..i + 1], id, alias)
         == OrElse(FirstPositive(t[..i], id, alias),
                   if (t[i].id == id || t[i].id == alias) && t[i].raw > 0 then Some(t[i].raw) else None)
  {
    assert t[..i + 1][..i] == t[..i];
  }

  lemma LastRawStep(t: seq<Attribute>, i: nat, id: int)
    requires i < |t|
    ensures LastRaw(t[..i + 1], id) == if t[i].id == id then Some(t[i].raw) else LastRaw(t[..i], id)
  {
    assert t[..i + 1][..i] == t[..i];
  }

  /** What the attribute table adds to a snapshot. */
  function WithTable(d: Telemetry, t: seq<Attribute>): Telemetry {
    d.(temperatureCelsius := OrElse(d.temperatureCelsius, FirstPositive(t, 194, 190)),
       powerOnHours := OrElse(d.powerOnHours, FirstPositive(t, 9, 9)),
       powerCycleCount := OrElse(d.powerCycleCount, FirstPositive(t, 12, 12)),
       reallocatedSectors := LastRaw(t, 5),
       pendingSectors := LastRaw(t, 197))
  }

  lemma EmptyTable(d: Telemetry)
    requires d.reallocatedSectors == d.pendingSectors == None
    ensures WithTable(d, []) == d
  {
  }

  /** The loop over the table, one case for each attribute of interest. */
  method ReadTable(top: Telemetry, t: seq<Attribute>) returns (d: Telemetry)
    requires top.reallocatedSectors == top.pendingSectors == None
    ensures d == WithTable(top, t)
  {
    hide FirstPositive, LastRaw;
    d := top;
    EmptyTable(d);
    assert t[..0] == [];
    for i := 0 to |t|
      invariant d == WithTable(top, t[..i])
    {
      var a := t[i];
      FirstPositiveStep(t, i, 194, 190);
      FirstPositiveStep(t, i, 9, 9);
      FirstPositiveStep(t, i, 12, 12);
      LastRawStep(t, i, 5);
      LastRawStep(t, i, 197);
      if a.id == 5 {
        d := d.(reallocatedSectors := Some(a.raw));
      } else if a.id == 197 {
        d := d.(pendingSectors := Some(a.raw));
      } else if a.id == 194 || a.id == 190 {
        if d.temperatureCelsius.None? && a.raw > 0 {
          d := d.(temperatureCelsius := Some(a.raw));
        }
      } else if a.id == 9 {
        if d.powerOnHours.None? && a.raw > 0 {
          d := d.(powerOnHours := Some(a.raw));
        }
      } else if a.id == 12 {
        if d.powerCycleCount.None? && a.raw > 0 {
          d := d.(powerCycleCount := Some(a.raw));
        }
      }
    }
    assert t[..|t|] == t;
  }

  method ExtractTelemetry(data: Option<Output>) returns (r: Option<Telemetry>)
    ensures r == if data.Some? then Some(Snapshot(data.value)) else None
  {
    hide FirstPositive, LastRaw;
    if data.None? {
      return None;
    }
    var o := data.value;
    var d := Telemetry(None, None, None, None, None, None, None, None, None);
    if o.temperature.Some? && o.temperature.value > 0 {
      d := d.(temperatureCelsius := Some(o.temperature.value));
    } else if o.nvme.Some? && o.nvme.value.temperature > 0 {
      d := d.(temperatureCelsius := Some(o.nvme.value.temperature));
    }
    if o.powerOnHours.Some? {
      d := d.(powerOnHours := Some(o.powerOnHours.value));
    }
    if o.powerCycleCount.Some? {
      d := d.(powerCycleCount := Some(o.powerCycleCount.value));
    }
    if o.ata.Some? {
      d := ReadTable(d, o.ata.value);
    } else {
      EmptyTable(d);
    }
    if o.nvme.Some? {
      var n := o.nvme.value;
      d := d.(percentageUsed := Some(n.percentageUsed), availableSpare := Some(n.availableSpare),
              criticalWarning := Some(n.criticalWarning), mediaErrors := Some(n.mediaErrors));
    }
    return Some(d);
  }

  /** The assessment and the telemetry walk the attribute table independently and still agree:
      a sector finding carries exactly the sum of the two counts in the snapshot, and
      SectorErrors on the ATA path means that this sum is positive. */
  lemma SectorFindingMatchesTelemetry(o: Output, f: Assessment.Finding)
    requires Assessment.AtaPath(o)
    ensures var r := Assessment.Assess(Some(o));
            var sum := Add(OrZero(Snapshot(o).reallocatedSectors), OrZero(Snapshot(o).pendingSectors));
            && (f in r.findings && (f.id == Assessment.Sectors || f.id == Assessment.ExcessiveSectors) ==>
                  f.raw == sum && (f.id == Assessment.Sectors <==> r.status == Assessment.SectorErrors))
            && (r.status == Assessment.SectorErrors ==> sum > 0)
  {
    NoSectorFinding(Assessment.Table(o));
  }

  lemma {:induction false} NoSectorFinding(t: seq<Attribute>)
    ensures forall f :: f in Assessment.TableFindings(t) ==> f.id.FailingNow? || f.id.FailedPast?
  {
    if t != [] {
      NoSectorFinding(t[..|t| - 1]);
    }
  }
}
