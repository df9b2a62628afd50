/** The health assessment cascades for ATA, NVMe and SCSI devices. */
module Assessment {
  import opened Wrappers
  import opened Smart

  /** `Unset` is the empty health of a disk that was never handled. */
  datatype Health =
    | Unset
    | Good
    | SectorErrors
    | ExcessiveSectorErrors
    | AttributeFailingNow
    | AttributeFailedInPast
    | SelfAssessmentFailed
    | Unknown

  datatype FindingId =
    | AtaSelfAssessment
    | FailingNow(attribute: int)
    | FailedPast(attribute: int)
    | ExcessiveSectors
    | Sectors
    | NvmeCriticalWarning
    | NvmeSpareBelowThreshold
    | NvmeEnduranceExhausted
    | NvmeMediaErrors
    | ScsiSelfAssessment
    | ScsiUncorrectedErrors
    | DeviceSelfAssessment

  datatype Finding = Finding(id: FindingId, attributeName: string, raw: int64)

  datatype Result = Result(status: Health, findings: seq<Finding>)

  const SECTOR_NAME := "ReallocatedAndPendingSectors"

  predicate IsSectorId(id: int) { id == 5 || id == 197 }

  // ----- The documented cascade, stated over the whole attribute table

  predicate SectorFailingNow(t: seq<Attribute>) {
    exists a :: a in t && IsAttributeFailingNow(a) && IsSectorId(a.id)
  }

  predicate OtherFailingNow(t: seq<Attribute>) {
    exists a :: a in t && IsAttributeFailingNow(a) && !IsSectorId(a.id)
  }

  predicate OnlyFailedInPast(t: seq<Attribute>) {
    exists a :: a in t && !IsAttributeFailingNow(a) && IsAttributeFailedInPast(a)
  }

  function BadSectors(t: seq<Attribute>): int64 {
    Add(OrZero(LastRaw(t, 5)), OrZero(LastRaw(t, 197)))
  }

  function FindingOf(a: Attribute): seq<Finding> {
    if IsAttributeFailingNow(a) then [Finding(FailingNow(a.id), a.name, a.raw)]
    else if IsAttributeFailedInPast(a) then [Finding(FailedPast(a.id), a.name, a.raw)]
    else []
  }

  function TableFindings(t: seq<Attribute>): seq<Finding> {
    if t == [] then [] else TableFindings(t[..|t| - 1]) + FindingOf(t[|t| - 1])
  }

  predicate SelfTestFailed(o: Output) { !o.passed || HasExitBit(o, EXIT_DISK_FAILING) }

  function Table(o: Output): seq<Attribute> { if o.ata.Some? then o.ata.value else [] }

  function AtaStatus(o: Output): Health {
    var t := Table(o);
    if SelfTestFailed(o) then SelfAssessmentFailed
    else if SectorFailingNow(t) then ExcessiveSectorErrors
    else if OtherFailingNow(t) || HasExitBit(o, EXIT_PREFAIL_BELOW) then AttributeFailingNow
    else if BadSectors(t) > 0 then SectorErrors
    else if OnlyFailedInPast(t) || HasExitBit(o, EXIT_BELOW_PAST) then AttributeFailedInPast
    else Good
  }

  /** The finding that names the level, for the levels that have one. */
  function LevelFinding(status: Health, sectors: int64): seq<Finding> {
    match status
    case SelfAssessmentFailed => [Finding(AtaSelfAssessment, "SmartStatus", 0)]
    case ExcessiveSectorErrors => [Finding(ExcessiveSectors, SECTOR_NAME, sectors)]
    case SectorErrors => [Finding(Sectors, SECTOR_NAME, sectors)]
    case _ => []
  }

  function AtaFindings(o: Output): seq<Finding> {
    var t := Table(o);
    LevelFinding(AtaStatus(o), BadSectors(t)) + (if SelfTestFailed(o) then [] else TableFindings(t))
  }

  function NvmeResult(o: Output, n: Nvme): Result {
    if SelfTestFailed(o) || n.criticalWarning > 0 then
      Result(SelfAssessmentFailed, [Finding(NvmeCriticalWarning, "CriticalWarning", n.criticalWarning)])
    else if n.availableSpareThreshold > 0 && n.availableSpare < n.availableSpareThreshold then
      Result(AttributeFailingNow, [Finding(NvmeSpareBelowThreshold, "AvailableSpare", n.availableSpare)])
    else if n.percentageUsed >= 100 then
      Result(AttributeFailingNow, [Finding(NvmeEnduranceExhausted, "PercentageUsed", n.percentageUsed)])
    else if n.mediaErrors > 0 then
      Result(SectorErrors, [Finding(NvmeMediaErrors, "MediaErrors", n.mediaErrors)])
    else Result(Good, [])
  }

  function Uncorrected(o: Output): int64 {
    if o.scsi.None? then 0 else Add(OrZero(o.scsi.value.read), OrZero(o.scsi.value.write))
  }

  predicate IsScsi(o: Output) { o.scsi.Some? || o.protocol == "SCSI" }

  predicate AtaPath(o: Output) {
    o.ata.Some? || !(o.nvme.Some? || o.protocol == "NVMe" || IsScsi(o))
  }

  function NonAtaResult(o: Output): Result
    requires !AtaPath(o)
  {
    if o.nvme.Some? then NvmeResult(o, o.nvme.value)
    else if IsScsi(o) then
      if SelfTestFailed(o) then Result(SelfAssessmentFailed, [Finding(ScsiSelfAssessment, "SmartStatus", 0)])
      else if Uncorrected(o) > 0 then
        Result(SectorErrors, [Finding(ScsiUncorrectedErrors, "TotalUncorrectedErrors", Uncorrected(o))])
      else Result(Good, [])
    else if SelfTestFailed(o) then Result(SelfAssessmentFailed, [Finding(DeviceSelfAssessment, "SmartStatus", 0)])
    else Result(Good, [])
  }

  function Assess(data: Option<Output>): Result {
    if data.None? then Result(Unknown, [])
    else if AtaPath(data.value) then Result(AtaStatus(data.value), AtaFindings(data.value))
    else NonAtaResult(data.value)
  }

  // ----- The loop

  lemma TableStep(t: seq<Attribute>, a: Attribute)
    ensures var u := t + [a];
            && TableFindings(u) == TableFindings(t) + FindingOf(a)
            && SectorFailingNow(u) == (SectorFailingNow(t) || (IsAttributeFailingNow(a) && IsSectorId(a.id)))
            && OtherFailingNow(u) == (OtherFailingNow(t) || (IsAttributeFailingNow(a) && !IsSectorId(a.id)))
            && OnlyFailedInPast(u) == (OnlyFailedInPast(t) || (!IsAttributeFailingNow(a) && IsAttributeFailedInPast(a)))
            && LastRaw(u, 5) == (if a.id == 5 then Some(a.raw) else LastRaw(t, 5))
            && LastRaw(u, 197) == (if a.id == 197 then Some(a.raw) else LastRaw(t, 197))
  {
    var u := t + [a];
    assert u[..|u| - 1] == t && u[|u| - 1] == a;
    assert forall b :: b in u <==> b in t || b == a;
  }

  /** One pass over the table with flags and accumulators. */
  method ScanTable(t: seq<Attribute>)
    returns (findings: seq<Finding>, hasSectorFailingNow: bool, hasOtherFailingNow: bool, hasFailedInPast: bool,
             reallocated: int64, pending: int64)
    ensures findings == TableFindings(t)
    ensures hasSectorFailingNow == SectorFailingNow(t) && hasOtherFailingNow == OtherFailingNow(t)
    ensures hasFailedInPast == OnlyFailedInPast(t)
    ensures reallocated == OrZero(LastRaw(t, 5)) && pending == OrZero(LastRaw(t, 197))
  {
    findings, reallocated, pending := [], 0, 0;
    hasSectorFailingNow, hasOtherFailingNow, hasFailedInPast := false, false, false;
    for i := 0 to |t|
      invariant findings == TableFindings(t[..i])
      invariant hasSectorFailingNow == SectorFailingNow(t[..i])
      invariant hasOtherFailingNow == OtherFailingNow(t[..i])
      invariant hasFailedInPast == OnlyFailedInPast(t[..i])
      invariant reallocated == OrZero(LastRaw(t[..i], 5))
      invariant pending == OrZero(LastRaw(t[..i], 197))
    {
      var a := t[i];
      TableStep(t[..i], a);
      assert t[..i + 1] == t[..i] + [a];
      if IsAttributeFailingNow(a) {
        if a.id == 5 || a.id == 197 {
          hasSectorFailingNow := true;
        } else {
          hasOtherFailingNow := true;
        }
        findings := findings + [Finding(FailingNow(a.id), a.name, a.raw)];
      } else if IsAttributeFailedInPast(a) {
        hasFailedInPast := true;
        findings := findings + [Finding(FailedPast(a.id), a.name, a.raw)];
      }
      if a.id == 5 {
        reallocated := a.raw;
      }
      if a.id == 197 {
        pending := a.raw;
      }
    }
    assert t[..|t|] == t;
  }

  /** Decides from the collected flags and meets the documented cascade. */
  method Evaluate(data: Option<Output>) returns (r: Result)
    ensures r == Assess(data)
  {
    if data.None? {
      return Result(Unknown, []);
    }
    var o := data.value;
    var isNvmeOrScsi := o.nvme.Some? || o.scsi.Some? || o.protocol == "NVMe" || o.protocol == "SCSI";
    if isNvmeOrScsi && o.ata.None? {
      r := EvaluateNvmeOrScsi(o);
      return;
    }
    if !o.passed || HasExitBit(o, EXIT_DISK_FAILING) {
      return Result(SelfAssessmentFailed, [Finding(AtaSelfAssessment, "SmartStatus", 0)]);
    }
    var findings: seq<Finding> := [];
    var hasSectorFailingNow, hasOtherFailingNow, hasFailedInPast := false, false, false;
    var reallocated: int64, pending: int64 := 0, 0;
    if o.ata.Some? {
      findings, hasSectorFailingNow, hasOtherFailingNow, hasFailedInPast, reallocated, pending
        := ScanTable(o.ata.value);
    }
    if hasSectorFailingNow {
      findings := [Finding(ExcessiveSectors, SECTOR_NAME, Add(reallocated, pending))] + findings;
      return Result(ExcessiveSectorErrors, findings);
    }
    assert findings == [] + findings;
    if hasOtherFailingNow || HasExitBit(o, EXIT_PREFAIL_BELOW) {
      return Result(AttributeFailingNow, findings);
    }
    var total: int64 := Add(reallocated, pending);
    if total > 0 {
      findings := [Finding(Sectors, SECTOR_NAME, total)] + findings;
      return Result(SectorErrors, findings);
    }
    if hasFailedInPast || HasExitBit(o, EXIT_BELOW_PAST) {
      return Result(AttributeFailedInPast, findings);
    }
    return Result(Good, findings);
  }

  method EvaluateNvmeOrScsi(o: Output) returns (r: Result)
    requires !AtaPath(o)
    ensures r == NonAtaResult(o)
  {
    var failed := !o.passed || HasExitBit(o, EXIT_DISK_FAILING);
    if o.nvme.Some? {
      var n := o.nvme.value;
      if failed || n.criticalWarning > 0 {
        return Result(SelfAssessmentFailed, [Finding(NvmeCriticalWarning, "CriticalWarning", n.criticalWarning)]);
      }
      if n.availableSpareThreshold > 0 && n.availableSpare < n.availableSpareThreshold {
        return Result(AttributeFailingNow, [Finding(NvmeSpareBelowThreshold, "AvailableSpare", n.availableSpare)]);
      }
      if n.percentageUsed >= 100 {
        return Result(AttributeFailingNow, [Finding(NvmeEnduranceExhausted, "PercentageUsed", n.percentageUsed)]);
      }
      if n.mediaErrors > 0 {
        return Result(SectorErrors, [Finding(NvmeMediaErrors, "MediaErrors", n.mediaErrors)]);
      }
      return Result(Good, []);
    }
    if o.scsi.Some? || o.protocol == "SCSI" {
      if failed {
        return Result(SelfAssessmentFailed, [Finding(ScsiSelfAssessment, "SmartStatus", 0)]);
      }
      var uncorrected: int64 := 0;
      if o.scsi.Some? {
        if o.scsi.value.read.Some? {
          uncorrected := Add(uncorrected, o.scsi.value.read.value);
        }
        if o.scsi.value.write.Some? {
          uncorrected := Add(uncorrected, o.scsi.value.write.value);
        }
      }
      if uncorrected > 0 {
        return Result(SectorErrors, [Finding(ScsiUncorrectedErrors, "TotalUncorrectedErrors", uncorrected)]);
      }
      return Result(Good, []);
    }
    if failed {
      return Result(SelfAssessmentFailed, [Finding(DeviceSelfAssessment, "SmartStatus", 0)]);
    }
    return Result(Good, []);
  }

  // ----- What the cascade guarantees

  /** Readable data always yields a verdict. */
  lemma NeverUnknown(o: Output)
    ensures Assess(Some(o)).status !in {Unset, Unknown}
  {
  }

  lemma {:induction false} NoTableFindings(t: seq<Attribute>)
    requires forall a :: a in t ==> !IsAttributeFailingNow(a) && !IsAttributeFailedInPast(a)
    ensures TableFindings(t) == []
  {
    if t != [] {
      NoTableFindings(t[..|t| - 1]);
    }
  }

  /** A good disk has no findings, in every protocol. */
  lemma GoodMeansNoFindings(data: Option<Output>)
    requires Assess(data).status == Good
    ensures Assess(data).findings == []
  {
    var o := data.value;
    if AtaPath(o) {
      var t := Table(o);
      forall a | a in t ensures !IsAttributeFailingNow(a) && !IsAttributeFailedInPast(a) {
        if IsAttributeFailingNow(a) {
          assert false;
        }
      }
      NoTableFindings(t);
    }
  }

  /** When does the sign of a 64-bit sum tell whether one of the two counts is positive? */
  predicate SumTells(x: int64, y: int64) {
    if x > 0 || y > 0 then 0 < x + y < TWO_63 else -TWO_63 <= x + y || x + y == -2 * TWO_63
  }

  /** Below the higher levels, the documentation reports SectorErrors when either raw count is
      positive; the code looks at the sum of the counts as 64-bit numbers. Condition by condition,
      for all counts: the verdict is the documented one exactly when the sum is positive without
      overflow for the one, and does not overflow into the positive for the other. */
  lemma DocumentedSectorErrors(o: Output)
    requires AtaPath(o) && !SelfTestFailed(o) && !SectorFailingNow(Table(o))
    requires !OtherFailingNow(Table(o)) && !HasExitBit(o, EXIT_PREFAIL_BELOW)
    ensures var reallocated, pending := OrZero(LastRaw(Table(o), 5)), OrZero(LastRaw(Table(o), 197));
            var reported := Assess(Some(o)).status == SectorErrors;
            (reported == (reallocated > 0 || pending > 0)) <==> SumTells(reallocated, pending)
  {
    assert Assess(Some(o)).status == SectorErrors <==> BadSectors(Table(o)) > 0;
  }

  /** The same for SCSI: the documentation looks at the read and the write log separately, the
      code at their 64-bit sum. */
  lemma DocumentedScsiErrors(o: Output)
    requires !AtaPath(o) && o.nvme.None? && o.scsi.Some? && !SelfTestFailed(o)
    ensures var read, write := OrZero(o.scsi.value.read), OrZero(o.scsi.value.write);
            var reported := Assess(Some(o)).status == SectorErrors;
            (reported == (read > 0 || write > 0)) <==> SumTells(read, write)
  {
    assert Assess(Some(o)).status == SectorErrors <==> Uncorrected(o) > 0;
  }

  /** NVMe: the documentation compares the spare capacity with its threshold, the code does so only
      if the threshold is positive. The verdicts differ only for a negative spare capacity, so
      for every percentage a device can report the extra test changes nothing. */
  lemma DocumentedNvmeSpare(o: Output, n: Nvme)
    requires o.ata.None? && o.nvme == Some(n) && !SelfTestFailed(o) && n.criticalWarning <= 0
    ensures var documented := n.availableSpare < n.availableSpareThreshold || n.percentageUsed >= 100;
            var reported := Assess(Some(o)).status == AttributeFailingNow;
            && ((reported == documented) <==>
                  n.availableSpareThreshold > 0 || n.availableSpare >= n.availableSpareThreshold || n.percentageUsed >= 100)
            && (n.availableSpare >= 0 ==> reported == documented)
  {
  }

  const QUIET := Output([], 0, "", [], "", true, None, None, None, None, None, None)

  function Count(id: int64, raw: int64): Attribute { Attribute(id, "", 100, 100, 0, "", raw) }

  /** Two tables with bad sectors that the code calls good: an overflowing sum, and a negative
      count that cancels a positive one. Overflow also hides uncorrected SCSI errors. */
  lemma OverlookedErrors()
    ensures var overflow := QUIET.(ata := Some([Count(5, TWO_63 - 1), Count(197, 1)]));
            var cancelled := QUIET.(ata := Some([Count(5, -5), Count(197, 3)]));
            var scsi := QUIET.(scsi := Some(ScsiLog(Some(TWO_63 - 1), Some(1))));
            && LastRaw(Table(overflow), 5) == Some(TWO_63 - 1) && LastRaw(Table(cancelled), 197) == Some(3)
            && Assess(Some(overflow)).status == Assess(Some(cancelled)).status == Assess(Some(scsi)).status == Good
  {
    hide IsAttributeFailingNow, IsAttributeFailedInPast, LastRaw, Assess;
    TwoCounts(TWO_63 - 1, 1);
    TwoCounts(-5, 3);
    GoodTable([Count(5, TWO_63 - 1), Count(197, 1)]);
    GoodTable([Count(5, -5), Count(197, 3)]);
    GoodScsi(TWO_63 - 1, 1);
  }

  lemma GoodTable(t: seq<Attribute>)
    requires !SectorFailingNow(t) && !OtherFailingNow(t) && !OnlyFailedInPast(t) && BadSectors(t) <= 0
    ensures Assess(Some(QUIET.(ata := Some(t)))).status == Good
  {
    hide SectorFailingNow, OtherFailingNow, OnlyFailedInPast, BadSectors;
  }

  lemma GoodScsi(read: int64, write: int64)
    requires Add(read, write) <= 0
    ensures Assess(Some(QUIET.(scsi := Some(ScsiLog(Some(read), Some(write)))))).status == Good
  {
  }

  lemma TwoCounts(x: int64, y: int64)
    ensures var t := [Count(5, x), Count(197, y)];
            && LastRaw(t, 5) == Some(x) && LastRaw(t, 197) == Some(y)
            && !SectorFailingNow(t) && !OtherFailingNow(t) && !OnlyFailedInPast(t)
  {
    hide IsAttributeFailingNow, IsAttributeFailedInPast;
    var t := [Count(5, x), Count(197, y)];
    assert t[..1] == [Count(5, x)];
    NotFailing(Count(5, x));
    NotFailing(Count(197, y));
  }

  lemma NotFailing(a: Attribute)
    requires a.whenFailed == "" && a.threshold == 0
    ensures !IsAttributeFailingNow(a) && !IsAttributeFailedInPast(a)
  {
  }

  function Severity(h: Health): int {
    match h
    case Unset => -1
    case Unknown => -1
    case Good => 0
    case AttributeFailedInPast => 1
    case SectorErrors => 2
    case AttributeFailingNow => 3
    case ExcessiveSectorErrors => 4
    case SelfAssessmentFailed => 5
  }

  lemma LastRawInsert(a: seq<Attribute>, x: Attribute, b: seq<Attribute>, id: int)
    requires forall y :: y in a + b ==> y.id != x.id
    ensures LastRaw(a + [x] + b, id) == if id == x.id then Some(x.raw) else LastRaw(a + b, id)
  {
    LastRawConcat(a + [x], b, id);
    LastRawConcat(a, [x], id);
    LastRawConcat(a, b, id);
    assert [x][..0] == [];
  }

  lemma FlagsGrow(t: seq<Attribute>, u: seq<Attribute>)
    requires forall y :: y in t ==> y in u
    ensures SectorFailingNow(t) ==> SectorFailingNow(u)
    ensures OtherFailingNow(t) ==> OtherFailingNow(u)
    ensures OnlyFailedInPast(t) ==> OnlyFailedInPast(u)
  {
  }

  lemma SeverityGrows(o: Output, t: seq<Attribute>, u: seq<Attribute>)
    requires o.ata == Some(t) && (forall y :: y in t ==> y in u) && BadSectors(t) <= BadSectors(u)
    ensures Severity(AtaStatus(o)) <= Severity(AtaStatus(o.(ata := Some(u))))
  {
    FlagsGrow(t, u);
    assert Table(o) == t && Table(o.(ata := Some(u))) == u;
  }

  /** One more attribute makes a disk look healthier only in one way: sector errors were reported, and
      with the attribute, which is not failing itself, the 64-bit sum is not positive any more. */
  lemma MoreAttributesIff(o: Output, a: seq<Attribute>, x: Attribute, b: seq<Attribute>)
    requires o.ata == Some(a + b)
    ensures var r, s := Assess(Some(o)).status, Assess(Some(o.(ata := Some(a + [x] + b)))).status;
            Severity(r) <= Severity(s) <==>
              !(r == SectorErrors && BadSectors(a + [x] + b) <= 0 && !IsAttributeFailingNow(x))
  {
    hide Assess, SectorFailingNow, OtherFailingNow, OnlyFailedInPast, BadSectors, HasExitBit, IsAttributeFailingNow;
    var t, u := a + b, a + [x] + b;
    var p := o.(ata := Some(u));
    AtaVerdict(o);
    AtaVerdict(p);
    SameExitBits(o, p);
    assert Table(o) == t && Table(p) == u;
    FlagsGrow(t, u);
    FlagsWith(a, x, b);
  }

  lemma FlagsWith(a: seq<Attribute>, x: Attribute, b: seq<Attribute>)
    ensures SectorFailingNow(a + [x] + b) || OtherFailingNow(a + [x] + b) <==>
              SectorFailingNow(a + b) || OtherFailingNow(a + b) || IsAttributeFailingNow(x)
  {
    hide IsAttributeFailingNow;
    assert forall y :: y in a + [x] + b <==> y in a + b || y == x;
  }

  /** Reporting one more attribute never makes a disk look healthier. */
  lemma MoreAttributesNeverLowerSeverity(o: Output, a: seq<Attribute>, x: Attribute, b: seq<Attribute>)
    requires o.ata == Some(a + b) && (forall y :: y in a + b ==> y.id != x.id)
    requires x.raw >= 0
    requires OrZero(LastRaw(a + [x] + b, 5)) + OrZero(LastRaw(a + [x] + b, 197)) < TWO_63
    requires OrZero(LastRaw(a + b, 5)) + OrZero(LastRaw(a + b, 197)) >= -TWO_63
    ensures Severity(Assess(Some(o)).status) <= Severity(Assess(Some(o.(ata := Some(a + [x] + b)))).status)
  {
    LastRawInsert(a, x, b, 5);
    LastRawInsert(a, x, b, 197);
    SeverityGrows(o, a + b, a + [x] + b);
  }

  /** Every reading is at least as bad; the threshold is the same. */
  predicate NvmeWorse(n: Nvme, m: Nvme) {
    && n.criticalWarning <= m.criticalWarning && n.percentageUsed <= m.percentageUsed && n.mediaErrors <= m.mediaErrors
    && n.availableSpareThreshold == m.availableSpareThreshold && n.availableSpare >= m.availableSpare
  }

  /** Worse NVMe readings never make a disk look healthier. */
  lemma NvmeWorseNeverLowersSeverity(o: Output, n: Nvme, m: Nvme)
    requires o.ata.None? && o.nvme == Some(n) && NvmeWorse(n, m)
    ensures Severity(Assess(Some(o)).status) <= Severity(Assess(Some(o.(nvme := Some(m)))).status)
  {
  }

  /** More uncorrected errors never make a SCSI disk look healthier, as long as the sums fit. */
  lemma ScsiWorseNeverLowersSeverity(o: Output, l: ScsiLog, k: ScsiLog)
    requires o.ata.None? && o.nvme.None? && o.scsi == Some(l)
    requires OrZero(l.read) <= OrZero(k.read) && OrZero(l.write) <= OrZero(k.write)
    requires -TWO_63 <= OrZero(l.read) + OrZero(l.write) && OrZero(k.read) + OrZero(k.write) < TWO_63
    ensures Severity(Assess(Some(o)).status) <= Severity(Assess(Some(o.(scsi := Some(k)))).status)
  {
  }

  // ----- The verdicts in plain words

  /** ATA, and every device that is neither NVMe nor SCSI: each verdict holds exactly if its own
      condition does and no more severe one. */
  lemma AtaVerdicts(o: Output)
    requires o.ata.Some? || (o.nvme.None? && o.scsi.None? && o.protocol != "NVMe" && o.protocol != "SCSI")
    ensures var r, t := Assess(Some(o)), if o.ata.Some? then o.ata.value else [];
            var failed := !o.passed || (o.exitStatus / 8) % 2 == 1;
            var sectorNow := exists a :: a in t && IsAttributeFailingNow(a) && (a.id == 5 || a.id == 197);
            var otherNow := exists a :: a in t && IsAttributeFailingNow(a) && a.id != 5 && a.id != 197;
            var now := otherNow || (o.exitStatus / 16) % 2 == 1;
            var sectors := Wrap(OrZero(LastRaw(t, 5)) + OrZero(LastRaw(t, 197)));
            var onlyPast := exists a :: a in t && !IsAttributeFailingNow(a) && IsAttributeFailedInPast(a);
            var past := onlyPast || (o.exitStatus / 32) % 2 == 1;
            && (r.status == SelfAssessmentFailed <==> failed)
            && (r.status == ExcessiveSectorErrors <==> !failed && sectorNow)
            && (r.status == AttributeFailingNow <==> !failed && !sectorNow && now)
            && (r.status == SectorErrors <==> !failed && !sectorNow && !now && sectors > 0)
            && (r.status == AttributeFailedInPast <==> !failed && !sectorNow && !now && sectors <= 0 && past)
            && (r.status == Good <==> !failed && !sectorNow && !now && sectors <= 0 && !past)
  {
    hide LastRaw, IsAttributeFailingNow, IsAttributeFailedInPast, TableFindings, LevelFinding;
    AddWraps(OrZero(LastRaw(Table(o), 5)), OrZero(LastRaw(Table(o), 197)));
  }

  /** The findings on the same path: a failed self-assessment is the only one; otherwise there is one
      kind for attributes that are failing, one for those that only were, and the two sector verdicts
      add their sum in front. */
  lemma AtaFindingsMeaning(o: Output, f: Finding)
    requires o.ata.Some? || (o.nvme.None? && o.scsi.None? && o.protocol != "NVMe" && o.protocol != "SCSI")
    ensures var r, t := Assess(Some(o)), if o.ata.Some? then o.ata.value else [];
            var sectors := Wrap(OrZero(LastRaw(t, 5)) + OrZero(LastRaw(t, 197)));
            if r.status == SelfAssessmentFailed then r.findings == [Finding(AtaSelfAssessment, "SmartStatus", 0)]
            else
              && (r.status == ExcessiveSectorErrors ==>
                    r.findings != [] && r.findings[0] == Finding(ExcessiveSectors, "ReallocatedAndPendingSectors", sectors))
              && (r.status == SectorErrors ==>
                    r.findings != [] && r.findings[0] == Finding(Sectors, "ReallocatedAndPendingSectors", sectors))
              && (f in r.findings <==>
                    || (r.status == ExcessiveSectorErrors && f == Finding(ExcessiveSectors, "ReallocatedAndPendingSectors", sectors))
                    || (r.status == SectorErrors && f == Finding(Sectors, "ReallocatedAndPendingSectors", sectors))
                    || (exists a :: a in t && IsAttributeFailingNow(a) && f == Finding(FailingNow(a.id), a.name, a.raw))
                    || (exists a :: a in t && !IsAttributeFailingNow(a) && IsAttributeFailedInPast(a)
                                    && f == Finding(FailedPast(a.id), a.name, a.raw)))
  {
    hide LastRaw, IsAttributeFailingNow, IsAttributeFailedInPast, SectorFailingNow, OtherFailingNow, OnlyFailedInPast, TableFindings;
    AddWraps(OrZero(LastRaw(Table(o), 5)), OrZero(LastRaw(Table(o), 197)));
    TableFindingsMeaning(Table(o), f);
  }

  lemma {:induction false} TableFindingsMeaning(t: seq<Attribute>, f: Finding)
    ensures f in TableFindings(t) <==>
              || (exists a :: a in t && IsAttributeFailingNow(a) && f == Finding(FailingNow(a.id), a.name, a.raw))
              || (exists a :: a in t && !IsAttributeFailingNow(a) && IsAttributeFailedInPast(a)
                              && f == Finding(FailedPast(a.id), a.name, a.raw))
    decreases |t|
  {
    hide IsAttributeFailingNow, IsAttributeFailedInPast;
    if t != [] {
      var rest, x := t[..|t| - 1], t[|t| - 1];
      assert t == rest + [x];
      assert forall a :: a in t <==> a in rest || a == x;
      TableFindingsMeaning(rest, f);
    }
  }

  /** NVMe: each verdict with its exact condition, and the one reading it is founded on. */
  lemma NvmeVerdicts(o: Output, n: Nvme)
    requires o.ata.None? && o.nvme == Some(n)
    ensures var r := Assess(Some(o));
            var failed := !o.passed || (o.exitStatus / 8) % 2 == 1 || n.criticalWarning > 0;
            var spareLow := n.availableSpareThreshold > 0 && n.availableSpare < n.availableSpareThreshold;
            && (r.status == SelfAssessmentFailed <==> failed)
            && (r.status == AttributeFailingNow <==> !failed && (spareLow || n.percentageUsed >= 100))
            && (r.status == SectorErrors <==> !failed && !spareLow && n.percentageUsed < 100 && n.mediaErrors > 0)
            && (r.status == Good <==> !failed && !spareLow && n.percentageUsed < 100 && n.mediaErrors <= 0)
            && r.findings == match r.status
                             case SelfAssessmentFailed => [Finding(NvmeCriticalWarning, "CriticalWarning", n.criticalWarning)]
                             case SectorErrors => [Finding(NvmeMediaErrors, "MediaErrors", n.mediaErrors)]
                             case AttributeFailingNow =>
                               if spareLow then [Finding(NvmeSpareBelowThreshold, "AvailableSpare", n.availableSpare)]
                               else [Finding(NvmeEnduranceExhausted, "PercentageUsed", n.percentageUsed)]
                             case _ => []
  {
  }

  /** SCSI: the sum of the uncorrected errors decides between SectorErrors and Good. */
  lemma ScsiVerdicts(o: Output)
    requires o.ata.None? && o.nvme.None? && (o.scsi.Some? || o.protocol == "SCSI")
    ensures var r := Assess(Some(o));
            var failed := !o.passed || (o.exitStatus / 8) % 2 == 1;
            var read := if o.scsi.Some? && o.scsi.value.read.Some? then o.scsi.value.read.value else 0;
            var write := if o.scsi.Some? && o.scsi.value.write.Some? then o.scsi.value.write.value else 0;
            && (r.status == SelfAssessmentFailed <==> failed)
            && (r.status == SectorErrors <==> !failed && Wrap(read + write) > 0)
            && (r.status == Good <==> !failed && Wrap(read + write) <= 0)
            && r.findings == match r.status
                             case SelfAssessmentFailed => [Finding(ScsiSelfAssessment, "SmartStatus", 0)]
                             case SectorErrors => [Finding(ScsiUncorrectedErrors, "TotalUncorrectedErrors", Wrap(read + write))]
                             case _ => []
  {
    if o.scsi.Some? {
      AddWraps(OrZero(o.scsi.value.read), OrZero(o.scsi.value.write));
    }
  }

  /** An NVMe device whose health log cannot be read: its self-assessment decides alone. */
  lemma FallbackVerdicts(o: Output)
    requires o.ata.None? && o.nvme.None? && o.scsi.None? && o.protocol == "NVMe"
    ensures var failed := !o.passed || (o.exitStatus / 8) % 2 == 1;
            Assess(Some(o)) == if failed then Result(SelfAssessmentFailed, [Finding(DeviceSelfAssessment, "SmartStatus", 0)])
                               else Result(Good, [])
  {
  }

  /** A failed self-assessment outranks everything else, in every protocol. */
  lemma SelfTestDecides(o: Output)
    requires !o.passed || (o.exitStatus / 8) % 2 == 1
    ensures Assess(Some(o)).status == SelfAssessmentFailed && |Assess(Some(o)).findings| == 1
  {
  }

  // ----- Order of the table

  predicate AtMostOne(t: seq<Attribute>, id: int) {
    forall i, j :: 0 <= i < j < |t| && t[i].id == id ==> t[j].id != id
  }

  lemma {:induction false} FindingsConcat(t: seq<Attribute>, u: seq<Attribute>)
    ensures TableFindings(t + u) == TableFindings(t) + TableFindings(u)
    decreases |u|
  {
    if u == [] {
      assert t + u == t;
    } else {
      assert (t + u)[..|t + u| - 1] == t + u[..|u| - 1];
      FindingsConcat(t, u[..|u| - 1]);
    }
  }

  lemma FindingsInsert(a: seq<Attribute>, x: Attribute, b: seq<Attribute>)
    ensures multiset(TableFindings(a + [x] + b)) == multiset(TableFindings(a + b)) + multiset(FindingOf(x))
  {
    FindingsConcat(a + [x], b);
    FindingsConcat(a, b);
    TableStep(a, x);
  }

  lemma {:induction false} FindingsPermuted(t: seq<Attribute>, u: seq<Attribute>)
    requires multiset(t) == multiset(u)
    ensures multiset(TableFindings(t)) == multiset(TableFindings(u))
    decreases |t|
  {
    if t == [] {
      assert |multiset(u)| == 0;
    } else {
      var rest, x := t[..|t| - 1], t[|t| - 1];
      assert t == rest + [x] + [];
      assert rest + [] == rest;
      assert x in multiset(u);
      var i :| 0 <= i < |u| && u[i] == x;
      var a, b := u[..i], u[i + 1..];
      assert u == a + [x] + b;
      RemoveOne(rest, [], a, b, x);
      FindingsPermuted(rest, a + b);
      FindingsInsert(rest, x, []);
      FindingsInsert(a, x, b);
    }
  }

  lemma Inserted(a: seq<Attribute>, b: seq<Attribute>, x: Attribute)
    ensures multiset(a + b) == multiset(a + [x] + b) - multiset{x}
  {
    assert multiset(a + [x] + b) == multiset(a) + multiset{x} + multiset(b);
    assert multiset(a + b) == multiset(a) + multiset(b);
  }

  lemma RemoveOne(a: seq<Attribute>, b: seq<Attribute>, c: seq<Attribute>, d: seq<Attribute>, x: Attribute)
    requires multiset(a + [x] + b) == multiset(c + [x] + d)
    ensures multiset(a + b) == multiset(c + d)
  {
    Inserted(a, b, x);
    Inserted(c, d, x);
  }

  lemma LastRawPermuted(t: seq<Attribute>, u: seq<Attribute>, id: int)
    requires multiset(t) == multiset(u) && AtMostOne(t, id)
    ensures LastRaw(t, id) == LastRaw(u, id)
  {
    assert forall a :: a in t <==> a in multiset(t);
    assert forall a :: a in u <==> a in multiset(u);
    if LastRaw(t, id).Some? {
      var a :| a in t && a.id == id && a.raw == LastRaw(t, id).value;
      var b :| b in u && b.id == id && b.raw == LastRaw(u, id).value;
      var i :| 0 <= i < |t| && t[i] == a;
      var j :| 0 <= j < |t| && t[j] == b;
    }
  }

  lemma SameEntriesSameFlags(t: seq<Attribute>, u: seq<Attribute>)
    requires multiset(t) == multiset(u)
    ensures SectorFailingNow(t) == SectorFailingNow(u) && OtherFailingNow(t) == OtherFailingNow(u)
    ensures OnlyFailedInPast(t) == OnlyFailedInPast(u)
  {
    forall a ensures a in t <==> a in u {
      assert a in t <==> a in multiset(t);
      assert a in u <==> a in multiset(u);
    }
  }

  /** What a permutation of the table can change at all is the sum of the latest entries with IDs 5
      and 197; it matters unless a level above decides without it, or neither sum is positive. */
  predicate OrderDoesNotMatter(o: Output, t: seq<Attribute>, u: seq<Attribute>) {
    || SelfTestFailed(o)
    || BadSectors(t) == BadSectors(u)
    || (!SectorFailingNow(t)
        && (OtherFailingNow(t) || HasExitBit(o, EXIT_PREFAIL_BELOW) || (BadSectors(t) <= 0 && BadSectors(u) <= 0)))
  }

  lemma AtaVerdict(o: Output)
    requires AtaPath(o)
    ensures Assess(Some(o)) == Result(AtaStatus(o), AtaFindings(o))
  {
    hide AtaStatus, AtaFindings;
  }

  /** Permuting the table keeps the status and the multiset of findings exactly then. */
  lemma TableOrderIrrelevantIff(o: Output, t: seq<Attribute>, u: seq<Attribute>)
    requires o.ata == Some(t) && multiset(t) == multiset(u)
    ensures var r, s := Assess(Some(o)), Assess(Some(o.(ata := Some(u))));
            (r.status == s.status && multiset(r.findings) == multiset(s.findings)) <==> OrderDoesNotMatter(o, t, u)
  {
    hide Assess, SectorFailingNow, OtherFailingNow, OnlyFailedInPast, BadSectors, TableFindings, LevelFinding, HasExitBit;
    var p := o.(ata := Some(u));
    assert Table(o) == t && Table(p) == u;
    AtaVerdict(o);
    AtaVerdict(p);
    SameExitBits(o, p);
    SameEntriesSameFlags(t, u);
    FindingsPermuted(t, u);
    if SelfTestFailed(o) {
      LevelKeeps(SelfAssessmentFailed, BadSectors(t), BadSectors(u));
    } else {
      LevelDecides(AtaStatus(o), BadSectors(t), BadSectors(u), TableFindings(t), TableFindings(u));
      LevelKeeps(AtaStatus(o), BadSectors(t), BadSectors(u));
    }
  }

  lemma SameExitBits(o: Output, p: Output)
    requires o.exitStatus == p.exitStatus
    ensures forall b :: b > 0 ==> HasExitBit(o, b) == HasExitBit(p, b)
  {
  }

  /** The level's own finding shows the sum for the two sector levels only. */
  lemma LevelKeeps(status: Health, x: int64, y: int64)
    ensures LevelFinding(status, x) == LevelFinding(status, y)
       <==> x == y || (status != ExcessiveSectorErrors && status != SectorErrors)
  {
  }

  lemma LevelDecides(status: Health, x: int64, y: int64, f: seq<Finding>, g: seq<Finding>)
    requires multiset(f) == multiset(g)
    ensures multiset(LevelFinding(status, x) + f) == multiset(LevelFinding(status, y) + g)
       <==> LevelFinding(status, x) == LevelFinding(status, y)
  {
    var a, b := LevelFinding(status, x), LevelFinding(status, y);
    assert multiset(a + f) == multiset(a) + multiset(f);
    assert multiset(b + g) == multiset(b) + multiset(g);
    if multiset(a + f) == multiset(b + g) {
      assert multiset(a) == multiset(a + f) - multiset(f);
      assert multiset(b) == multiset(b + g) - multiset(g);
      if |a| == 1 {
        assert a[0] in multiset(a);
        assert a[0] in multiset(b);
      }
    }
  }

  /** With at most one entry each for IDs 5 and 197 the order of the table never matters. */
  lemma TableOrderIrrelevant(o: Output, t: seq<Attribute>, u: seq<Attribute>)
    requires o.ata == Some(t) && multiset(t) == multiset(u) && AtMostOne(t, 5) && AtMostOne(t, 197)
    ensures var r, s := Assess(Some(o)), Assess(Some(o.(ata := Some(u))));
            r.status == s.status && multiset(r.findings) == multiset(s.findings)
  {
    hide Assess, LastRaw;
    LastRawPermuted(t, u, 5);
    LastRawPermuted(t, u, 197);
    TableOrderIrrelevantIff(o, t, u);
  }

  /** With a repeated ID it can: the latest entry wins. */
  lemma TableOrderCanMatter()
    ensures var t, u := [Count(5, 0), Count(5, 7)], [Count(5, 7), Count(5, 0)];
            && multiset(t) == multiset(u)
            && Assess(Some(QUIET.(ata := Some(t)))).status == SectorErrors
            && Assess(Some(QUIET.(ata := Some(u)))).status == Good
  {
    hide IsAttributeFailingNow, IsAttributeFailedInPast, LastRaw, Assess;
    var t, u := [Count(5, 0), Count(5, 7)], [Count(5, 7), Count(5, 0)];
    SameIdCounts(0, 7);
    SameIdCounts(7, 0);
    GoodTable(u);
    CountedTable(t);
  }

  lemma SameIdCounts(x: int64, y: int64)
    ensures var t := [Count(5, x), Count(5, y)];
            && BadSectors(t) == y && !SectorFailingNow(t) && !OtherFailingNow(t) && !OnlyFailedInPast(t)
  {
    hide IsAttributeFailingNow, IsAttributeFailedInPast;
    var t := [Count(5, x), Count(5, y)];
    assert t[..1] == [Count(5, x)];
    NotFailing(Count(5, x));
    NotFailing(Count(5, y));
  }

  lemma CountedTable(t: seq<Attribute>)
    requires !SectorFailingNow(t) && !OtherFailingNow(t) && BadSectors(t) > 0
    ensures Assess(Some(QUIET.(ata := Some(t)))).status == SectorErrors
  {
    hide SectorFailingNow, OtherFailingNow, OnlyFailedInPast, BadSectors;
  }
}
