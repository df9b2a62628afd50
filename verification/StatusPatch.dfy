/**
 * The status as a JSON document, and what patching it with a stale base produces.
 *
 * `client.MergeFrom` carries no optimistic lock: the patch computed from the status that was
 * read is applied to whatever status the server holds by then.
 */
module StatusPatch {
  import opened Wrappers
  import opened DiskInfos
  import opened Assessment
  import opened DiskStatus
  import opened MergePatch
  import T = Telemetry

  /** Member names of the status, of status.info and of status.telemetry. */
  datatype Key =
    | HealthKey | CollectedAtKey | ConditionsKey | InfoKey | TelemetryKey | FindingsKey
    | Path | CanonicalPath | Name | Links | Major | Minor | Bus | Model | Vendor | Serial | SerialShort | Wwn
    | BusPath | FirmwareVersion
    | TemperatureCelsius | PowerOnHours | PowerCycleCount | ReallocatedSectors | PendingSectors
    | PercentageUsed | AvailableSpare | CriticalWarning | MediaErrors

  datatype Value =
    | HealthValue(health: Health)
    | Text(text: string)
    | Texts(texts: seq<string>)
    | Number(number: int)
    | ConditionList(conditions: seq<Condition>)
    | FindingList(findings: seq<Finding>)

  type Doc = Json<Key, Value>

  // ----- Encoding; empty members are omitted

  function OmitEmpty(s: string): Option<Doc> { if s == "" then None else Some(Leaf(Text(s))) }

  function OmitZero(n: int): Option<Doc> { if n == 0 then None else Some(Leaf(Number(n))) }

  function OmitNil(n: Option<int>): Option<Doc> { if n.None? then None else Some(Leaf(Number(n.value))) }

  function InfoAt(i: DiskInfo, k: Key): Option<Doc> {
    match k
    case Path => OmitEmpty(i.path)
    case CanonicalPath => OmitEmpty(i.canonicalPath)
    case Name => OmitEmpty(i.name)
    case Links => if i.links == [] then None else Some(Leaf(Texts(i.links)))
    case Major => OmitZero(i.major)
    case Minor => OmitZero(i.minor)
    case Bus => OmitEmpty(i.bus)
    case Model => OmitEmpty(i.model)
    case Vendor => OmitEmpty(i.vendor)
    case Serial => OmitEmpty(i.serial)
    case SerialShort => OmitEmpty(i.serialShort)
    case Wwn => OmitEmpty(i.wwn)
    case BusPath => OmitEmpty(i.busPath)
    case FirmwareVersion => OmitEmpty(i.firmwareVersion)
    case _ => None
  }

  function TelemetryAt(t: T.Telemetry, k: Key): Option<Doc> {
    match k
    case TemperatureCelsius => OmitNil(t.temperatureCelsius)
    case PowerOnHours => OmitNil(t.powerOnHours)
    case PowerCycleCount => OmitNil(t.powerCycleCount)
    case ReallocatedSectors => OmitNil(t.reallocatedSectors)
    case PendingSectors => OmitNil(t.pendingSectors)
    case PercentageUsed => OmitNil(t.percentageUsed)
    case AvailableSpare => OmitNil(t.availableSpare)
    case CriticalWarning => OmitNil(t.criticalWarning)
    case MediaErrors => OmitNil(t.mediaErrors)
    case _ => None
  }

  ghost function InfoDoc(i: DiskInfo): Doc {
    Obj(map k: Key | InfoAt(i, k).Some? :: InfoAt(i, k).value)
  }

  ghost function TelemetryDoc(t: T.Telemetry): Doc {
    Obj(map k: Key | TelemetryAt(t, k).Some? :: TelemetryAt(t, k).value)
  }

  ghost function StatusAt(s: Status, k: Key): Option<Doc> {
    match k
    case HealthKey => if s.health == Unset then None else Some(Leaf(HealthValue(s.health)))
    case CollectedAtKey => OmitNil(s.collectedAt)
    case ConditionsKey => if s.conditions == [] then None else Some(Leaf(ConditionList(s.conditions)))
    case InfoKey => Some(InfoDoc(s.info))
    case TelemetryKey => if s.telemetry.None? then None else Some(TelemetryDoc(s.telemetry.value))
    case FindingsKey => if s.findings == [] then None else Some(Leaf(FindingList(s.findings)))
    case _ => None
  }

  ghost function StatusDoc(s: Status): Doc {
    Obj(map k: Key | StatusAt(s, k).Some? :: StatusAt(s, k).value)
  }

  // ----- The merged status

  /** What the client did not change stays as the server has it now. */
  function Pick<A(==)>(current: A, base: A, modified: A): A { if base == modified then current else modified }

  function MergedInfo(c: DiskInfo, b: DiskInfo, m: DiskInfo): DiskInfo {
    DiskInfo(
      Pick(c.path, b.path, m.path), Pick(c.canonicalPath, b.canonicalPath, m.canonicalPath),
      Pick(c.name, b.name, m.name), Pick(c.links, b.links, m.links), Pick(c.major, b.major, m.major),
      Pick(c.minor, b.minor, m.minor), Pick(c.bus, b.bus, m.bus), Pick(c.model, b.model, m.model),
      Pick(c.vendor, b.vendor, m.vendor), Pick(c.serial, b.serial, m.serial),
      Pick(c.serialShort, b.serialShort, m.serialShort), Pick(c.wwn, b.wwn, m.wwn),
      Pick(c.busPath, b.busPath, m.busPath), Pick(c.firmwareVersion, b.firmwareVersion, m.firmwareVersion))
  }

  const NO_TELEMETRY := T.Telemetry(None, None, None, None, None, None, None, None, None)

  function MergedFields(c: T.Telemetry, b: T.Telemetry, m: T.Telemetry): T.Telemetry {
    T.Telemetry(
      Pick(c.temperatureCelsius, b.temperatureCelsius, m.temperatureCelsius),
      Pick(c.powerOnHours, b.powerOnHours, m.powerOnHours),
      Pick(c.powerCycleCount, b.powerCycleCount, m.powerCycleCount),
      Pick(c.reallocatedSectors, b.reallocatedSectors, m.reallocatedSectors),
      Pick(c.pendingSectors, b.pendingSectors, m.pendingSectors),
      Pick(c.percentageUsed, b.percentageUsed, m.percentageUsed),
      Pick(c.availableSpare, b.availableSpare, m.availableSpare),
      Pick(c.criticalWarning, b.criticalWarning, m.criticalWarning),
      Pick(c.mediaErrors, b.mediaErrors, m.mediaErrors))
  }

  function OrNothing(t: Option<T.Telemetry>): T.Telemetry { if t.Some? then t.value else NO_TELEMETRY }

  function MergedTelemetry(c: Option<T.Telemetry>, b: Option<T.Telemetry>,
                           m: Option<T.Telemetry>): Option<T.Telemetry> {
    if b == m then c
    else if m.None? then None
    else Some(MergedFields(OrNothing(c), OrNothing(b), m.value))
  }

  function Merged(c: Status, b: Status, m: Status): Status {
    Status(
      Pick(c.health, b.health, m.health), Pick(c.collectedAt, b.collectedAt, m.collectedAt),
      Pick(c.conditions, b.conditions, m.conditions), MergedInfo(c.info, b.info, m.info),
      MergedTelemetry(c.telemetry, b.telemetry, m.telemetry), Pick(c.findings, b.findings, m.findings))
  }

  // ----- Merged is what the server stores

  lemma InfoAtMerged(c: DiskInfo, b: DiskInfo, m: DiskInfo, k: Key)
    ensures InfoAt(MergedInfo(c, b, m), k) == if InfoAt(b, k) == InfoAt(m, k) then InfoAt(c, k) else InfoAt(m, k)
    ensures InfoAt(m, k).Some? ==> InfoAt(m, k).value.Leaf?
    ensures InfoAt(b, k).Some? ==> InfoAt(b, k).value.Leaf?
  {
  }

  lemma InfoMerges(c: DiskInfo, b: DiskInfo, m: DiskInfo)
    ensures Patch(InfoDoc(c), Diff(InfoDoc(b), InfoDoc(m))) == InfoDoc(MergedInfo(c, b, m))
  {
    hide MergedInfo, InfoAt, Diff;
    InfoNullFree(m);
    var r, e := Patch(InfoDoc(c), Diff(InfoDoc(b), InfoDoc(m))), InfoDoc(MergedInfo(c, b, m));
    forall k ensures At(r, k) == At(e, k) {
      InfoAtMerged(c, b, m, k);
      ThreeWay(InfoDoc(c), InfoDoc(b), InfoDoc(m), k);
    }
    SameMembers(r, e);
  }

  lemma InfoNullFree(m: DiskInfo)
    ensures NullFree(InfoDoc(m))
  {
    hide InfoAt;
    forall k ensures InfoAt(m, k).Some? ==> InfoAt(m, k).value.Leaf? {
      InfoAtMerged(m, m, m, k);
    }
  }

  lemma SameInfoDoc(b: DiskInfo, m: DiskInfo)
    requires InfoDoc(b) == InfoDoc(m)
    ensures b == m
  {
    hide InfoAt;
    forall k ensures InfoAt(b, k) == InfoAt(m, k) {
      assert At(InfoDoc(b), k) == InfoAt(b, k) && At(InfoDoc(m), k) == InfoAt(m, k);
    }
    SameInfo(b, m);
  }

  lemma SameInfo(b: DiskInfo, m: DiskInfo)
    requires forall k :: InfoAt(b, k) == InfoAt(m, k)
    ensures b == m
  {
    hide InfoAt;
    SameDevice(b, m);
    SameIdentity(b, m);
    SameSerials(b, m);
  }

  lemma SameDevice(b: DiskInfo, m: DiskInfo)
    requires forall k :: InfoAt(b, k) == InfoAt(m, k)
    ensures b.path == m.path && b.canonicalPath == m.canonicalPath && b.name == m.name && b.links == m.links
    ensures b.major == m.major && b.minor == m.minor && b.bus == m.bus
  {
    assert InfoAt(b, Path) == InfoAt(m, Path) && InfoAt(b, CanonicalPath) == InfoAt(m, CanonicalPath);
    assert InfoAt(b, Name) == InfoAt(m, Name) && InfoAt(b, Links) == InfoAt(m, Links);
    assert InfoAt(b, Major) == InfoAt(m, Major) && InfoAt(b, Minor) == InfoAt(m, Minor);
    assert InfoAt(b, Bus) == InfoAt(m, Bus);
  }

  lemma SameIdentity(b: DiskInfo, m: DiskInfo)
    requires forall k :: InfoAt(b, k) == InfoAt(m, k)
    ensures b.model == m.model && b.vendor == m.vendor && b.busPath == m.busPath && b.firmwareVersion == m.firmwareVersion
  {
    assert InfoAt(b, Model) == InfoAt(m, Model) && InfoAt(b, Vendor) == InfoAt(m, Vendor);
    assert InfoAt(b, BusPath) == InfoAt(m, BusPath) && InfoAt(b, FirmwareVersion) == InfoAt(m, FirmwareVersion);
  }

  lemma SameSerials(b: DiskInfo, m: DiskInfo)
    requires forall k :: InfoAt(b, k) == InfoAt(m, k)
    ensures b.serial == m.serial && b.serialShort == m.serialShort && b.wwn == m.wwn
  {
    assert InfoAt(b, Serial) == InfoAt(m, Serial) && InfoAt(b, SerialShort) == InfoAt(m, SerialShort);
    assert InfoAt(b, Wwn) == InfoAt(m, Wwn);
  }

  lemma TelemetryAtMerged(c: T.Telemetry, b: T.Telemetry, m: T.Telemetry, k: Key)
    ensures TelemetryAt(MergedFields(c, b, m), k)
         == if TelemetryAt(b, k) == TelemetryAt(m, k) then TelemetryAt(c, k) else TelemetryAt(m, k)
    ensures TelemetryAt(m, k).Some? ==> TelemetryAt(m, k).value.Leaf?
    ensures TelemetryAt(b, k).Some? ==> TelemetryAt(b, k).value.Leaf?
  {
  }

  lemma TelemetryNullFree(m: T.Telemetry)
    ensures NullFree(TelemetryDoc(m))
  {
    hide TelemetryAt;
    forall k ensures TelemetryAt(m, k).Some? ==> TelemetryAt(m, k).value.Leaf? {
      TelemetryAtMerged(m, m, m, k);
    }
  }

  lemma TelemetryMerges(c: T.Telemetry, b: T.Telemetry, m: T.Telemetry)
    ensures Patch(TelemetryDoc(c), Diff(TelemetryDoc(b), TelemetryDoc(m))) == TelemetryDoc(MergedFields(c, b, m))
    ensures TelemetryDoc(b) == TelemetryDoc(m) ==> b == m
    ensures NullFree(TelemetryDoc(m))
  {
    hide MergedFields, TelemetryAt, Diff;
    TelemetryNullFree(m);
    var r, e := Patch(TelemetryDoc(c), Diff(TelemetryDoc(b), TelemetryDoc(m))), TelemetryDoc(MergedFields(c, b, m));
    forall k ensures At(r, k) == At(e, k) {
      TelemetryAtMerged(c, b, m, k);
      ThreeWay(TelemetryDoc(c), TelemetryDoc(b), TelemetryDoc(m), k);
    }
    SameMembers(r, e);
    if TelemetryDoc(b) == TelemetryDoc(m) {
      forall k ensures TelemetryAt(b, k) == TelemetryAt(m, k) {
        assert At(TelemetryDoc(b), k) == TelemetryAt(b, k) && At(TelemetryDoc(m), k) == TelemetryAt(m, k);
      }
      SameTelemetry(b, m);
    }
  }

  lemma SameTelemetry(b: T.Telemetry, m: T.Telemetry)
    requires forall k :: TelemetryAt(b, k) == TelemetryAt(m, k)
    ensures b == m
  {
    hide TelemetryAt;
    SameCounters(b, m);
    SameWear(b, m);
  }

  lemma SameCounters(b: T.Telemetry, m: T.Telemetry)
    requires forall k :: TelemetryAt(b, k) == TelemetryAt(m, k)
    ensures b.temperatureCelsius == m.temperatureCelsius && b.powerOnHours == m.powerOnHours
    ensures b.powerCycleCount == m.powerCycleCount && b.reallocatedSectors == m.reallocatedSectors
  {
    assert TelemetryAt(b, TemperatureCelsius) == TelemetryAt(m, TemperatureCelsius);
    assert TelemetryAt(b, PowerOnHours) == TelemetryAt(m, PowerOnHours);
    assert TelemetryAt(b, PowerCycleCount) == TelemetryAt(m, PowerCycleCount);
    assert TelemetryAt(b, ReallocatedSectors) == TelemetryAt(m, ReallocatedSectors);
  }

  lemma SameWear(b: T.Telemetry, m: T.Telemetry)
    requires forall k :: TelemetryAt(b, k) == TelemetryAt(m, k)
    ensures b.pendingSectors == m.pendingSectors && b.percentageUsed == m.percentageUsed
    ensures b.availableSpare == m.availableSpare && b.criticalWarning == m.criticalWarning && b.mediaErrors == m.mediaErrors
  {
    assert TelemetryAt(b, PendingSectors) == TelemetryAt(m, PendingSectors);
    assert TelemetryAt(b, PercentageUsed) == TelemetryAt(m, PercentageUsed);
    assert TelemetryAt(b, AvailableSpare) == TelemetryAt(m, AvailableSpare);
    assert TelemetryAt(b, CriticalWarning) == TelemetryAt(m, CriticalWarning);
    assert TelemetryAt(b, MediaErrors) == TelemetryAt(m, MediaErrors);
  }

  /** A new telemetry object patched onto an existing or missing one. */
  lemma TelemetryAppears(c: Option<T.Telemetry>, m: T.Telemetry)
    ensures Patch(if c.Some? then TelemetryDoc(c.value) else Null, TelemetryDoc(m))
         == TelemetryDoc(MergedFields(OrNothing(c), NO_TELEMETRY, m))
  {
    var target := if c.Some? then TelemetryDoc(c.value) else Null;
    var r, e := Patch(target, TelemetryDoc(m)), TelemetryDoc(MergedFields(OrNothing(c), NO_TELEMETRY, m));
    forall k ensures At(r, k) == At(e, k) {
      TelemetryAtMerged(OrNothing(c), NO_TELEMETRY, m, k);
      PatchAt(target, TelemetryDoc(m), k);
      assert At(TelemetryDoc(m), k) == TelemetryAt(m, k);
      assert At(target, k) == TelemetryAt(OrNothing(c), k);
      assert TelemetryAt(NO_TELEMETRY, k) == None;
    }
    SameMembers(r, e);
  }

  lemma StatusNullFree(m: Status)
    ensures NullFree(StatusDoc(m))
  {
    hide InfoDoc, TelemetryDoc, MergedInfo, MergedFields, Patch, Diff;
    InfoNullFree(m.info);
    var t := OrNothing(m.telemetry);
    TelemetryMerges(t, t, t);
  }

  lemma TelemetryMemberMerges(c: Status, b: Status, m: Status)
    ensures At(Patch(StatusDoc(c), Diff(StatusDoc(b), StatusDoc(m))), TelemetryKey)
         == StatusAt(Merged(c, b, m), TelemetryKey)
  {
    StatusNullFree(m);
    ThreeWay(StatusDoc(c), StatusDoc(b), StatusDoc(m), TelemetryKey);
    if m.telemetry.Some? && b.telemetry.Some? {
      TelemetryMerges(OrNothing(c.telemetry), b.telemetry.value, m.telemetry.value);
      if c.telemetry.None? {
        TelemetryOntoNothing(b.telemetry.value, m.telemetry.value);
      }
    } else if m.telemetry.Some? {
      TelemetryAppears(c.telemetry, m.telemetry.value);
      PatchOntoNothing(Null, TelemetryDoc(m.telemetry.value));
    }
  }

  lemma TelemetryOntoNothing(b: T.Telemetry, m: T.Telemetry)
    ensures Patch(Null, Diff(TelemetryDoc(b), TelemetryDoc(m))) == TelemetryDoc(MergedFields(NO_TELEMETRY, b, m))
  {
    hide MergedFields, Diff;
    TelemetryMerges(NO_TELEMETRY, b, m);
    assert TelemetryDoc(NO_TELEMETRY).fields == map[];
  }

  lemma StatusAtMerged(c: Status, b: Status, m: Status, k: Key)
    requires k != TelemetryKey && k != InfoKey
    ensures StatusAt(Merged(c, b, m), k) == if StatusAt(b, k) == StatusAt(m, k) then StatusAt(c, k) else StatusAt(m, k)
    ensures StatusAt(m, k).Some? ==> StatusAt(m, k).value.Leaf?
  {
  }

  lemma DocAt(s: Status, k: Key)
    ensures At(StatusDoc(s), k) == StatusAt(s, k)
  {
  }

  lemma MemberMerges(c: Status, b: Status, m: Status, k: Key)
    requires k != TelemetryKey && k != InfoKey && NullFree(StatusDoc(m))
    ensures At(Patch(StatusDoc(c), Diff(StatusDoc(b), StatusDoc(m))), k) == StatusAt(Merged(c, b, m), k)
  {
    StatusAtMerged(c, b, m, k);
    DocAt(c, k);
    DocAt(b, k);
    DocAt(m, k);
    ThreeWayLeaf(StatusDoc(c), StatusDoc(b), StatusDoc(m), k);
  }

  lemma InfoIsObject(i: DiskInfo)
    ensures InfoDoc(i).Obj?
  {
  }

  lemma NothingMerged(c: DiskInfo, b: DiskInfo)
    ensures MergedInfo(c, b, b) == c
  {
  }

  lemma InfoMemberMerges(c: Status, b: Status, m: Status)
    requires NullFree(StatusDoc(m))
    ensures At(Patch(StatusDoc(c), Diff(StatusDoc(b), StatusDoc(m))), InfoKey) == StatusAt(Merged(c, b, m), InfoKey)
  {
    hide MergedInfo, InfoDoc, Diff, NullFree;
    ThreeWay(StatusDoc(c), StatusDoc(b), StatusDoc(m), InfoKey);
    InfoMerges(c.info, b.info, m.info);
    assert InfoDoc(b.info).Obj? by { InfoIsObject(b.info); }
    assert InfoDoc(c.info).Obj? by { InfoIsObject(c.info); }
    assert InfoDoc(m.info).Obj? by { InfoIsObject(m.info); }
    if InfoDoc(b.info) == InfoDoc(m.info) {
      SameInfoDoc(b.info, m.info);
      NothingMerged(c.info, m.info);
    }
  }

  /** Applying the client's merge patch to the stored document stores exactly `Merged`. */
  lemma MergedIsPatched(c: Status, b: Status, m: Status)
    ensures Patch(StatusDoc(c), Diff(StatusDoc(b), StatusDoc(m))) == StatusDoc(Merged(c, b, m))
  {
    StatusNullFree(m);
    var r, e := Patch(StatusDoc(c), Diff(StatusDoc(b), StatusDoc(m))), StatusDoc(Merged(c, b, m));
    forall k ensures At(r, k) == At(e, k) {
      assert At(e, k) == StatusAt(Merged(c, b, m), k);
      if k == TelemetryKey {
        TelemetryMemberMerges(c, b, m);
      } else if k == InfoKey {
        InfoMemberMerges(c, b, m);
      } else {
        MemberMerges(c, b, m, k);
      }
    }
    SameMembers(r, e);
  }

  /** Without a concurrent write the patch stores the modified status. */
  lemma MergedOntoBase(b: Status, m: Status)
    ensures Merged(b, b, m) == m
  {
  }

  // ----- The health contract and stale bases

  /** For statuses that each meet the contract, the patched status meets it exactly when the
      patch leaves the conditions alone, or carries the health too, or the health it was
      computed from is still the stored one. */
  lemma MergeKeepsContractIff(c: Status, b: Status, m: Status)
    requires Contract(c) && Contract(b) && Contract(m)
    ensures Contract(Merged(c, b, m)) <==> (b.conditions == m.conditions || b.health != m.health || c.health == b.health)
  {
  }
}
