/** The inventory: which block devices of a host are monitored disks. */
module Discovery {
  import opened Wrappers
  import opened Text
  import opened DiskInfos
  import opened ExcludeRules
  import Naming

  type Props = map<string, string>

  function Prop(props: Props, key: string): string { if key in props then props[key] else "" }

  // ----- The built-in filter

  const IGNORED_PREFIXES: seq<string> := ["loop", "ram", "zram", "dm-", "md", "sr", "fd", "nbd", "rbd", "drbd"]

  predicate HasIgnoredPrefix(name: string) {
    exists i :: 0 <= i < |IGNORED_PREFIXES| && IGNORED_PREFIXES[i] <= name
  }

  predicate IsRemote(bus: string, busPath: string, vendor: string, model: string) {
    || EqualFold(bus, "iscsi")
    || Contains(ToLower(busPath), "-iscsi-") || Contains(ToLower(busPath), "io.longhorn")
    || (ToUpper(TrimSpace(vendor)) in ["IET", "LIO-ORG"] && ToUpper(TrimSpace(model)) == "VIRTUAL-DISK")
  }

  predicate ShouldIgnore(name: string, props: Props) {
    || HasIgnoredPrefix(name)
    || IsRemote(Prop(props, "ID_BUS"), Prop(props, "ID_PATH"), Prop(props, "ID_VENDOR"), Prop(props, "ID_MODEL"))
  }

  /** The filter in plain words: virtual, network and removable-media devices by the beginning of
      their kernel name, and remotely attached volumes by four udev properties. */
  lemma IgnoredIff(name: string, props: Props)
    ensures ShouldIgnore(name, props) <==>
              || "loop" <= name || "ram" <= name || "zram" <= name || "dm-" <= name || "md" <= name
              || "sr" <= name || "fd" <= name || "nbd" <= name || "rbd" <= name || "drbd" <= name
              || EqualFold(Prop(props, "ID_BUS"), "iscsi")
              || Contains(ToLower(Prop(props, "ID_PATH")), "-iscsi-")
              || Contains(ToLower(Prop(props, "ID_PATH")), "io.longhorn")
              || (ToUpper(TrimSpace(Prop(props, "ID_VENDOR"))) in {"IET", "LIO-ORG"}
                  && ToUpper(TrimSpace(Prop(props, "ID_MODEL"))) == "VIRTUAL-DISK")
  {
    hide TrimSpace, ToUpper, ToLower, EqualFold, Contains;
    PrefixIgnored(name);
  }

  lemma PrefixIgnored(name: string)
    ensures HasIgnoredPrefix(name) <==>
              || "loop" <= name || "ram" <= name || "zram" <= name || "dm-" <= name || "md" <= name
              || "sr" <= name || "fd" <= name || "nbd" <= name || "rbd" <= name || "drbd" <= name
  {
    var ps := IGNORED_PREFIXES;
    assert ps[0] == "loop" && ps[1] == "ram" && ps[2] == "zram" && ps[3] == "dm-" && ps[4] == "md";
    assert ps[5] == "sr" && ps[6] == "fd" && ps[7] == "nbd" && ps[8] == "rbd" && ps[9] == "drbd";
  }

  /** What is remote is remote in any case of its letters. */
  lemma RemoteInAnyCase(bus: string, busPath: string, vendor: string, model: string, bus': string, busPath': string)
    requires SameButCase(bus, bus') && SameButCase(busPath, busPath')
    ensures IsRemote(bus, busPath, vendor, model) <==> IsRemote(bus', busPath', vendor, model)
    ensures SameButCase("iscsi", bus) ==> IsRemote(bus, busPath, vendor, model)
  {
    hide TrimSpace, ToUpper, ToLower, Contains;
    CaseIgnored(busPath, busPath');
    CaseIgnored(bus, bus');
  }

  // ----- Records of the udev database

  datatype Record = Record(properties: Props, symlinks: seq<string>)

  function AddLine(r: Record, text: string): Record {
    var line := TrimSpace(text);
    if "S:" <= line then r.(symlinks := r.symlinks + [line[2..]])
    else if "E:" <= line then
      var (k, v, found) := Cut(line[2..], '=');
      if found && k != "" then r.(properties := r.properties[k := v]) else r
    else r
  }

  function AddLines(r: Record, lines: seq<string>): Record
    decreases |lines|
  {
    if lines == [] then r else AddLines(AddLine(r, lines[0]), lines[1..])
  }

  const NO_RECORD := Record(map[], [])

  /** Fills the map and the list line by line; other tags and malformed lines are skipped. */
  method ParseUdevData(lines: seq<string>) returns (r: Record)
    ensures r == AddLines(NO_RECORD, lines)
  {
    var properties: Props := map[];
    var symlinks: seq<string> := [];
    for i := 0 to |lines|
      invariant AddLines(NO_RECORD, lines) == AddLines(Record(properties, symlinks), lines[i..])
    {
      assert lines[i..][0] == lines[i] && lines[i..][1..] == lines[i + 1..];
      var line := TrimSpace(lines[i]);
      if "S:" <= line {
        symlinks := symlinks + [line[2..]];
      } else if "E:" <= line {
        var (k, v, ok) := Cut(line[2..], '=');
        if ok && k != "" {
          properties := properties[k := v];
        }
      }
    }
    return Record(properties, symlinks);
  }

  // ----- The scan of /sys/block

  /** A directory entry: its "dev" numbers if readable, and whether it has a "partition" file. */
  datatype Entry = Entry(name: string, devNum: Option<(int, int)>, partition: bool)

  /** `entries` is None if the directory cannot be listed. `udev` holds the readable records. */
  datatype Host = Host(entries: Option<seq<Entry>>, udev: map<(int, int), seq<string>>)

  datatype DiscoverError = CannotList | UdevUnavailable

  predicate IsWhole(e: Entry) { e.devNum.Some? && !e.partition }

  predicate IsRecorded(h: Host, e: Entry) { IsWhole(e) && e.devNum.value in h.udev }

  function RecordOf(h: Host, e: Entry): Record
    requires IsRecorded(h, e)
  {
    AddLines(NO_RECORD, h.udev[e.devNum.value])
  }

  function DevName(name: string): string {
    seq(|name|, i requires 0 <= i < |name| => if name[i] == '!' then '/' else name[i])
  }

  function InfoOf(e: Entry, r: Record): DiskInfo
    requires e.devNum.Some?
  {
    var devName := DevName(e.name);
    var p := r.properties;
    DiskInfo(
      Naming.ResolvePredictablePath(devName, r.symlinks), "/dev/" + devName, e.name, r.symlinks,
      e.devNum.value.0, e.devNum.value.1, Prop(p, "ID_BUS"), Prop(p, "ID_MODEL"), Prop(p, "ID_VENDOR"),
      Prop(p, "ID_SERIAL"), Prop(p, "ID_SERIAL_SHORT"), Prop(p, "ID_WWN"), Prop(p, "ID_PATH"), Prop(p, "ID_REVISION"))
  }

  /** The entries that are monitored: whole, recorded, not ignored and not excluded. */
  predicate IsMonitored(h: Host, node: string, rules: seq<ExcludeRule>, e: Entry) {
    && IsRecorded(h, e)
    && !ShouldIgnore(e.name, RecordOf(h, e).properties)
    && !IsExcluded(node, InfoOf(e, RecordOf(h, e)), rules)
  }

  /** Their descriptions, in directory order. */
  function Monitored(h: Host, node: string, rules: seq<ExcludeRule>, es: seq<Entry>): seq<DiskInfo> {
    if es == [] then []
    else
      Monitored(h, node, rules, es[..|es| - 1])
      + (var e := es[|es| - 1]; if IsMonitored(h, node, rules, e) then [InfoOf(e, RecordOf(h, e))] else [])
  }

  /** No entry of a host with whole disks has a udev record. */
  predicate UdevMissing(h: Host, es: seq<Entry>) {
    (exists e :: e in es && IsWhole(e)) && (forall e :: e in es ==> !IsRecorded(h, e))
  }

  function Discover(h: Host, node: string, rules: seq<ExcludeRule>): Result<seq<DiskInfo>, DiscoverError> {
    if h.entries.None? then Err(CannotList)
    else if UdevMissing(h, h.entries.value) then Err(UdevUnavailable)
    else Ok(Monitored(h, node, rules, h.entries.value))
  }

  /** The loop with its two counters. */
  method DiscoverDisks(h: Host, node: string, rules: seq<ExcludeRule>) returns (r: Result<seq<DiskInfo>, DiscoverError>)
    ensures r == Discover(h, node, rules)
    ensures h.entries.Some? ==>
              (r.Err? <==>
                && (exists e :: e in h.entries.value && IsWhole(e))
                && (forall e :: e in h.entries.value && IsWhole(e) ==> e.devNum.value !in h.udev))
  {
    hide ShouldIgnore, IsExcluded, InfoOf, AddLines, Naming.ResolvePredictablePath, SomeWhole, SomeRecorded, Monitored;
    if h.entries.Some? {
      FailsIff(h, node, rules);
    }
    if h.entries.None? {
      return Err(CannotList);
    }
    var es := h.entries.value;
    var disks: seq<DiskInfo> := [];
    var whole, recorded := 0, 0;
    NoEntries(h, node, rules);
    UdevMissingIff(h, es);
    for i := 0 to |es|
      invariant disks == Monitored(h, node, rules, es[..i])
      invariant 0 <= recorded <= whole
      invariant whole > 0 <==> SomeWhole(es[..i])
      invariant recorded > 0 <==> SomeRecorded(h, es[..i])
    {
      var e := es[i];
      assert es[..i + 1] == es[..i] + [e];
      MonitoredStep(h, node, rules, es[..i], e);
      if e.devNum.None? || e.partition {
        continue;
      }
      whole := whole + 1;
      if e.devNum.value !in h.udev {
        continue;
      }
      recorded := recorded + 1;
      var record := ParseUdevData(h.udev[e.devNum.value]);
      if ShouldIgnore(e.name, record.properties) {
        continue;
      }
      var disk := InfoOf(e, record);
      if !IsExcluded(node, disk, rules) {
        disks := disks + [disk];
      }
    }
    assert es[..|es|] == es;
    if whole > 0 && recorded == 0 {
      return Err(UdevUnavailable);
    }
    return Ok(disks);
  }

  ghost predicate SomeWhole(es: seq<Entry>) { exists e :: e in es && IsWhole(e) }

  ghost predicate SomeRecorded(h: Host, es: seq<Entry>) { exists e :: e in es && IsRecorded(h, e) }

  lemma NoEntries(h: Host, node: string, rules: seq<ExcludeRule>)
    ensures Monitored(h, node, rules, []) == [] && !SomeWhole([]) && !SomeRecorded(h, [])
  {
  }

  lemma UdevMissingIff(h: Host, es: seq<Entry>)
    ensures UdevMissing(h, es) <==> SomeWhole(es) && !SomeRecorded(h, es)
  {
  }

  lemma MonitoredStep(h: Host, node: string, rules: seq<ExcludeRule>, es: seq<Entry>, e: Entry)
    ensures Monitored(h, node, rules, es + [e])
         == Monitored(h, node, rules, es)
            + (if IsMonitored(h, node, rules, e) then [InfoOf(e, RecordOf(h, e))] else [])
    ensures SomeWhole(es + [e]) <==> SomeWhole(es) || IsWhole(e)
    ensures SomeRecorded(h, es + [e]) <==> SomeRecorded(h, es) || IsRecorded(h, e)
  {
    var u := es + [e];
    assert u[..|u| - 1] == es;
    assert forall d :: d in u <==> d in es || d == e;
  }

  /** Discovery reports an unavailable udev database exactly when there are whole disks and none
      of them has a record; an inventory without any disk is not an error. */
  lemma FailsIff(h: Host, node: string, rules: seq<ExcludeRule>)
    requires h.entries.Some?
    ensures Discover(h, node, rules).Err? <==>
            && (exists e :: e in h.entries.value && IsWhole(e))
            && (forall e :: e in h.entries.value && IsWhole(e) ==> e.devNum.value !in h.udev)
  {
    if Discover(h, node, rules).Err? {
      forall e | e in h.entries.value && IsWhole(e) ensures e.devNum.value !in h.udev {
        assert !IsRecorded(h, e);
      }
    }
  }

  /** A disk is reported if and only if some entry is monitored and described that way. */
  lemma {:induction false} MonitoredMeaning(h: Host, node: string, rules: seq<ExcludeRule>, es: seq<Entry>, d: DiskInfo)
    ensures d in Monitored(h, node, rules, es) <==>
            exists e :: e in es && IsMonitored(h, node, rules, e) && d == InfoOf(e, RecordOf(h, e))
  {
    if es != [] {
      var rest, x := es[..|es| - 1], es[|es| - 1];
      assert es == rest + [x];
      MonitoredMeaning(h, node, rules, rest, d);
      MonitoredStep(h, node, rules, rest, x);
      assert forall e :: e in es <==> e in rest || e == x;
    }
  }

  /** No reported disk is excluded by a rule. */
  lemma MonitoredNotExcluded(h: Host, node: string, rules: seq<ExcludeRule>, d: DiskInfo)
    requires Discover(h, node, rules).Ok? && d in Discover(h, node, rules).value
    ensures !IsExcluded(node, d, rules)
  {
    MonitoredMeaning(h, node, rules, h.entries.value, d);
  }

  /** In plain words, for the whole inventory: no reported disk is a virtual device or a partition. */
  lemma NoVirtualDiskReported(h: Host, node: string, rules: seq<ExcludeRule>, d: DiskInfo)
    requires Discover(h, node, rules).Ok? && d in Discover(h, node, rules).value
    ensures forall p :: p in ["loop", "ram", "zram", "dm-", "md", "sr", "fd", "nbd", "rbd", "drbd"] ==> !(p <= d.name)
    ensures !EqualFold(d.bus, "iscsi")
    ensures !Contains(ToLower(d.busPath), "-iscsi-") && !Contains(ToLower(d.busPath), "io.longhorn")
    ensures ToUpper(TrimSpace(d.vendor)) in {"IET", "LIO-ORG"} ==> ToUpper(TrimSpace(d.model)) != "VIRTUAL-DISK"
    ensures exists e :: e in h.entries.value && e.name == d.name && e.devNum == Some((d.major, d.minor)) && !e.partition
  {
    hide TrimSpace, ToUpper, ToLower, EqualFold, Contains, AddLines, ShouldIgnore, Naming.ResolvePredictablePath;
    MonitoredMeaning(h, node, rules, h.entries.value, d);
    var e :| e in h.entries.value && IsMonitored(h, node, rules, e) && d == InfoOf(e, RecordOf(h, e));
    IgnoredIff(e.name, RecordOf(h, e).properties);
    assert e.name == d.name && e.devNum == Some((d.major, d.minor)) && !e.partition;
  }

  /** And nothing else is missing: a whole disk with a record is reported, unless its kernel name or
      its udev properties mark it as virtual or remote, or a rule excludes it. */
  lemma LocalDiskReported(h: Host, node: string, rules: seq<ExcludeRule>, e: Entry)
    requires h.entries.Some? && e in h.entries.value
    requires e.devNum.Some? && !e.partition && e.devNum.value in h.udev
    requires var p := AddLines(NO_RECORD, h.udev[e.devNum.value]).properties;
             && (forall q :: q in ["loop", "ram", "zram", "dm-", "md", "sr", "fd", "nbd", "rbd", "drbd"] ==> !(q <= e.name))
             && !EqualFold(Prop(p, "ID_BUS"), "iscsi")
             && !Contains(ToLower(Prop(p, "ID_PATH")), "-iscsi-") && !Contains(ToLower(Prop(p, "ID_PATH")), "io.longhorn")
             && (ToUpper(TrimSpace(Prop(p, "ID_VENDOR"))) in {"IET", "LIO-ORG"} ==>
                   ToUpper(TrimSpace(Prop(p, "ID_MODEL"))) != "VIRTUAL-DISK")
    ensures Discover(h, node, rules).Ok?
    ensures var d := InfoOf(e, AddLines(NO_RECORD, h.udev[e.devNum.value]));
            d in Discover(h, node, rules).value <==> !IsExcluded(node, d, rules)
  {
    hide TrimSpace, ToUpper, ToLower, EqualFold, Contains, AddLines, ShouldIgnore, InfoOf, IsExcluded;
    var d := InfoOf(e, RecordOf(h, e));
    MonitoredMeaning(h, node, rules, h.entries.value, d);
    IgnoredIff(e.name, RecordOf(h, e).properties);
    NotIgnoredNames(e.name);
    if d in Monitored(h, node, rules, h.entries.value) {
      MonitoredNotExcluded(h, node, rules, d);
    }
  }

  lemma NotIgnoredNames(name: string)
    requires forall q :: q in ["loop", "ram", "zram", "dm-", "md", "sr", "fd", "nbd", "rbd", "drbd"] ==> !(q <= name)
    ensures !("loop" <= name || "ram" <= name || "zram" <= name || "dm-" <= name || "md" <= name
              || "sr" <= name || "fd" <= name || "nbd" <= name || "rbd" <= name || "drbd" <= name)
  {
    PrefixIgnored(name);
    forall i | 0 <= i < |IGNORED_PREFIXES| ensures !(IGNORED_PREFIXES[i] <= name) {
      assert IGNORED_PREFIXES[i] in IGNORED_PREFIXES;
    }
  }

  /** The description of a disk, field by field: numbers and kernel name from sysfs, where "!" stands
      for "/", and every other field from the udev property of that name. */
  lemma DescribedAs(e: Entry, r: Record, i: nat)
    requires e.devNum.Some?
    ensures var d, p := InfoOf(e, r), r.properties;
            && d.name == e.name && e.devNum == Some((d.major, d.minor)) && d.links == r.symlinks
            && d.bus == Prop(p, "ID_BUS") && d.model == Prop(p, "ID_MODEL") && d.vendor == Prop(p, "ID_VENDOR")
            && d.serial == Prop(p, "ID_SERIAL") && d.serialShort == Prop(p, "ID_SERIAL_SHORT") && d.wwn == Prop(p, "ID_WWN")
            && d.busPath == Prop(p, "ID_PATH") && d.firmwareVersion == Prop(p, "ID_REVISION")
            && |d.canonicalPath| == 5 + |e.name| && "/dev/" <= d.canonicalPath
            && (i < |e.name| ==> d.canonicalPath[5 + i] == if e.name[i] == '!' then '/' else e.name[i])
            && d.path == Naming.ResolvePredictablePath(d.canonicalPath[5..], r.symlinks)
  {
    hide Naming.ResolvePredictablePath;
    assert ("/dev/" + DevName(e.name))[5..] == DevName(e.name);
  }

  // ----- Writing a record and reading it back

  datatype Item = Link(path: string) | Property(key: string, value: string)

  function LineOf(i: Item): string {
    match i
    case Link(p) => "S:" + p
    case Property(k, v) => "E:" + k + "=" + v
  }

  function LinesOf(items: seq<Item>): seq<string> {
    if items == [] then [] else [LineOf(items[0])] + LinesOf(items[1..])
  }

  function Store(r: Record, items: seq<Item>): Record
    decreases |items|
  {
    if items == [] then r
    else
      match items[0]
      case Link(p) => Store(r.(symlinks := r.symlinks + [p]), items[1..])
      case Property(k, v) => Store(r.(properties := r.properties[k := v]), items[1..])
  }

  /** Keys are not empty and have no equals sign, and no line ends in a blank. */
  predicate Storable(i: Item) {
    match i
    case Link(p) => p != "" && !IsSpace(p[|p| - 1])
    case Property(k, v) => k != "" && '=' !in k && (v != "" ==> !IsSpace(v[|v| - 1]))
  }

  /** Other tags and malformed properties leave the record as it is. */
  lemma OtherLinesSkipped(r: Record, text: string)
    requires var line := TrimSpace(text);
             !("S:" <= line) && ("E:" <= line ==> '=' !in line || "E:=" <= line)
    ensures AddLine(r, text) == r
  {
    hide TrimSpace;
    var line := TrimSpace(text);
    if "E:" <= line {
      var rest := line[2..];
      if '=' !in line {
        assert IndexOf(rest, '=') == |rest|;
      } else {
        assert rest[0] == '=';
      }
    }
  }

  lemma LineReads(r: Record, i: Item)
    requires Storable(i)
    ensures AddLine(r, LineOf(i)) == Store(r, [i])
  {
    var line := LineOf(i);
    TrimNothing(line, IsSpace);
    match i
    case Link(p) =>
      assert line[2..] == p;
      assert [i][1..] == [];
    case Property(k, v) =>
      assert line[2..] == k + ['='] + v;
      CutAt(k, '=', v);
      assert [i][1..] == [];
  }

  /** Reading the lines written for a record's links and properties gives the record back:
      links in order, and for a repeated key the last value. */
  lemma {:induction false} RecordRoundTrip(r: Record, items: seq<Item>)
    requires forall i :: i in items ==> Storable(i)
    ensures AddLines(r, LinesOf(items)) == Store(r, items)
    decreases |items|
  {
    if items != [] {
      LineReads(r, items[0]);
      var q := AddLine(r, LineOf(items[0]));
      assert LinesOf(items)[1..] == LinesOf(items[1..]);
      assert [items[0]][1..] == [];
      RecordRoundTrip(q, items[1..]);
    }
  }
}
