/** What a pass over the inventory does to the API objects, the gauges and the events. */
module ReconcileSpec {
  import opened Wrappers
  import opened DiskInfos
  import opened DiskStatus
  import opened ExcludeRules
  import Assessment
  import StatusRuns
  import Telemetry
  import Naming
  import M = Metrics

  /** A PhysicalDisk object: owner node, node label, extra smartctl arguments, status. */
  datatype Cr = Cr(nodeName: string, nodeLabel: Option<string>, args: string, status: Status)

  /** What a pass depends on besides the inventory: this node, its label value, the rules, the
      name hash, and what smartctl answers for a path and extra arguments. */
  datatype Env = Env(
    node: string, nodeLabel: string, rules: seq<ExcludeRule>, hash: Naming.ShortHash,
    collect: (string, string) -> Answer)

  type Objects = map<string, Cr>

  datatype World = World(objects: Objects, gauges: M.Gauges, events: seq<Event>)

  function NameOf(env: Env, info: DiskInfo): string { Naming.GenerateCRName(env.node, info, env.hash) }

  // ----- One disk

  function NewCr(env: Env): Cr { Cr(env.node, Some(env.nodeLabel), "", NEW_STATUS) }

  function Existing(env: Env, objects: Objects, name: string): Cr {
    if name in objects then objects[name] else NewCr(env)
  }

  function AnswerFor(env: Env, objects: Objects, info: DiskInfo): Answer {
    env.collect(info.path, Existing(env, objects, NameOf(env, info)).args)
  }

  function StepWrites(env: Env, name: string, info: DiskInfo, a: Answer): M.Writes {
    [(M.Plain(M.CollectionSuccess, env.node, name, info.path), if a.Data? then 1 else 0)]
    + (if a.Data?
       then M.PublishWrites(env.node, name, FreshInfo(info, a), a.output, Assessment.Assess(Some(a.output)).status)
       else [])
  }

  function Labelled(env: Env, cr: Cr): Cr { cr.(nodeLabel := Some(env.nodeLabel)) }

  /** A disk is a discovered description and the time of its collection. */
  type Job = (DiskInfo, nat)

  /** reconcileDisk without API errors. */
  function DiskStep(env: Env, w: World, job: Job): World {
    var (info, now) := job;
    var name := NameOf(env, info);
    var cr := Existing(env, w.objects, name);
    var a := AnswerFor(env, w.objects, info);
    World(
      w.objects[name := Labelled(env, cr).(status := Collected(cr.status, info, a, now))],
      M.SetAll(w.gauges, StepWrites(env, name, info, a)),
      w.events + CollectedEvents(cr.status, info, a))
  }

  function DiskSteps(env: Env, w: World, jobs: seq<Job>): World {
    if jobs == [] then w else DiskStep(env, DiskSteps(env, w, jobs[..|jobs| - 1]), jobs[|jobs| - 1])
  }

  /** The status of a disk's object shows the collection with this object's arguments: its
      description and outcome and, if there was data, health, findings and telemetry. */
  ghost predicate StatusReports(env: Env, objects: Objects, info: DiskInfo) {
    var name := NameOf(env, info);
    && name in objects
    && ReportsAnswer(objects[name].status, info, env.collect(info.path, objects[name].args))
  }

  ghost predicate ReportsAnswer(s: Status, info: DiskInfo, a: Answer) {
    && s.info == info.(firmwareVersion := if a.Data? && a.output.firmwareVersion != "" then a.output.firmwareVersion
                                          else info.firmwareVersion)
    && Tells(s.conditions, a)
    && (a.Data? ==>
          && s.health == Assessment.Assess(Some(a.output)).status
          && s.findings == Assessment.Assess(Some(a.output)).findings
          && s.telemetry == Some(Telemetry.Snapshot(a.output)))
  }

  lemma CollectedReportsAnswer(s: Status, info: DiskInfo, a: Answer, now: nat)
    ensures ReportsAnswer(Collected(s, info, a, now), info, a)
  {
    hide Find, Tells, Assessment.Assess, Telemetry.Snapshot;
    CollectedReports(s, info, a, now);
  }

  /** Disk `i` is the last of the first `n` with its name. */
  ghost predicate LastAmong(env: Env, infos: seq<DiskInfo>, i: nat, n: nat) {
    i < n <= |infos| && forall k :: i < k < n ==> NameOf(env, infos[k]) != NameOf(env, infos[i])
  }

  ghost predicate LastNamed(env: Env, infos: seq<DiskInfo>, i: nat) { LastAmong(env, infos, i, |infos|) }

  // ----- Objects without a discovered disk

  /** The objects a pass lists and does not skip. */
  predicate Mine(env: Env, cr: Cr) { cr.nodeLabel == Some(env.nodeLabel) && cr.nodeName == env.node }

  predicate Excluded(env: Env, cr: Cr) { IsExcluded(env.node, cr.status.info, env.rules) }

  predicate Removed(env: Env, cr: Cr) { Mine(env, cr) && Excluded(env, cr) }

  predicate Absent(env: Env, discovered: set<string>, name: string, cr: Cr) {
    Mine(env, cr) && !Excluded(env, cr) && name !in discovered
  }

  function MarkedCr(cr: Cr): Cr { cr.(status := StatusRuns.Marked(cr.status, InventoryScan)) }

  /** The objects after the names in `done` have been handled. */
  function AbsentObjects(env: Env, objects: Objects, discovered: set<string>, done: set<string>): Objects {
    map n | n in objects && !(n in done && Removed(env, objects[n])) ::
      if n in done && Absent(env, discovered, n, objects[n]) then MarkedCr(objects[n]) else objects[n]
  }

  /** A series after the names in `done` have been handled. */
  function AbsentAt(env: Env, objects: Objects, discovered: set<string>, done: set<string>, g: M.Gauges,
                    s: M.Series): Option<int> {
    if s.vec == M.Version || s.node != env.node || s.disk !in objects || s.disk !in done then M.At(g, s)
    else
      var cr := objects[s.disk];
      if Removed(env, cr) then None
      else if !Absent(env, discovered, s.disk, cr) then M.At(g, s)
      else if M.IsReading(s.vec) then None
      else if s == M.Plain(M.CollectionSuccess, env.node, s.disk, cr.status.info.path) then Some(0)
      else M.At(g, s)
  }

  function MarkEvents(env: Env, objects: Objects, discovered: set<string>, names: seq<string>): seq<Event> {
    if names == [] then []
    else
      var n := names[|names| - 1];
      MarkEvents(env, objects, discovered, names[..|names| - 1])
      + (if n in objects && Absent(env, discovered, n, objects[n])
         then WarningEvents(objects[n].status.conditions, MissingCondition(InventoryScan)) else [])
  }

  function Names(names: seq<string>): set<string> { set i | 0 <= i < |names| :: names[i] }

  /** markAbsentDisks has handled the names in `listing`, in this order. */
  ghost predicate AbsentHandled(env: Env, w: World, discovered: set<string>, listing: seq<string>, w': World) {
    && w'.objects == AbsentObjects(env, w.objects, discovered, Names(listing))
    && (forall s :: M.At(w'.gauges, s) == AbsentAt(env, w.objects, discovered, Names(listing), w.gauges, s))
    && w'.events == w.events + MarkEvents(env, w.objects, discovered, listing)
  }

  /** The listing names every object that carries this node's label, each once. */
  ghost predicate IsListing(env: Env, objects: Objects, listing: seq<string>) {
    && (forall n :: n in Names(listing) <==> n in objects && objects[n].nodeLabel == Some(env.nodeLabel))
    && (forall i, j :: 0 <= i < j < |listing| ==> listing[i] != listing[j])
  }

  // ----- The pass

  function Discovered(env: Env, infos: seq<DiskInfo>): set<string> {
    set i | 0 <= i < |infos| :: NameOf(env, infos[i])
  }

  function Jobs(infos: seq<DiskInfo>, times: nat -> nat): seq<Job> {
    seq(|infos|, i requires 0 <= i < |infos| => (infos[i], times(i)))
  }

  // ----- Single steps of markAbsentDisks

  lemma NamesStep(names: seq<string>, n: string)
    ensures Names(names + [n]) == Names(names) + {n}
  {
    var m := names + [n];
    assert m[|names|] == n;
    assert forall i :: 0 <= i < |names| ==> m[i] == names[i];
    forall x | x in Names(names) + {n} ensures x in Names(m) {
      if x in Names(names) {
        var i :| 0 <= i < |names| && names[i] == x;
        assert m[i] == x;
      }
    }
  }

  lemma MarkEventsStep(env: Env, objects: Objects, discovered: set<string>, names: seq<string>, n: string)
    ensures MarkEvents(env, objects, discovered, names + [n])
         == MarkEvents(env, objects, discovered, names)
            + (if n in objects && Absent(env, discovered, n, objects[n])
               then WarningEvents(objects[n].status.conditions, MissingCondition(InventoryScan)) else [])
  {
    assert (names + [n])[..|names + [n]| - 1] == names;
  }

  lemma ObjectsStep(env: Env, objects: Objects, discovered: set<string>, done: set<string>, n: string)
    requires n in objects && n !in done
    ensures var before, after := AbsentObjects(env, objects, discovered, done), AbsentObjects(env, objects, discovered, done + {n});
            && n in before && before[n] == objects[n]
            && after == if Removed(env, objects[n]) then before - {n}
                        else if Absent(env, discovered, n, objects[n]) then before[n := MarkedCr(objects[n])]
                        else before
  {
    hide Removed, Absent, MarkedCr, AbsentObjects;
    var before, after := AbsentObjects(env, objects, discovered, done), AbsentObjects(env, objects, discovered, done + {n});
    var expected := if Removed(env, objects[n]) then before - {n}
                    else if Absent(env, discovered, n, objects[n]) then before[n := MarkedCr(objects[n])]
                    else before;
    ObjectAt(env, objects, discovered, done, n);
    forall m ensures Lookup(after, m) == Lookup(expected, m) {
      ObjectAt(env, objects, discovered, done, m);
      ObjectAt(env, objects, discovered, done + {n}, m);
    }
    SameLookups(after, expected);
  }

  function Lookup(objects: Objects, n: string): Option<Cr> { if n in objects then Some(objects[n]) else None }

  lemma ObjectAt(env: Env, objects: Objects, discovered: set<string>, done: set<string>, m: string)
    ensures Lookup(AbsentObjects(env, objects, discovered, done), m)
         == if m !in objects then None
            else if m in done && Removed(env, objects[m]) then None
            else if m in done && Absent(env, discovered, m, objects[m]) then Some(MarkedCr(objects[m]))
            else Some(objects[m])
  {
    hide Removed, Absent, MarkedCr;
  }

  lemma SameLookups(a: Objects, b: Objects)
    requires forall m :: Lookup(a, m) == Lookup(b, m)
    ensures a == b
  {
    forall m ensures m in a <==> m in b {
      assert Lookup(a, m) == Lookup(b, m);
    }
    forall m | m in a ensures a[m] == b[m] {
      assert Lookup(a, m) == Lookup(b, m);
    }
  }

  lemma SameObjects(a: Objects, b: Objects)
    requires forall m :: m in a <==> m in b
    requires forall m :: m in a ==> a[m] == b[m]
    ensures a == b
  {
  }

  /** What handling one name does to one series: deleted, marked as missing, or left alone. */
  lemma RemovedSeries(env: Env, objects: Objects, discovered: set<string>, done: set<string>, g: M.Gauges, u: M.Gauges,
                      n: string, s: M.Series)
    requires n in objects && n !in done && Removed(env, objects[n])
    requires M.At(u, s) == AbsentAt(env, objects, discovered, done, g, s)
    ensures M.At(M.Without(u, M.READINGS + {M.CollectionSuccess}, env.node, n), s)
         == AbsentAt(env, objects, discovered, done + {n}, g, s)
  {
    hide Removed, Absent, M.Without, M.At, M.IsReading;
    AllDropped(env, u, n, s);
    if s.disk != n || s.node != env.node || s.vec == M.Version {
      OtherSeries(env, objects, discovered, done, g, n, s);
    }
  }

  lemma MissingSeries(env: Env, objects: Objects, discovered: set<string>, done: set<string>, g: M.Gauges, u: M.Gauges,
                      n: string, s: M.Series)
    requires n in objects && n !in done && Absent(env, discovered, n, objects[n])
    requires M.At(u, s) == AbsentAt(env, objects, discovered, done, g, s)
    ensures M.At(MissingGauges(env, u, n, objects[n].status.info.path), s)
         == AbsentAt(env, objects, discovered, done + {n}, g, s)
  {
    hide Removed, Absent, MissingGauges, M.At;
    ReadingsDropped(env, u, n, objects[n].status.info.path, s);
    AbsentNotRemoved(env, discovered, n, objects[n]);
    if s.disk != n || s.node != env.node || s.vec == M.Version {
      OtherSeries(env, objects, discovered, done, g, n, s);
    }
  }

  lemma KeptSeries(env: Env, objects: Objects, discovered: set<string>, done: set<string>, g: M.Gauges, u: M.Gauges,
                   n: string, s: M.Series)
    requires n in objects && n !in done && !Removed(env, objects[n]) && !Absent(env, discovered, n, objects[n])
    requires M.At(u, s) == AbsentAt(env, objects, discovered, done, g, s)
    ensures M.At(u, s) == AbsentAt(env, objects, discovered, done + {n}, g, s)
  {
    hide Removed, Absent, M.At, M.IsReading;
    if s.disk != n {
      OtherSeries(env, objects, discovered, done, g, n, s);
    }
  }

  lemma OtherSeries(env: Env, objects: Objects, discovered: set<string>, done: set<string>, g: M.Gauges, n: string, s: M.Series)
    requires s.disk != n || s.node != env.node || s.vec == M.Version
    ensures AbsentAt(env, objects, discovered, done + {n}, g, s) == AbsentAt(env, objects, discovered, done, g, s)
  {
    hide Removed, Absent, M.At, M.IsReading;
  }

  lemma AbsentNotRemoved(env: Env, discovered: set<string>, n: string, cr: Cr)
    requires Absent(env, discovered, n, cr)
    ensures !Removed(env, cr)
  {
  }

  lemma AllDropped(env: Env, u: M.Gauges, n: string, s: M.Series)
    ensures M.At(M.Without(u, M.READINGS + {M.CollectionSuccess}, env.node, n), s)
         == if s.vec != M.Version && s.node == env.node && s.disk == n then None else M.At(u, s)
  {
    M.ReadingsAre(s.vec);
  }

  lemma ReadingsDropped(env: Env, u: M.Gauges, n: string, path: string, s: M.Series)
    ensures M.At(MissingGauges(env, u, n, path), s)
         == if s == M.Plain(M.CollectionSuccess, env.node, n, path) then Some(0)
            else if M.IsReading(s.vec) && s.node == env.node && s.disk == n then None
            else M.At(u, s)
  {
    M.ReadingsAre(s.vec);
  }

  /** The gauges after a disk was marked missing: no readings, and a failed collection. */
  function MissingGauges(env: Env, g: M.Gauges, name: string, path: string): M.Gauges {
    M.Without(g, M.READINGS, env.node, name)[M.Plain(M.CollectionSuccess, env.node, name, path) := 0]
  }

  lemma SkipStep(env: Env, w: World, discovered: set<string>, names: seq<string>, u: World, n: string)
    requires AbsentHandled(env, w, discovered, names, u) && n in w.objects && n !in Names(names)
    requires !Removed(env, w.objects[n]) && !Absent(env, discovered, n, w.objects[n])
    ensures AbsentHandled(env, w, discovered, names + [n], u)
  {
    NamesStep(names, n);
    MarkEventsStep(env, w.objects, discovered, names, n);
    ObjectsStep(env, w.objects, discovered, Names(names), n);
    var e := MarkEvents(env, w.objects, discovered, names);
    assert e + [] == e;
    forall s ensures M.At(u.gauges, s) == AbsentAt(env, w.objects, discovered, Names(names) + {n}, w.gauges, s) {
      KeptSeries(env, w.objects, discovered, Names(names), w.gauges, u.gauges, n, s);
    }
  }

  lemma RemoveStep(env: Env, w: World, discovered: set<string>, names: seq<string>, u: World, n: string)
    requires AbsentHandled(env, w, discovered, names, u) && n in w.objects && n !in Names(names)
    requires Removed(env, w.objects[n])
    ensures AbsentHandled(env, w, discovered, names + [n],
              World(u.objects - {n}, M.Without(u.gauges, M.READINGS + {M.CollectionSuccess}, env.node, n), u.events))
  {
    NamesStep(names, n);
    MarkEventsStep(env, w.objects, discovered, names, n);
    ObjectsStep(env, w.objects, discovered, Names(names), n);
    var e := MarkEvents(env, w.objects, discovered, names);
    assert e + [] == e;
    var g := M.Without(u.gauges, M.READINGS + {M.CollectionSuccess}, env.node, n);
    forall s ensures M.At(g, s) == AbsentAt(env, w.objects, discovered, Names(names) + {n}, w.gauges, s) {
      RemovedSeries(env, w.objects, discovered, Names(names), w.gauges, u.gauges, n, s);
    }
  }

  lemma MissingStep(env: Env, w: World, discovered: set<string>, names: seq<string>, u: World, n: string)
    requires AbsentHandled(env, w, discovered, names, u) && n in w.objects && n !in Names(names)
    requires Absent(env, discovered, n, w.objects[n])
    ensures n in u.objects && u.objects[n] == w.objects[n]
    ensures AbsentHandled(env, w, discovered, names + [n],
              World(u.objects[n := MarkedCr(w.objects[n])],
                    MissingGauges(env, u.gauges, n, w.objects[n].status.info.path),
                    u.events + WarningEvents(w.objects[n].status.conditions, MissingCondition(InventoryScan))))
  {
    NamesStep(names, n);
    MarkEventsStep(env, w.objects, discovered, names, n);
    ObjectsStep(env, w.objects, discovered, Names(names), n);
    var g := MissingGauges(env, u.gauges, n, w.objects[n].status.info.path);
    forall s ensures M.At(g, s) == AbsentAt(env, w.objects, discovered, Names(names) + {n}, w.gauges, s) {
      MissingSeries(env, w.objects, discovered, Names(names), w.gauges, u.gauges, n, s);
    }
    StatusRuns.Associative(w.events, MarkEvents(env, w.objects, discovered, names),
                           WarningEvents(w.objects[n].status.conditions, MissingCondition(InventoryScan)));
  }

  // ----- One listed object after the other

  /** What a pass does to one listed object without API errors. */
  function Handle(env: Env, discovered: set<string>, w: World, n: string): World {
    if n !in w.objects then w
    else
      var cr := w.objects[n];
      if Removed(env, cr) then
        World(w.objects - {n}, M.Without(w.gauges, M.READINGS + {M.CollectionSuccess}, env.node, n), w.events)
      else if Absent(env, discovered, n, cr) then
        World(w.objects[n := MarkedCr(cr)], MissingGauges(env, w.gauges, n, cr.status.info.path),
              w.events + WarningEvents(cr.status.conditions, MissingCondition(InventoryScan)))
      else w
  }

  /** markAbsentDisks without API errors, for the listed names in their order. */
  function AfterAbsent(env: Env, discovered: set<string>, w: World, listing: seq<string>): World {
    if listing == [] then w
    else Handle(env, discovered, AfterAbsent(env, discovered, w, listing[..|listing| - 1]), listing[|listing| - 1])
  }

  /** ReconcileAll without API errors: absent disks first, then every discovered disk. */
  function AfterPass(env: Env, w: World, infos: seq<DiskInfo>, times: nat -> nat, listing: seq<string>): World {
    DiskSteps(env, AfterAbsent(env, Discovered(env, infos), w, listing), Jobs(infos, times))
  }

  lemma AfterAbsentStep(env: Env, discovered: set<string>, w: World, listing: seq<string>, n: string)
    ensures AfterAbsent(env, discovered, w, listing + [n]) == Handle(env, discovered, AfterAbsent(env, discovered, w, listing), n)
  {
    hide Handle;
    assert (listing + [n])[..|listing|] == listing;
  }

  lemma HandleStep(env: Env, w: World, discovered: set<string>, names: seq<string>, u: World, n: string)
    requires AbsentHandled(env, w, discovered, names, u) && n in w.objects && n !in Names(names)
    ensures AbsentHandled(env, w, discovered, names + [n], Handle(env, discovered, u, n))
  {
    hide AbsentHandled, MissingGauges, M.Without, WarningEvents, Naming.GenerateCRName, Excluded;
    HandledObject(env, w, discovered, names, u, n);
    if Removed(env, w.objects[n]) {
      RemoveStep(env, w, discovered, names, u, n);
    } else if Absent(env, discovered, n, w.objects[n]) {
      MissingStep(env, w, discovered, names, u, n);
    } else {
      SkipStep(env, w, discovered, names, u, n);
    }
  }

  lemma HandledObject(env: Env, w: World, discovered: set<string>, names: seq<string>, u: World, n: string)
    requires AbsentHandled(env, w, discovered, names, u) && n in w.objects && n !in Names(names)
    ensures n in u.objects && u.objects[n] == w.objects[n]
  {
  }

  lemma NothingHandled(env: Env, w: World, discovered: set<string>)
    ensures AbsentHandled(env, w, discovered, [], w)
  {
    hide Removed, Absent, MarkedCr, MissingGauges;
    SameObjects(AbsentObjects(env, w.objects, discovered, {}), w.objects);
    assert w.events + [] == w.events;
  }

  /** Handling distinct listed names one by one handles all of them. */
  lemma {:induction false} AbsentAllHandled(env: Env, w: World, discovered: set<string>, listing: seq<string>)
    requires forall i :: 0 <= i < |listing| ==> listing[i] in w.objects
    requires forall i, j :: 0 <= i < j < |listing| ==> listing[i] != listing[j]
    ensures AbsentHandled(env, w, discovered, listing, AfterAbsent(env, discovered, w, listing))
    decreases |listing|
  {
    hide AbsentHandled, Handle;
    if listing == [] {
      NothingHandled(env, w, discovered);
    } else {
      var rest, n := listing[..|listing| - 1], listing[|listing| - 1];
      AbsentAllHandled(env, w, discovered, rest);
      HandleStep(env, w, discovered, rest, AfterAbsent(env, discovered, w, rest), n);
      assert rest + [n] == listing;
    }
  }

  lemma ListingHandled(env: Env, w: World, discovered: set<string>, listing: seq<string>)
    requires IsListing(env, w.objects, listing)
    ensures AbsentHandled(env, w, discovered, listing, AfterAbsent(env, discovered, w, listing))
  {
    hide AbsentHandled, AfterAbsent;
    forall i | 0 <= i < |listing| ensures listing[i] in w.objects {
      assert listing[i] in Names(listing);
    }
    AbsentAllHandled(env, w, discovered, listing);
  }

  /** What a pass may do to one object even if API calls fail: an excluded object of this node is
      deleted or left, an absent one is marked or left, and every other object is left alone. */
  predicate Allowed(env: Env, discovered: set<string>, n: string, before: Option<Cr>, after: Option<Cr>) {
    || after == before
    || (before.Some? && Removed(env, before.value) && after.None?)
    || (before.Some? && Absent(env, discovered, n, before.value) && after == Some(MarkedCr(before.value)))
  }

  predicate MayBecome(env: Env, discovered: set<string>, before: Objects, after: Objects, n: string) {
    Allowed(env, discovered, n, Lookup(before, n), Lookup(after, n))
  }

  /** What reconcileDisk may do to its object even if API calls fail: create it, label it, and store
      the result of the collection. Owner and arguments stay. */
  predicate MayReconcile(env: Env, info: DiskInfo, now: nat, before: Option<Cr>, after: Option<Cr>) {
    var cr := if before.Some? then before.value else NewCr(env);
    || after == before
    || after == Some(cr) || after == Some(Labelled(env, cr))
    || after == Some(cr.(status := CollectedBy(env, info, now, cr)))
    || after == Some(Labelled(env, cr).(status := CollectedBy(env, info, now, cr)))
  }

  function CollectedBy(env: Env, info: DiskInfo, now: nat, cr: Cr): Status {
    Collected(cr.status, info, env.collect(info.path, cr.args), now)
  }

  /** What Reconcile may do to an object without a disk even if API calls fail. */
  predicate MayGo(env: Env, before: Cr, after: Option<Cr>) {
    || after == Some(before)
    || (Excluded(env, before) && after.None?)
    || (!Excluded(env, before) && after == Some(before.(status := StatusRuns.Marked(before.status, Reconcile))))
  }

  // ----- A change of one object's spec

  /** The first discovered disk with this name. */
  function FirstNamed(env: Env, infos: seq<DiskInfo>, name: string): Option<DiskInfo> {
    if infos == [] then None
    else if NameOf(env, infos[0]) == name then Some(infos[0])
    else FirstNamed(env, infos[1..], name)
  }

  /** Disk `i` is the first discovered one with this name. */
  ghost predicate IsFirstNamed(env: Env, infos: seq<DiskInfo>, name: string, i: int) {
    0 <= i < |infos| && NameOf(env, infos[i]) == name && forall j :: 0 <= j < i ==> NameOf(env, infos[j]) != name
  }

  /** A disk is found exactly if one with this name was discovered, and then it is the first. */
  lemma FirstNamedFound(env: Env, infos: seq<DiskInfo>, name: string)
    ensures FirstNamed(env, infos, name).Some? <==> name in Discovered(env, infos)
    ensures FirstNamed(env, infos, name).Some? ==>
              exists i :: IsFirstNamed(env, infos, name, i) && FirstNamed(env, infos, name) == Some(infos[i])
  {
    hide NameOf, FirstNamed, Discovered;
    SomeNamedIff(env, infos, name);
    FirstOfSome(env, infos, name);
    if FirstNamed(env, infos, name).Some? {
      var i :| IsFirstNamed(env, infos, name, i) && FirstNamed(env, infos, name).value == infos[i];
      assert SomeNamed(env, infos, name);
    }
  }

  lemma {:induction false} FirstOfSome(env: Env, infos: seq<DiskInfo>, name: string)
    ensures match FirstNamed(env, infos, name)
            case None => !SomeNamed(env, infos, name)
            case Some(info) => exists i :: 0 <= i < |infos| && IsFirstNamed(env, infos, name, i) && info == infos[i]
    decreases |infos|
  {
    hide NameOf, IsFirstNamed;
    if infos != [] {
      NamedFirst(env, infos, name);
      FirstOfSome(env, infos[1..], name);
      if NameOf(env, infos[0]) != name && FirstNamed(env, infos[1..], name).Some? {
        var i :| 0 <= i < |infos[1..]| && IsFirstNamed(env, infos[1..], name, i)
                 && FirstNamed(env, infos[1..], name).value == infos[1..][i];
        NamedLater(env, infos, name, i);
      }
    }
  }

  lemma NamedFirst(env: Env, infos: seq<DiskInfo>, name: string)
    requires infos != []
    ensures NameOf(env, infos[0]) == name ==> IsFirstNamed(env, infos, name, 0)
    ensures SomeNamed(env, infos, name) <==> NameOf(env, infos[0]) == name || SomeNamed(env, infos[1..], name)
  {
    hide NameOf;
    var rest := infos[1..];
    if SomeNamed(env, rest, name) {
      var i :| 0 <= i < |rest| && NameOf(env, rest[i]) == name;
      assert infos[i + 1] == rest[i];
    }
    if SomeNamed(env, infos, name) && NameOf(env, infos[0]) != name {
      var i :| 0 <= i < |infos| && NameOf(env, infos[i]) == name;
      assert rest[i - 1] == infos[i];
    }
  }

  lemma NamedLater(env: Env, infos: seq<DiskInfo>, name: string, i: int)
    requires infos != [] && NameOf(env, infos[0]) != name && IsFirstNamed(env, infos[1..], name, i)
    ensures IsFirstNamed(env, infos, name, i + 1) && infos[i + 1] == infos[1..][i]
  {
    hide NameOf;
    assert forall j :: 0 < j < |infos| ==> infos[j] == infos[1..][j - 1];
  }

  ghost predicate SomeNamed(env: Env, infos: seq<DiskInfo>, name: string) {
    exists i :: 0 <= i < |infos| && NameOf(env, infos[i]) == name
  }

  lemma SomeNamedIff(env: Env, infos: seq<DiskInfo>, name: string)
    ensures name in Discovered(env, infos) <==> SomeNamed(env, infos, name)
  {
    hide NameOf;
  }

  /** What Reconcile does to an object without a disk: delete it or mark it as missing. */
  function Gone(env: Env, w: World, name: string): World
    requires name in w.objects
  {
    var cr := w.objects[name];
    if Excluded(env, cr) then
      World(w.objects - {name}, M.Without(w.gauges, M.READINGS + {M.CollectionSuccess}, env.node, name), w.events)
    else
      World(w.objects[name := cr.(status := StatusRuns.Marked(cr.status, Reconcile))],
            MissingGauges(env, w.gauges, name, cr.status.info.path),
            w.events + WarningEvents(cr.status.conditions, MissingCondition(Reconcile)))
  }

  /** What Reconcile does without API errors once the inventory is known. */
  function Reconciled(env: Env, w: World, name: string, infos: seq<DiskInfo>, now: nat): World
    requires name in w.objects
  {
    var found := FirstNamed(env, infos, name);
    if found.Some? then DiskStep(env, w, (found.value, now)) else Gone(env, w, name)
  }

  /** What Reconcile may do to its object even if API calls fail. */
  predicate MayBeReconciled(env: Env, name: string, infos: seq<DiskInfo>, now: nat, before: Cr, after: Option<Cr>) {
    match FirstNamed(env, infos, name)
    case Some(info) => MayReconcile(env, info, now, Some(before), after)
    case None => MayGo(env, before, after)
  }
}
