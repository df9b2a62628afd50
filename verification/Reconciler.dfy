/** The reconciler: what one call does when every API call may fail. */
module Reconciler {
  import opened Wrappers
  import opened DiskInfos
  import opened DiskStatus
  import opened ReconcileSpec
  import opened Api
  import opened ReconcileTheorems
  import Assessment
  import Discovery
  import ExcludeRules
  import Naming
  import StatusPatch
  import StatusRuns
  import Telemetry
  import M = Metrics
  import Smart

  /** Every stored status meets the health contract. */
  predicate AllContracts(objects: Objects) { forall n :: n in objects ==> Contract(objects[n].status) }

  /** The objects differ at most in this name. */
  ghost predicate OnlyAt(before: Objects, after: Objects, name: string) {
    forall n :: n != name ==> (n in before <==> n in after) && (n in before ==> before[n] == after[n])
  }

  lemma NewContract()
    ensures Contract(NEW_STATUS)
  {
  }

  lemma StepContracts(env: Env, before: Objects, after: Objects, name: string, info: DiskInfo, a: Answer, now: nat)
    requires AllContracts(before) && OnlyAt(before, after, name)
    requires name in after ==>
               || after[name].status == Existing(env, before, name).status
               || after[name].status == Collected(Existing(env, before, name).status, info, a, now)
    ensures AllContracts(after)
  {
    hide Contract, Collected;
    var was := Existing(env, before, name).status;
    assert Contract(was) by {
      hide Collected, OnlyAt;
      NewContract();
    }
    CollectedKeepsContract(was, info, a, now);
    forall n | n in after ensures Contract(after[n].status) {
      if n != name {
        assert before[n] == after[n];
      }
    }
  }

  /** With or without its label: the object is among what may become of it, and so it is with the
      collected status. */
  lemma GotMay(env: Env, info: DiskInfo, now: nat, before: Objects, middle: Objects)
    requires var name := NameOf(env, info);
             var cr := Existing(env, before, name);
             && (name in before ==> name in middle)
             && (name in middle ==> middle[name] == cr || middle[name] == Labelled(env, cr))
    ensures var name := NameOf(env, info);
            && MayReconcile(env, info, now, Lookup(before, name), Lookup(middle, name))
            && (name in middle ==>
                  MayReconcile(env, info, now, Lookup(before, name),
                               Some(middle[name].(status := CollectedBy(env, info, now, Existing(env, before, name))))))
  {
    hide NameOf, CollectedBy;
  }

  function Storing(objects: Objects, name: string, status: Status): Objects
    requires name in objects
  {
    objects[name := objects[name].(status := status)]
  }

  /** The whole effect of a collection on the object's status, the gauges and the events. */
  ghost predicate DiskCollected(env: Env, w: World, w': World, info: DiskInfo, now: nat, ok: bool) {
    var name := NameOf(env, info);
    var cr, a := Existing(env, w.objects, name), AnswerFor(env, w.objects, info);
    && name in w'.objects
    && w'.objects[name].status == (if ok then CollectedBy(env, info, now, cr) else cr.status)
    && w'.gauges == M.SetAll(w.gauges, StepWrites(env, name, info, a))
    && w'.events == w.events + CollectedEvents(cr.status, info, a)
  }

  /** Does the device's health gauge show the health that is stored? */
  ghost predicate HealthShown(env: Env, w: World, info: DiskInfo) {
    NameOf(env, info) in w.objects
    && M.IsHot(w.gauges, env.node, NameOf(env, info), info.path, w.objects[NameOf(env, info)].status.health)
  }

  /** The exact condition for that after a collection: a success is published before it is stored;
      a failure leaves the health gauges as they are. */
  ghost predicate AgreesIfStored(env: Env, w: World, w': World, info: DiskInfo, ok: bool) {
    var name := NameOf(env, info);
    match AnswerFor(env, w.objects, info)
    case Data(o) =>
      HealthShown(env, w', info) <==>
        ok || Existing(env, w.objects, name).status.health == Assessment.Assess(Some(o)).status
    case Error(_) => forall h :: M.IsHot(w'.gauges, env.node, name, info.path, h) <==> M.IsHot(w.gauges, env.node, name, info.path, h)
  }

  /** Fetched as `made`, collected, and stored if that worked. */
  ghost predicate DiskHandled(env: Env, w: World, u: World, w': World, info: DiskInfo, now: nat, ok: bool) {
    var name := NameOf(env, info);
    var cr, a := Existing(env, w.objects, name), AnswerFor(env, w.objects, info);
    && (u.objects == w.objects[name := cr] || u.objects == w.objects[name := Labelled(env, cr)])
    && w'.objects == (if ok then Storing(u.objects, name, CollectedBy(env, info, now, cr)) else u.objects)
    && w'.gauges == M.SetAll(w.gauges, StepWrites(env, name, info, a))
    && w'.events == w.events + CollectedEvents(cr.status, info, a)
  }

  lemma DiskDone(env: Env, w: World, u: World, w': World, info: DiskInfo, now: nat, ok: bool)
    requires DiskHandled(env, w, u, w', info, now, ok)
    ensures DiskCollected(env, w, w', info, now, ok)
  {
    hide NameOf, StepWrites, CollectedBy, CollectedEvents, M.SetAll, Existing, Storing, Labelled, OnlyAt;
    var name := NameOf(env, info);
    var cr := Existing(env, w.objects, name);
    FetchedOnly(w.objects, name, cr);
    FetchedOnly(w.objects, name, Labelled(env, cr));
    LabelOnly(env, cr);
    StoredOnly(w.objects, u.objects, name, CollectedBy(env, info, now, cr));
  }

  lemma DiskStored(env: Env, w: World, u: World, w': World, info: DiskInfo, now: nat, ok: bool)
    requires DiskHandled(env, w, u, w', info, now, ok)
    ensures ok && u.objects == w.objects[NameOf(env, info) := Labelled(env, Existing(env, w.objects, NameOf(env, info)))] ==>
              w' == DiskStep(env, w, (info, now))
  {
    hide NameOf, StepWrites, Collected, CollectedEvents, M.SetAll, Existing, Storing, Labelled;
    var name := NameOf(env, info);
    var cr := Existing(env, w.objects, name);
    StoredPut(w.objects, name, Labelled(env, cr), CollectedBy(env, info, now, cr));
  }

  lemma DiskKept(env: Env, w: World, u: World, w': World, info: DiskInfo, now: nat, ok: bool)
    requires DiskHandled(env, w, u, w', info, now, ok)
    ensures OnlyAt(w.objects, w'.objects, NameOf(env, info))
    ensures AllContracts(w.objects) ==> AllContracts(w'.objects)
    ensures MayReconcile(env, info, now, Lookup(w.objects, NameOf(env, info)), Lookup(w'.objects, NameOf(env, info)))
    ensures ok ==> StatusReports(env, w'.objects, info)
  {
    hide OnlyAt, AllContracts, MayReconcile, StatusReports, DiskHandled;
    KeptOnly(env, w, u, w', info, now, ok);
    KeptContracts(env, w, u, w', info, now, ok);
    KeptReports(env, w, u, w', info, now, ok);
  }

  lemma KeptOnly(env: Env, w: World, u: World, w': World, info: DiskInfo, now: nat, ok: bool)
    requires DiskHandled(env, w, u, w', info, now, ok)
    ensures OnlyAt(w.objects, w'.objects, NameOf(env, info))
    ensures MayReconcile(env, info, now, Lookup(w.objects, NameOf(env, info)), Lookup(w'.objects, NameOf(env, info)))
  {
    hide NameOf, StepWrites, CollectedBy, CollectedEvents, M.SetAll, OnlyAt, MayReconcile, Existing, Labelled, Storing;
    var name := NameOf(env, info);
    var cr := Existing(env, w.objects, name);
    FetchedOnly(w.objects, name, cr);
    FetchedOnly(w.objects, name, Labelled(env, cr));
    GotMay(env, info, now, w.objects, u.objects);
    StoredOnly(w.objects, u.objects, name, CollectedBy(env, info, now, cr));
  }

  lemma FetchedOnly(objects: Objects, name: string, cr: Cr)
    ensures var put := objects[name := cr]; name in put && put[name] == cr && OnlyAt(objects, put, name)
  {
  }

  lemma StoredOnly(before: Objects, now: Objects, name: string, status: Status)
    requires name in now && OnlyAt(before, now, name)
    ensures OnlyAt(before, Storing(now, name, status), name)
    ensures Lookup(Storing(now, name, status), name) == Some(now[name].(status := status))
  {
  }

  lemma KeptContracts(env: Env, w: World, u: World, w': World, info: DiskInfo, now: nat, ok: bool)
    requires DiskHandled(env, w, u, w', info, now, ok)
    ensures AllContracts(w.objects) ==> AllContracts(w'.objects)
  {
    hide NameOf, StepWrites, Collected, CollectedEvents, M.SetAll, OnlyAt, AllContracts, MayReconcile, Existing;
    KeptOnly(env, w, u, w', info, now, ok);
    if AllContracts(w.objects) {
      StepContracts(env, w.objects, w'.objects, NameOf(env, info), info, AnswerFor(env, w.objects, info), now);
    }
  }

  lemma KeptReports(env: Env, w: World, u: World, w': World, info: DiskInfo, now: nat, ok: bool)
    requires DiskHandled(env, w, u, w', info, now, ok)
    ensures ok ==> StatusReports(env, w'.objects, info)
  {
    hide NameOf, StepWrites, Collected, CollectedEvents, M.SetAll, StatusReports, ReportsAnswer, Existing, Labelled;
    var name := NameOf(env, info);
    if ok {
      CollectedReportsAnswer(Existing(env, w.objects, name).status, info, AnswerFor(env, w.objects, info), now);
      LabelOnly(env, Existing(env, w.objects, name));
      ReportsPut(env, u.objects, info, w'.objects[name]);
    }
  }

  lemma NothingDone(env: Env, w: World, info: DiskInfo, now: nat)
    ensures OnlyAt(w.objects, w.objects, NameOf(env, info))
    ensures MayReconcile(env, info, now, Lookup(w.objects, NameOf(env, info)), Lookup(w.objects, NameOf(env, info)))
  {
    hide NameOf, CollectedBy, Existing;
  }

  lemma OneHealth(g: M.Gauges, node: string, disk: string, device: string, h: Assessment.Health, k: Assessment.Health)
    requires h in M.ALL_STATUSES && M.IsHot(g, node, disk, device, h)
    ensures M.IsHot(g, node, disk, device, k) <==> k == h
  {
    assert M.At(g, M.StatusSeries(node, disk, device, h)) == Some(1);
  }

  lemma CollectedHealth(s: Status, info: DiskInfo, o: Smart.Output, now: nat)
    ensures Collected(s, info, Data(o), now).health == Assessment.Assess(Some(o)).status
  {
    hide Assessment.Assess, Telemetry.Snapshot;
  }

  lemma HealthAgrees(env: Env, w: World, w': World, info: DiskInfo, now: nat, ok: bool)
    requires DiskCollected(env, w, w', info, now, ok) && M.HealthGaugesSound(w.gauges)
    ensures AgreesIfStored(env, w, w', info, ok)
  {
    hide Naming.GenerateCRName, NameOf, StepWrites, CollectedEvents, M.SetAll, M.HealthGaugesSound, M.IsHot, Assessment.Assess,
         M.PublishWrites, Collected, FreshInfo;
    var name, a := NameOf(env, info), AnswerFor(env, w.objects, info);
    match a {
      case Data(o) =>
        var h := Assessment.Assess(Some(o)).status;
        SuccessGauges(env, w.gauges, name, info, o);
        Assessment.NeverUnknown(o);
        M.EveryStatus(h);
        OneHealth(w'.gauges, env.node, name, info.path, h, w'.objects[name].status.health);
        CollectedHealth(Existing(env, w.objects, name).status, info, o, now);
      case Error(e) => FailureHealth(env, w.gauges, name, info, e);
    }
  }

  /** A failed collection leaves the health gauges as they are. */
  lemma FailureHealth(env: Env, g: M.Gauges, name: string, info: DiskInfo, e: CollectError)
    ensures var g' := M.SetAll(g, StepWrites(env, name, info, Error(e)));
            forall h :: M.IsHot(g', env.node, name, info.path, h) <==> M.IsHot(g, env.node, name, info.path, h)
  {
    FailureGauges(env, g, name, info, e);
    var g' := M.SetAll(g, StepWrites(env, name, info, Error(e)));
    assert forall k :: M.At(g', M.StatusSeries(env.node, name, info.path, k)) == M.At(g, M.StatusSeries(env.node, name, info.path, k));
  }

  lemma StoredPut(objects: Objects, name: string, cr: Cr, status: Status)
    ensures Storing(objects[name := cr], name, status) == objects[name := cr.(status := status)]
  {
    assert objects[name := cr][name := cr.(status := status)] == objects[name := cr.(status := status)];
  }

  lemma PutTwice(objects: Objects, name: string, first: Cr, second: Cr)
    ensures objects[name := first][name := second] == objects[name := second]
  {
  }

  lemma LabelOnly(env: Env, cr: Cr)
    ensures Labelled(env, cr).status == cr.status && Labelled(env, cr).args == cr.args
  {
  }

  function MissingWarning(what: Occasion): Event { Event(true, DiskMissing, ConditionText(NotFoundDuring(what))) }

  function Repeated(e: Event, k: nat): seq<Event> { seq(k, _ => e) }

  lemma NoneRepeated(events: seq<Event>, e: Event)
    ensures events + Repeated(e, 0) == events
  {
  }

  lemma RepeatedOnce(events: seq<Event>, e: Event, k: nat)
    ensures events + Repeated(e, k) + [e] == events + Repeated(e, k + 1)
  {
  }

  function Marking(objects: Objects, name: string, what: Occasion): Objects
    requires name in objects
  {
    objects[name := objects[name].(status := StatusRuns.Marked(objects[name].status, what))]
  }

  lemma MissingSound(env: Env, g: M.Gauges, name: string, path: string)
    requires M.HealthGaugesSound(g)
    ensures M.HealthGaugesSound(MissingGauges(env, g, name, path))
  {
    M.WithoutSound(g, M.READINGS, env.node, name);
    M.SetSound(M.Without(g, M.READINGS, env.node, name), M.Plain(M.CollectionSuccess, env.node, name, path), 0);
  }

  lemma LeftAlone(env: Env, discovered: set<string>, objects: Objects, n: string)
    ensures MayBecome(env, discovered, objects, objects, n) && OnlyAt(objects, objects, n)
  {
  }

  lemma DeletedMay(env: Env, discovered: set<string>, objects: Objects, n: string)
    requires n in objects && Removed(env, objects[n])
    ensures MayBecome(env, discovered, objects, objects - {n}, n) && OnlyAt(objects, objects - {n}, n)
  {
  }

  lemma MarkedMay(env: Env, discovered: set<string>, objects: Objects, n: string)
    requires n in objects && Absent(env, discovered, n, objects[n])
    ensures var after := Marking(objects, n, InventoryScan);
            after == objects[n := MarkedCr(objects[n])] && MayBecome(env, discovered, objects, after, n) && OnlyAt(objects, after, n)
  {
  }

  lemma DiscoveredStep(env: Env, infos: seq<DiskInfo>, i: nat)
    requires i < |infos|
    ensures Discovered(env, infos[..i + 1]) == Discovered(env, infos[..i]) + {NameOf(env, infos[i])}
  {
    hide Naming.GenerateCRName, NameOf;
    var a, b := infos[..i], infos[..i + 1];
    forall n | n in Discovered(env, b) ensures n in Discovered(env, a) || n == NameOf(env, infos[i]) {
      var j :| 0 <= j < |b| && n == NameOf(env, b[j]);
      assert j < i ==> b[j] == a[j];
    }
    forall n | n in Discovered(env, a) ensures n in Discovered(env, b) {
      var j :| 0 <= j < |a| && n == NameOf(env, a[j]);
      assert b[j] == a[j];
    }
    assert b[i] == infos[i];
  }

  lemma AllLeftAlone(env: Env, discovered: set<string>, objects: Objects)
    ensures forall n :: MayBecome(env, discovered, objects, objects, n)
  {
  }

  /** The first `i` listed objects have been handled, the others are still as listed. */
  ghost predicate Progress(env: Env, discovered: set<string>, before: Objects, now: Objects, items: seq<Item>, i: nat) {
    && Lists(before, env.nodeLabel, items)
    && (forall n :: MayBecome(env, discovered, before, now, n))
    && (forall j :: i <= j < |items| ==> IsListed(now, env.nodeLabel, items[j]))
  }

  lemma ProgressStart(env: Env, discovered: set<string>, before: Objects, items: seq<Item>)
    requires Lists(before, env.nodeLabel, items)
    ensures Progress(env, discovered, before, before, items, 0)
  {
    AllLeftAlone(env, discovered, before);
  }

  /** The names of the first `i` listed objects. */
  predicate NamesOf(items: seq<Item>, i: nat, listing: seq<string>) {
    |listing| == i <= |items| && forall j :: 0 <= j < i ==> listing[j] == items[j].name
  }

  lemma NoNames(items: seq<Item>)
    ensures NamesOf(items, 0, [])
  {
  }

  lemma NextName(items: seq<Item>, i: nat, listing: seq<string>)
    requires i < |items| && NamesOf(items, i, listing)
    ensures NamesOf(items, i + 1, listing + [items[i].name])
  {
  }

  lemma ProgressItem(env: Env, discovered: set<string>, before: Objects, now: Objects, items: seq<Item>, i: nat,
                     listing: seq<string>)
    requires Progress(env, discovered, before, now, items, i) && i < |items|
    requires NamesOf(items, i, listing)
    ensures IsListed(before, env.nodeLabel, items[i]) && IsListed(now, env.nodeLabel, items[i]) && items[i].name !in Names(listing)
  {
    hide MayBecome;
    assert IsListed(before, env.nodeLabel, items[i]);
  }

  /** Handling an object that is still as it was changes that one as it may. */
  lemma MayBecomeNext(env: Env, discovered: set<string>, before: Objects, now: Objects, after: Objects,
                      name: string, n: string)
    requires MayBecome(env, discovered, before, now, n)
    requires OnlyAt(now, after, name) && MayBecome(env, discovered, now, after, name)
    requires name in before && name in now && now[name] == before[name]
    ensures MayBecome(env, discovered, before, after, n)
  {
    hide Allowed;
  }

  lemma ProgressStep(env: Env, discovered: set<string>, before: Objects, now: Objects, after: Objects,
                     items: seq<Item>, i: nat)
    requires Progress(env, discovered, before, now, items, i) && i < |items|
    requires OnlyAt(now, after, items[i].name) && MayBecome(env, discovered, now, after, items[i].name)
    ensures Progress(env, discovered, before, after, items, i + 1)
  {
    hide MayBecome;
    assert IsListed(before, env.nodeLabel, items[i]) && IsListed(now, env.nodeLabel, items[i]);
    forall n ensures MayBecome(env, discovered, before, after, n) {
      MayBecomeNext(env, discovered, before, now, after, items[i].name, n);
    }
    forall j | i + 1 <= j < |items| ensures IsListed(after, env.nodeLabel, items[j]) {
      assert IsListed(now, env.nodeLabel, items[j]) && items[j].name != items[i].name;
    }
  }

  lemma ProgressEnd(env: Env, discovered: set<string>, before: Objects, now: Objects, items: seq<Item>)
    requires Progress(env, discovered, before, now, items, |items|)
    ensures forall n :: MayBecome(env, discovered, before, now, n)
  {
  }

  lemma ListingOf(env: Env, objects: Objects, items: seq<Item>, listing: seq<string>)
    requires Lists(objects, env.nodeLabel, items) && NamesOf(items, |items|, listing)
    ensures IsListing(env, objects, listing)
  {
    forall i, j | 0 <= i < j < |listing| ensures listing[i] != listing[j] {
      assert items[i].name != items[j].name;
    }
    forall n | n in objects && objects[n].nodeLabel == Some(env.nodeLabel) ensures n in Names(listing) {
      assert Item(n, objects[n]) in items;
      var j :| 0 <= j < |items| && items[j] == Item(n, objects[n]);
      assert listing[j] == n;
    }
    forall n | n in Names(listing) ensures n in objects && objects[n].nodeLabel == Some(env.nodeLabel) {
      var j :| 0 <= j < |listing| && listing[j] == n;
      assert IsListed(objects, env.nodeLabel, items[j]);
    }
  }

  lemma MarkedContract(s: Status, what: Occasion)
    requires Contract(s)
    ensures Contract(StatusRuns.Marked(s, what))
  {
    FindUpsert(s.conditions, MissingCondition(what), Degraded);
  }

  lemma HandledContracts(env: Env, discovered: set<string>, before: Objects, after: Objects)
    requires AllContracts(before) && forall n :: MayBecome(env, discovered, before, after, n)
    ensures AllContracts(after)
  {
    hide Contract, Removed, Absent, StatusRuns.Marked;
    forall n | n in after ensures Contract(after[n].status) {
      assert MayBecome(env, discovered, before, after, n);
      MarkedContract(before[n].status, InventoryScan);
    }
  }

  lemma MarkingContracts(objects: Objects, name: string, what: Occasion)
    requires AllContracts(objects) && name in objects
    ensures AllContracts(Marking(objects, name, what))
  {
    MarkedContract(objects[name].status, what);
  }

  /** Objects without a discovered disk are as they may be. */
  ghost predicate OthersKept(env: Env, discovered: set<string>, before: Objects, now: Objects) {
    forall n :: n !in discovered ==> MayBecome(env, discovered, before, now, n)
  }

  lemma MayBecomeKept(env: Env, discovered: set<string>, before: Objects, now: Objects, after: Objects, name: string)
    requires name in discovered && OnlyAt(now, after, name) && OthersKept(env, discovered, before, now)
    ensures OthersKept(env, discovered, before, after)
  {
    hide Allowed;
    forall n | n !in discovered ensures MayBecome(env, discovered, before, after, n) {
      assert MayBecome(env, discovered, before, now, n);
    }
  }

  /** The log grew by calls about this object only. */
  predicate OnlyCalls(before: seq<Target>, after: seq<Target>, name: string) {
    before <= after && forall n :: |before| <= n < |after| ==> after[n] == Named(name)
  }

  /** Every one of the first `done` disks that is the last with its name is reported if nothing has
      failed at all, or if all calls about its name have worked since `start`. */
  ghost predicate AllReported(env: Env, infos: seq<DiskInfo>, done: nat, faults: nat -> Fault, log: seq<Target>, start: nat,
                              ok: bool, objects: Objects) {
    forall i: nat :: LastAmong(env, infos, i, done) && (ok || AllWorkFor(faults, log, start, NameOf(env, infos[i]))) ==>
      StatusReports(env, objects, infos[i])
  }

  /** What a disk's reconciliation makes of the reports of all disks so far. */
  lemma ReportedStep(env: Env, infos: seq<DiskInfo>, done: nat, faults: nat -> Fault, log: seq<Target>, log': seq<Target>,
                     start: nat, ok: bool, reconciled: bool, now: Objects, after: Objects)
    requires done < |infos| && start <= |log|
    requires AllReported(env, infos, done, faults, log, start, ok, now)
    requires OnlyCalls(log, log', NameOf(env, infos[done])) && OnlyAt(now, after, NameOf(env, infos[done]))
    requires AllWork(faults, |log|, |log'|) ==> reconciled
    requires reconciled ==> StatusReports(env, after, infos[done])
    ensures AllReported(env, infos, done + 1, faults, log', start, ok && reconciled, after)
  {
    hide NameOf, StatusReports, OnlyAt;
    forall i: nat | LastAmong(env, infos, i, done + 1)
                    && ((ok && reconciled) || AllWorkFor(faults, log', start, NameOf(env, infos[i])))
      ensures StatusReports(env, after, infos[i])
    {
      if i < done {
        assert LastAmong(env, infos, i, done);
        assert AllWorkFor(faults, log', start, NameOf(env, infos[i])) ==> AllWorkFor(faults, log, start, NameOf(env, infos[i]));
        StatusKept(env, now, after, NameOf(env, infos[done]), infos[i]);
      }
    }
  }

  lemma OneMoreCall(before: seq<Target>, log: seq<Target>, name: string)
    requires OnlyCalls(before, log, name)
    ensures OnlyCalls(before, log + [Named(name)], name)
  {
  }

  lemma NoCalls(log: seq<Target>, name: string)
    ensures OnlyCalls(log, log, name)
  {
  }

  lemma CallsTogether(a: seq<Target>, b: seq<Target>, c: seq<Target>, name: string)
    requires OnlyCalls(a, b, name) && OnlyCalls(b, c, name)
    ensures OnlyCalls(a, c, name)
  {
  }

  lemma LogGrows(log: seq<Target>, log': seq<Target>, name: string)
    requires OnlyCalls(log, log', name)
    ensures |log| <= |log'|
  {
  }

  lemma NothingReported(env: Env, infos: seq<DiskInfo>, faults: nat -> Fault, log: seq<Target>, start: nat, ok: bool,
                        objects: Objects)
    ensures AllReported(env, infos, 0, faults, log, start, ok, objects)
  {
  }

  lemma StatusKept(env: Env, now: Objects, after: Objects, name: string, info: DiskInfo)
    requires StatusReports(env, now, info) && OnlyAt(now, after, name) && NameOf(env, info) != name
    ensures StatusReports(env, after, info)
  {
    hide NameOf, ReportsAnswer;
  }

  lemma ReportsPut(env: Env, objects: Objects, info: DiskInfo, cr: Cr)
    requires ReportsAnswer(cr.status, info, env.collect(info.path, cr.args))
    ensures StatusReports(env, objects[NameOf(env, info) := cr], info)
  {
    hide NameOf, ReportsAnswer;
  }

  lemma JobsStep(env: Env, w: World, infos: seq<DiskInfo>, times: nat -> nat, i: nat)
    requires i < |infos|
    ensures DiskSteps(env, w, Jobs(infos, times)[..i + 1])
         == DiskStep(env, DiskSteps(env, w, Jobs(infos, times)[..i]), (infos[i], times(i)))
  {
    hide DiskStep;
    var jobs := Jobs(infos, times);
    assert jobs[..i + 1][..i] == jobs[..i];
  }

  lemma IsDiscovered(env: Env, infos: seq<DiskInfo>, i: nat)
    requires i < |infos|
    ensures NameOf(env, infos[i]) in Discovered(env, infos)
  {
  }

  /** Nothing done is among what may be done. */
  lemma KeptMay(env: Env, name: string, host: Discovery.Host, now: nat, objects: Objects)
    ensures name in objects && Discovery.Discover(host, env.node, env.rules).Ok? ==>
              MayBeReconciled(env, name, Discovery.Discover(host, env.node, env.rules).value, now, objects[name],
                              Lookup(objects, name))
  {
    hide Discovery.Discover, FirstNamed, CollectedBy;
  }

  lemma ReconciledPresent(env: Env, w: World, name: string, infos: seq<DiskInfo>, now: nat)
    requires name in w.objects && FirstNamed(env, infos, name).Some?
    ensures Reconciled(env, w, name, infos, now) == DiskStep(env, w, (FirstNamed(env, infos, name).value, now))
  {
    hide FirstNamed, DiskStep;
  }

  lemma ReconciledAbsent(env: Env, w: World, name: string, infos: seq<DiskInfo>, now: nat)
    requires name in w.objects && FirstNamed(env, infos, name).None?
    ensures Reconciled(env, w, name, infos, now) == Gone(env, w, name)
  {
    hide FirstNamed, Gone;
  }

  lemma NoneListed(env: Env, discovered: set<string>, w: World)
    ensures AfterAbsent(env, discovered, w, []) == w
  {
  }

  lemma NoSteps(env: Env, w: World, jobs: seq<Job>)
    ensures DiskSteps(env, w, jobs[..0]) == w
  {
    assert jobs[..0] == [];
  }

  lemma OnlyAtMarking(objects: Objects, name: string, what: Occasion)
    requires name in objects
    ensures OnlyAt(objects, Marking(objects, name, what), name)
  {
  }

  lemma OnlyAtDelete(objects: Objects, name: string)
    ensures OnlyAt(objects, objects - {name}, name) && OnlyAt(objects, objects, name)
  {
  }

  /** What deleting or marking an object keeps. */
  lemma GoneMay(env: Env, objects: Objects, g: M.Gauges, name: string)
    requires name in objects
    ensures var cr, marked := objects[name], Marking(objects, name, Occasion.Reconcile);
            && OnlyAt(objects, objects, name) && OnlyAt(objects, objects - {name}, name) && OnlyAt(objects, marked, name)
            && (AllContracts(objects) ==> AllContracts(objects - {name}) && AllContracts(marked))
            && (M.HealthGaugesSound(g) ==>
                  && M.HealthGaugesSound(M.Without(g, M.READINGS + {M.CollectionSuccess}, env.node, name))
                  && M.HealthGaugesSound(MissingGauges(env, g, name, cr.status.info.path)))
            && MayGo(env, cr, Lookup(objects, name))
            && (Excluded(env, cr) ==> MayGo(env, cr, Lookup(objects - {name}, name)))
            && (!Excluded(env, cr) ==> MayGo(env, cr, Lookup(marked, name)))
  {
    hide OnlyAt, AllContracts, M.HealthGaugesSound, M.Without, MissingGauges, Excluded, StatusRuns.Marked;
    OnlyAtDelete(objects, name);
    OnlyAtMarking(objects, name, Occasion.Reconcile);
    if AllContracts(objects) {
      DeletedContracts(objects, name);
      MarkingContracts(objects, name, Occasion.Reconcile);
    }
    if M.HealthGaugesSound(g) {
      M.WithoutSound(g, M.READINGS + {M.CollectionSuccess}, env.node, name);
      MissingSound(env, g, name, objects[name].status.info.path);
    }
  }

  lemma DeletedContracts(objects: Objects, name: string)
    requires AllContracts(objects)
    ensures AllContracts(objects - {name})
  {
  }

  // ----- What one collection does to the gauges

  lemma FailureGauges(env: Env, g: M.Gauges, name: string, info: DiskInfo, e: CollectError)
    ensures var g' := g[M.Plain(M.CollectionSuccess, env.node, name, info.path) := 0];
            && g' == M.SetAll(g, StepWrites(env, name, info, Error(e)))
            && (M.HealthGaugesSound(g) ==> M.HealthGaugesSound(g'))
  {
    var s := M.Plain(M.CollectionSuccess, env.node, name, info.path);
    var w := [(s, 0)];
    assert w + [] == w && w[..0] == [];
    assert StepWrites(env, name, info, Error(e)) == w;
    assert M.SetAll(g, w) == M.SetAll(g, w[..0])[s := 0];
    if M.HealthGaugesSound(g) {
      M.SetSound(g, s, 0);
    }
  }

  lemma AssessedHealth(s: Status, o: Smart.Output, now: nat)
    ensures AfterSuccess(s, o, now).health == Assessment.Assess(Some(o)).status
  {
  }

  lemma SuccessGauges(env: Env, g: M.Gauges, name: string, info: DiskInfo, o: Smart.Output)
    ensures var h := Assessment.Assess(Some(o)).status;
            var g' := M.SetAll(g[M.Plain(M.CollectionSuccess, env.node, name, info.path) := 1],
                               M.PublishWrites(env.node, name, FreshInfo(info, Data(o)), o, h));
            && g' == M.SetAll(g, StepWrites(env, name, info, Data(o)))
            && (M.HealthGaugesSound(g) ==>
                  M.HealthGaugesSound(g') && M.IsHot(g', env.node, name, info.path, h))
  {
    hide M.PublishWrites, Assessment.Assess, M.HealthGaugesSound, M.IsHot;
    var h := Assessment.Assess(Some(o)).status;
    var s := M.Plain(M.CollectionSuccess, env.node, name, info.path);
    var w, p := [(s, 1)], M.PublishWrites(env.node, name, FreshInfo(info, Data(o)), o, h);
    assert w[..0] == [];
    assert M.SetAll(g, w) == M.SetAll(g, w[..0])[s := 1];
    M.SetAllConcat(g, w, p);
    if M.HealthGaugesSound(g) {
      M.SetSound(g, s, 1);
      Assessment.NeverUnknown(o);
      M.EveryStatus(h);
      M.PublishSound(g[s := 1], env.node, name, FreshInfo(info, Data(o)), o, h);
    }
  }

  // ----- Objects of other nodes

  /** The gauges differ at most in the series of this disk and the smartctl version. */
  ghost predicate GaugesOnlyAt(g: M.Gauges, g': M.Gauges, name: string) {
    forall s: M.Series :: s.vec != M.Version && s.disk != name ==> M.At(g', s) == M.At(g, s)
  }

  /** One object is as it was, with all its series, and no API call since `first` was about it. */
  ghost predicate IsUntouched(before: World, after: World, log: seq<Target>, first: nat, n: string) {
    && Lookup(after.objects, n) == Lookup(before.objects, n)
    && (forall s: M.Series :: s.vec != M.Version && s.disk == n ==> M.At(after.gauges, s) == M.At(before.gauges, s))
    && (forall k :: first <= k < |log| ==> log[k] != Named(n))
  }

  /** So is every object of another node, other than those whose name is in `taken`. */
  ghost predicate ForeignUntouched(env: Env, taken: set<string>, before: World, after: World, log: seq<Target>, first: nat) {
    forall n :: n in before.objects && before.objects[n].nodeName != env.node && n !in taken ==>
      IsUntouched(before, after, log, first, n)
  }

  lemma ForeignStart(env: Env, w: World, log: seq<Target>, target: Target)
    requires target == Labels
    ensures ForeignUntouched(env, {}, w, w, log + [target], |log|)
  {
  }

  lemma UntouchedStep(before: World, w: World, w': World, log: seq<Target>, log': seq<Target>, first: nat, name: string, n: string)
    requires IsUntouched(before, w, log, first, n) && first <= |log| && n != name
    requires OnlyCalls(log, log', name) && OnlyAt(w.objects, w'.objects, name) && GaugesOnlyAt(w.gauges, w'.gauges, name)
    ensures IsUntouched(before, w', log', first, n)
  {
    hide M.At;
    forall k | first <= k < |log'| ensures log'[k] != Named(n) {
      if k < |log| {
        assert log'[k] == log[k];
      }
    }
  }

  /** Handling an object of this node, or one whose name is taken, touches no object of another. */
  lemma ForeignStep(env: Env, taken: set<string>, before: World, w: World, w': World, log: seq<Target>, log': seq<Target>,
                    first: nat, name: string)
    requires ForeignUntouched(env, taken, before, w, log, first) && first <= |log|
    requires OnlyCalls(log, log', name) && OnlyAt(w.objects, w'.objects, name) && GaugesOnlyAt(w.gauges, w'.gauges, name)
    requires name in before.objects && before.objects[name].nodeName != env.node && name !in taken ==> w' == w && log' == log
    ensures ForeignUntouched(env, taken, before, w', log', first)
  {
    hide IsUntouched, OnlyCalls, OnlyAt, GaugesOnlyAt;
    forall n | n in before.objects && before.objects[n].nodeName != env.node && n !in taken
      ensures IsUntouched(before, w', log', first, n)
    {
      if n != name {
        UntouchedStep(before, w, w', log, log', first, name, n);
      }
    }
  }

  lemma ForeignTaken(env: Env, taken: set<string>, before: World, after: World, log: seq<Target>, first: nat)
    requires ForeignUntouched(env, {}, before, after, log, first)
    ensures ForeignUntouched(env, taken, before, after, log, first)
  {
  }

  lemma WithoutOnlyAt(g: M.Gauges, vecs: set<M.Vec>, node: string, name: string)
    ensures GaugesOnlyAt(g, M.Without(g, vecs, node, name), name)
  {
  }

  lemma MissingOnlyAt(env: Env, g: M.Gauges, name: string, path: string)
    ensures GaugesOnlyAt(g, MissingGauges(env, g, name, path), name)
  {
  }

  lemma SameOnlyAt(g: M.Gauges, name: string)
    ensures GaugesOnlyAt(g, g, name)
  {
  }

  /** A collection's gauges are about its own disk. */
  lemma CollectedOnlyAt(env: Env, w: World, w': World, info: DiskInfo, now: nat, ok: bool)
    requires DiskCollected(env, w, w', info, now, ok)
    ensures GaugesOnlyAt(w.gauges, w'.gauges, NameOf(env, info))
  {
    hide NameOf, StepWrites, CollectedEvents, M.SetAll, M.At;
    var name, a := NameOf(env, info), AnswerFor(env, w.objects, info);
    StepOwned(env, name, info, a);
    forall s: M.Series | s.vec != M.Version && s.disk != name ensures M.At(w'.gauges, s) == M.At(w.gauges, s) {
      OwnedAway(w.gauges, StepWrites(env, name, info, a), env.node, name, s);
    }
  }

  // ----- Retries

  /** In the first `n` attempts from call `first` on, the read works and the write conflicts. */
  ghost predicate Conflicting(faults: nat -> Fault, first: nat, n: nat) {
    forall j: nat :: j < n ==> faults(first + 2 * j) == Fine && faults(first + 2 * j + 1) == Conflict
  }

  /** And the next attempt meets no conflict: its read fails, or its write fails or works. */
  ghost predicate SettledAfter(faults: nat -> Fault, first: nat, n: nat) {
    && Conflicting(faults, first, n)
    && (faults(first + 2 * n) == Broken || (faults(first + 2 * n) == Fine && faults(first + 2 * n + 1) != Conflict))
  }

  /** Attempt number `attempt` is about to begin after `calls` calls and `k` warnings. */
  ghost predicate Retrying(faults: nat -> Fault, first: nat, calls: nat, attempt: nat, k: nat) {
    && (forall c: nat :: c < 5 && SettledAfter(faults, first, c) ==>
          attempt <= c && calls == first + 2 * attempt && k == attempt)
    && (Conflicting(faults, first, 5) ==> calls == first + 2 * attempt && k == attempt)
  }

  /** What has become of the attempts in the end: the first one without a conflict decides, and a
      read or a write that fails otherwise is not tried again. */
  ghost predicate Retried(faults: nat -> Fault, first: nat, calls: nat, ok: bool, k: nat) {
    && (forall c: nat :: c < 5 && SettledAfter(faults, first, c) ==>
          if faults(first + 2 * c) == Broken then !ok && k == c && calls == first + 2 * c + 1
          else ok == (faults(first + 2 * c + 1) == Fine) && k == c + 1 && calls == first + 2 * c + 2)
    && (Conflicting(faults, first, 5) ==> !ok && k == 5 && calls == first + 10)
  }

  lemma NotTriedYet(faults: nat -> Fault, first: nat)
    ensures Retrying(faults, first, first, 0, 0)
  {
  }

  lemma GivenUp(faults: nat -> Fault, first: nat, calls: nat, k: nat)
    requires Retrying(faults, first, calls, 5, k)
    ensures Retried(faults, first, calls, false, k)
  {
  }

  lemma MissingGaugesAre(env: Env, g: M.Gauges, name: string, path: string)
    ensures MissingGauges(env, g, name, path)
         == M.Without(g, M.READINGS, env.node, name)[M.Plain(M.CollectionSuccess, env.node, name, path) := 0]
  {
  }

  lemma RetryStep(faults: nat -> Fault, first: nat, calls: nat, attempt: nat, k: nat, calls': nat, k': nat, e: Option<ApiError>)
    requires Retrying(faults, first, calls, attempt, k) && attempt < 5
    requires faults(calls) == Fine ==>
               && calls' == calls + 2 && k' == k + 1
               && (faults(calls + 1) == Fine <==> e.None?) && (faults(calls + 1) == Conflict <==> e == Some(IsConflict))
    requires faults(calls) == Broken ==> calls' == calls + 1 && k' == k && e == Some(OtherApiError)
    ensures if e == Some(IsConflict) then Retrying(faults, first, calls', attempt + 1, k')
            else Retried(faults, first, calls', e.None?, k')
  {
    forall c: nat | c < 5 && SettledAfter(faults, first, c)
      ensures if e == Some(IsConflict) then attempt + 1 <= c && calls' == first + 2 * attempt + 2 && k' == attempt + 1
              else c == attempt
    {
      if attempt < c {
        assert faults(first + 2 * attempt) == Fine && faults(first + 2 * attempt + 1) == Conflict;
      }
    }
  }

  /** retry.DefaultRetry makes this many attempts. */
  const ATTEMPTS := 5

  class DiskMonitor {
    const env: Env
    const api: ApiServer
    const registry: M.Registry
    const recorder: Recorder

    constructor (env: Env, api: ApiServer, registry: M.Registry, recorder: Recorder)
      ensures this.env == env && this.api == api && this.registry == registry && this.recorder == recorder
    {
      this.env, this.api, this.registry, this.recorder := env, api, registry, recorder;
    }

    function Now(): World
      reads api, registry, recorder
    {
      World(api.objects, registry.gauges, recorder.events)
    }

    /** Gets the object, or creates it if there is none. */
    method Fetch(name: string) returns (r: Option<Cr>)
      modifies api
      ensures r.None? ==> api.objects == old(api.objects)
      ensures r.Some? ==> && r.value == Existing(env, old(api.objects), name)
                          && api.objects == old(api.objects)[name := r.value]
      ensures OnlyCalls(old(api.log), api.log, name)
      ensures api.WorkedSince(old(|api.log|)) ==> r.Some?
    {
      hide AllWork;
      var got := api.Get(name);
      match got {
        case Ok(existing) =>
          SameObjects(api.objects, api.objects[name := existing]);
          return Some(existing);
        case Err(e) =>
          if e != IsNotFound {
            return None;
          }
      }
      var cr := NewCr(env);
      ghost var log := api.log;
      var failed := api.Create(name, cr);
      WorkSplit(api.faults, old(|api.log|), |log|, |api.log|);
      if failed.Some? {
        return None;
      }
      return Some(cr);
    }

    /** Gets or creates the object and repairs its label. A label that cannot be written is no
        error; the local copy is used all the same. */
    method GetOrCreate(name: string) returns (r: Option<Cr>)
      modifies api
      ensures r.None? ==> api.objects == old(api.objects)
      ensures r.Some? ==> var cr := Existing(env, old(api.objects), name);
                          && r.value == Labelled(env, cr)
                          && (api.objects == old(api.objects)[name := cr] || api.objects == old(api.objects)[name := Labelled(env, cr)])
      ensures OnlyCalls(old(api.log), api.log, name)
      ensures api.WorkedSince(old(|api.log|)) ==>
                && r.Some?
                && api.objects == old(api.objects)[name := Labelled(env, Existing(env, old(api.objects), name))]
    {
      hide AllWork, OnlyCalls, Existing;
      r := Fetch(name);
      if r.None? {
        return;
      }
      var cr := r.value;
      if cr.nodeLabel != Some(env.nodeLabel) {
        ghost var log := api.log;
        var ignored := api.PatchLabel(name, env.nodeLabel);
        PutTwice(old(api.objects), name, cr, Labelled(env, cr));
        OneMoreCall(old(api.log), log, name);
        LogGrows(old(api.log), log, name);
        WorkSplit(api.faults, old(|api.log|), |log|, |api.log|);
        r := Some(Labelled(env, cr));
      }
    }

    /** applyCollectionFailure: the gauge, then the local copy and the events. */
    method ApplyFailure(disk: DiskCopy, name: string, info: DiskInfo, e: CollectError)
      modifies disk`health, disk`conditions, registry, recorder
      ensures disk.Value() == AfterFailure(old(disk.Value()), e)
      ensures registry.gauges == M.SetAll(old(registry.gauges), StepWrites(env, name, info, Error(e)))
      ensures recorder.events == old(recorder.events) + FailureEvents(old(disk.Value()), e)
      ensures old(M.HealthGaugesSound(registry.gauges)) ==> M.HealthGaugesSound(registry.gauges)
    {
      FailureGauges(env, registry.gauges, name, info, e);
      registry.Set(M.Plain(M.CollectionSuccess, env.node, name, info.path), 0);
      disk.ApplyCollectionFailure(e, recorder);
    }

    /** applyCollectionSuccess: the local copy and the events, then the published gauges. */
    method ApplySuccess(disk: DiskCopy, name: string, info: DiskInfo, o: Smart.Output, now: nat)
      requires disk.info == FreshInfo(info, Data(o))
      modifies disk, registry, recorder
      ensures disk.Value() == AfterSuccess(old(disk.Value()), o, now)
      ensures registry.gauges == M.SetAll(old(registry.gauges), StepWrites(env, name, info, Data(o)))
      ensures recorder.events == old(recorder.events) + SuccessEvents(old(disk.Value()), o)
      ensures old(M.HealthGaugesSound(registry.gauges)) ==> M.HealthGaugesSound(registry.gauges)
    {
      hide M.HealthGaugesSound, M.PublishWrites, StepWrites, M.SetAll, AfterSuccess, SuccessEvents;
      SuccessGauges(env, registry.gauges, name, info, o);
      AssessedHealth(disk.Value(), o, now);
      var latest := disk.info;
      registry.Set(M.Plain(M.CollectionSuccess, env.node, name, info.path), 1);
      disk.ApplyCollectionSuccess(o, now, recorder);
      var h := disk.health;
      assert disk.Value().health == h;
      registry.PublishHealthMetrics(env.node, name, latest, o, h);
    }

    /** Collects and applies the answer to a copy of the status, the gauges and the events. */
    method Collect(base: Status, name: string, args: string, info: DiskInfo, now: nat) returns (result: Status)
      modifies registry, recorder
      ensures result == Collected(base, info, env.collect(info.path, args), now)
      ensures registry.gauges == M.SetAll(old(registry.gauges), StepWrites(env, name, info, env.collect(info.path, args)))
      ensures recorder.events == old(recorder.events) + CollectedEvents(base, info, env.collect(info.path, args))
      ensures old(M.HealthGaugesSound(registry.gauges)) ==> M.HealthGaugesSound(registry.gauges)
    {
      hide AfterFailure, AfterSuccess, FailureEvents, SuccessEvents, M.SetAll, StepWrites, M.HealthGaugesSound;
      var disk := new DiskCopy(base);
      disk.info := info;
      match env.collect(info.path, args) {
        case Error(e) =>
          assert disk.Value() == base.(info := FreshInfo(info, Error(e)));
          ApplyFailure(disk, name, info, e);
        case Data(o) =>
          if o.firmwareVersion != "" {
            disk.info := disk.info.(firmwareVersion := o.firmwareVersion);
          }
          assert disk.Value() == base.(info := FreshInfo(info, Data(o)));
          ApplySuccess(disk, name, info, o, now);
      }
      result := disk.Value();
    }

    /** Collects, publishes and then patches the status; a failed patch leaves the rest standing. */
    method CollectAndPatch(name: string, base: Status, args: string, info: DiskInfo, now: nat) returns (ok: bool)
      requires name in api.objects && api.objects[name].status == base
      modifies api, registry, recorder
      ensures api.log == old(api.log) + [Named(name)] && (api.WorkedSince(old(|api.log|)) ==> ok)
      ensures api.objects == if ok then Storing(old(api.objects), name, Collected(base, info, env.collect(info.path, args), now))
                             else old(api.objects)
      ensures registry.gauges == M.SetAll(old(registry.gauges), StepWrites(env, name, info, env.collect(info.path, args)))
      ensures recorder.events == old(recorder.events) + CollectedEvents(base, info, env.collect(info.path, args))
      ensures old(M.HealthGaugesSound(registry.gauges)) ==> M.HealthGaugesSound(registry.gauges)
    {
      hide StepWrites, Collected, CollectedEvents, M.SetAll, M.HealthGaugesSound, StatusPatch.Merged, AllWork;
      var result := Collect(base, name, args, info, now);
      StatusPatch.MergedOntoBase(base, result);
      var failed := api.PatchStatus(name, base, result);
      ok := failed.None?;
    }

    /** One disk: get or create its object, repair the label, collect, patch the status. Unless the
        object could not be had, the gauges and the events are those of the collection, whether or
        not its status could be stored; then the health gauge of a successful collection agrees
        with the stored health exactly if it was stored, or the health is the same as before. */
    method ReconcileDisk(info: DiskInfo, now: nat) returns (ok: bool, ghost collected: bool)
      modifies api, registry, recorder
      ensures api.WorkedSince(old(|api.log|)) ==> ok && Now() == DiskStep(env, old(Now()), (info, now))
      ensures OnlyCalls(old(api.log), api.log, NameOf(env, info))
      ensures OnlyAt(old(api.objects), api.objects, NameOf(env, info))
      ensures old(AllContracts(api.objects)) ==> AllContracts(api.objects)
      ensures old(M.HealthGaugesSound(registry.gauges)) ==> M.HealthGaugesSound(registry.gauges)
      ensures MayReconcile(env, info, now, Lookup(old(api.objects), NameOf(env, info)), Lookup(api.objects, NameOf(env, info)))
      ensures ok ==> StatusReports(env, api.objects, info)
      ensures !collected ==> !ok && Now() == old(Now())
      ensures collected ==> DiskCollected(env, old(Now()), Now(), info, now, ok)
      ensures collected && old(M.HealthGaugesSound(registry.gauges)) ==> AgreesIfStored(env, old(Now()), Now(), info, ok)
    {
      hide NameOf, StepWrites, Collected, CollectedEvents, M.SetAll, M.HealthGaugesSound, AllContracts, OnlyAt, StatusReports,
           MayReconcile, AllWork, OnlyCalls, DiskCollected, AgreesIfStored, DiskStep, Existing;
      var name := NameOf(env, info);
      ghost var w, first := Now(), |api.log|;
      var got := GetOrCreate(name);
      if got.None? {
        NothingDone(env, w, info, now);
        return false, false;
      }
      ghost var u, log := Now(), api.log;
      ok := CollectAndPatch(name, got.value.status, got.value.args, info, now);
      collected := true;
      LogGrows(old(api.log), log, name);
      OneMoreCall(old(api.log), log, name);
      WorkSplit(api.faults, first, |log|, |api.log|);
      DiskDone(env, w, u, Now(), info, now, ok);
      DiskStored(env, w, u, Now(), info, now, ok);
      DiskKept(env, w, u, Now(), info, now, ok);
      if M.HealthGaugesSound(w.gauges) {
        HealthAgrees(env, w, Now(), info, now, ok);
      }
    }

    /** One attempt of the read-modify-write. The warning is recorded before the write, so it stands
        even if the write fails. */
    method TryMark(name: string, what: Occasion) returns (e: Option<ApiError>)
      modifies api, recorder
      ensures OnlyCalls(old(api.log), api.log, name)
      ensures e.None? ==> name in old(api.objects) && api.objects == Marking(old(api.objects), name, what)
      ensures e.Some? ==> api.objects == old(api.objects)
      ensures recorder.events == old(recorder.events) || recorder.events == old(recorder.events) + [MissingWarning(what)]
      ensures api.WorkedSince(old(|api.log|)) && name in old(api.objects) ==>
                && e.None?
                && recorder.events == old(recorder.events)
                                      + WarningEvents(old(api.objects)[name].status.conditions, MissingCondition(what))
      ensures name in old(api.objects) && Differs(old(api.objects)[name].status.conditions, MissingCondition(what))
              && api.faults(old(|api.log|)) == Fine ==>
                && |api.log| == old(|api.log|) + 2
                && recorder.events == old(recorder.events) + [MissingWarning(what)]
                && (api.faults(old(|api.log|) + 1) == Fine <==> e.None?)
                && (api.faults(old(|api.log|) + 1) == Conflict <==> e == Some(IsConflict))
      ensures api.faults(old(|api.log|)) == Broken ==>
                e == Some(OtherApiError) && |api.log| == old(|api.log|) + 1 && recorder.events == old(recorder.events)
    {
      hide Upsert, Find;
      var got := api.Get(name);
      if got.Err? {
        return Some(got.error);
      }
      var s := got.value.status;
      var copy := new DiskCopy(s);
      var changed := copy.SetStatusCondition(MissingCondition(what));
      var marked := copy.Value();
      assert marked == StatusRuns.Marked(s, what);
      if !changed {
        UpsertSame(s.conditions, MissingCondition(what));
        return None;
      }
      recorder.Record(MissingWarning(what));
      e := api.UpdateStatus(name, marked);
      WorkSplit(api.faults, old(|api.log|), old(|api.log|) + 1, |api.log|);
    }

    /** Drops the readings and sets DataCollected=False, retrying on conflicts: up to four conflicts
        end with the mark stored if the next attempt works, and without it if that fails otherwise or
        there are five. Every attempt that writes records the warning again. */
    method MarkDiskMissing(name: string, path: string, what: Occasion) returns (ok: bool)
      modifies api, registry, recorder
      ensures OnlyCalls(old(api.log), api.log, name)
      ensures registry.gauges == MissingGauges(env, old(registry.gauges), name, path)
      ensures ok ==> name in old(api.objects) && api.objects == Marking(old(api.objects), name, what)
      ensures !ok ==> api.objects == old(api.objects)
      ensures exists k: nat :: k <= ATTEMPTS && recorder.events == old(recorder.events) + Repeated(MissingWarning(what), k)
      ensures api.WorkedSince(old(|api.log|)) && name in old(api.objects) ==>
                && ok
                && recorder.events == old(recorder.events)
                                      + WarningEvents(old(api.objects)[name].status.conditions, MissingCondition(what))
      ensures name in old(api.objects) && Differs(old(api.objects)[name].status.conditions, MissingCondition(what)) ==>
                exists k: nat :: Retried(api.faults, old(|api.log|), |api.log|, ok, k)
                                 && recorder.events == old(recorder.events) + Repeated(MissingWarning(what), k)
    {
      hide Marking, WarningEvents, AllWork, Differs, SettledAfter, Conflicting, OnlyCalls, Repeated, MissingGauges;
      MissingGaugesAre(env, registry.gauges, name, path);
      registry.DeleteDeviceHealthMetrics(env.node, name);
      registry.Set(M.Plain(M.CollectionSuccess, env.node, name, path), 0);
      ghost var k: nat;
      ok, k := MarkWithRetries(name, what);
    }

    method MarkWithRetries(name: string, what: Occasion) returns (ok: bool, ghost k: nat)
      modifies api, recorder
      ensures OnlyCalls(old(api.log), api.log, name)
      ensures ok ==> name in old(api.objects) && api.objects == Marking(old(api.objects), name, what)
      ensures !ok ==> api.objects == old(api.objects)
      ensures k <= ATTEMPTS && recorder.events == old(recorder.events) + Repeated(MissingWarning(what), k)
      ensures api.WorkedSince(old(|api.log|)) && name in old(api.objects) ==>
                && ok
                && recorder.events == old(recorder.events)
                                      + WarningEvents(old(api.objects)[name].status.conditions, MissingCondition(what))
      ensures name in old(api.objects) && Differs(old(api.objects)[name].status.conditions, MissingCondition(what)) ==>
                Retried(api.faults, old(|api.log|), |api.log|, ok, k)
    {
      hide Marking, WarningEvents, AllWork, Differs, OnlyCalls, Repeated, SettledAfter, Conflicting, Retrying, Retried;
      ghost var events, first := recorder.events, |api.log|;
      k := 0;
      NoneRepeated(events, MissingWarning(what));
      NoCalls(api.log, name);
      NotTriedYet(api.faults, first);
      for attempt := 0 to ATTEMPTS
        invariant k <= attempt && api.objects == old(api.objects) && OnlyCalls(old(api.log), api.log, name)
        invariant recorder.events == events + Repeated(MissingWarning(what), k)
        invariant api.WorkedSince(first) && name in api.objects ==> attempt == 0 && recorder.events == events
        invariant name in api.objects && Differs(api.objects[name].status.conditions, MissingCondition(what)) ==>
                    Retrying(api.faults, first, |api.log|, attempt, k)
      {
        RepeatedOnce(events, MissingWarning(what), k);
        ghost var seen, log, before := recorder.events, api.log, k;
        LogGrows(old(api.log), log, name);
        var e := TryMark(name, what);
        LogGrows(log, api.log, name);
        CallsTogether(old(api.log), log, api.log, name);
        WorkSplit(api.faults, first, |log|, |api.log|);
        k := if recorder.events == seen then k else k + 1;
        if name in old(api.objects) && Differs(old(api.objects)[name].status.conditions, MissingCondition(what)) {
          RetryStep(api.faults, first, |log|, attempt, before, |api.log|, k, e);
        }
        if e != Some(IsConflict) {
          return e.None?, k;
        }
      }
      if name in api.objects && Differs(api.objects[name].status.conditions, MissingCondition(what)) {
        GivenUp(api.faults, first, |api.log|, k);
      }
      ok := false;
    }

    /** Deletes the object and all its series if a rule matches. */
    method DeleteIfExcluded(name: string, info: DiskInfo) returns (deleted: bool, ok: bool)
      modifies api, registry
      ensures !ExcludeRules.IsExcluded(env.node, info, env.rules) ==>
                && !deleted && ok
                && api.objects == old(api.objects) && registry.gauges == old(registry.gauges)
                && api.log == old(api.log)
      ensures ExcludeRules.IsExcluded(env.node, info, env.rules) ==>
                && deleted == ok
                && api.objects == (if ok then old(api.objects) - {name} else old(api.objects))
                && registry.gauges == (if ok then M.Without(old(registry.gauges), M.READINGS + {M.CollectionSuccess}, env.node, name)
                                       else old(registry.gauges))
                && api.log == old(api.log) + [Named(name)]
                && (api.WorkedSince(old(|api.log|)) ==> ok)
    {
      hide ExcludeRules.FindMatchingRule, M.Without, AllWork;
      var rule := ExcludeRules.FindMatchingRule(env.node, info, env.rules);
      if rule.None? {
        return false, true;
      }
      var failed := api.Delete(name);
      if failed.Some? && failed != Some(IsNotFound) {
        return false, false;
      }
      registry.DeleteAllDiskMetrics(env.node, name);
      return true, true;
    }

    /** One listed object: skip it, delete it, mark it as missing, or leave it alone. */
    method HandleListed(item: Item, discovered: set<string>) returns (ok: bool)
      requires item.name in api.objects && api.objects[item.name] == item.cr && item.cr.nodeLabel == Some(env.nodeLabel)
      modifies api, registry, recorder
      ensures OnlyCalls(old(api.log), api.log, item.name)
      ensures item.cr.nodeName != env.node ==> ok && Now() == old(Now()) && api.log == old(api.log)
      ensures OnlyAt(old(api.objects), api.objects, item.name)
      ensures GaugesOnlyAt(old(registry.gauges), registry.gauges, item.name)
      ensures MayBecome(env, discovered, old(api.objects), api.objects, item.name)
      ensures old(M.HealthGaugesSound(registry.gauges)) ==> M.HealthGaugesSound(registry.gauges)
      ensures api.WorkedSince(old(|api.log|)) ==> ok && Now() == Handle(env, discovered, old(Now()), item.name)
    {
      hide Naming.GenerateCRName, ExcludeRules.IsExcluded, M.HealthGaugesSound, StatusRuns.Marked, M.Without, WarningEvents,
           MissingGauges, OnlyAt, MayBecome, AllWork, GaugesOnlyAt;
      ghost var objects, gauges := api.objects, registry.gauges;
      LeftAlone(env, discovered, objects, item.name);
      SameOnlyAt(gauges, item.name);
      WithoutOnlyAt(gauges, M.READINGS + {M.CollectionSuccess}, env.node, item.name);
      MissingOnlyAt(env, gauges, item.name, item.cr.status.info.path);
      if item.cr.nodeName != env.node {
        return true;
      }
      var info := item.cr.status.info;
      var deleted: bool;
      deleted, ok := DeleteIfExcluded(item.name, info);
      if !ok {
        return false;
      }
      if deleted {
        DeletedMay(env, discovered, objects, item.name);
        if M.HealthGaugesSound(gauges) {
          M.WithoutSound(gauges, M.READINGS + {M.CollectionSuccess}, env.node, item.name);
        }
        return true;
      }
      if item.name !in discovered {
        MarkedMay(env, discovered, objects, item.name);
        ok := MarkDiskMissing(item.name, info.path, InventoryScan);
        if M.HealthGaugesSound(gauges) {
          MissingSound(env, gauges, item.name, info.path);
        }
      }
    }

    method DiscoveredNames(infos: seq<DiskInfo>) returns (discovered: set<string>)
      ensures discovered == Discovered(env, infos)
    {
      hide Naming.GenerateCRName;
      discovered := {};
      for i := 0 to |infos|
        invariant discovered == Discovered(env, infos[..i])
      {
        DiscoveredStep(env, infos, i);
        discovered := discovered + {NameOf(env, infos[i])};
      }
      assert infos[..|infos|] == infos;
    }

    /** Deletes or marks the listed objects whose disk is excluded or gone. */
    method MarkAbsentDisks(infos: seq<DiskInfo>) returns (ok: bool, ghost listing: seq<string>)
      modifies api, registry, recorder
      ensures old(|api.log|) <= |api.log|
      ensures ForeignUntouched(env, {}, old(Now()), Now(), api.log, old(|api.log|))
      ensures forall n :: MayBecome(env, Discovered(env, infos), old(api.objects), api.objects, n)
      ensures old(M.HealthGaugesSound(registry.gauges)) ==> M.HealthGaugesSound(registry.gauges)
      ensures api.WorkedSince(old(|api.log|)) ==>
                && ok
                && IsListing(env, old(api.objects), listing)
                && Now() == AfterAbsent(env, Discovered(env, infos), old(Now()), listing)
    {
      hide Naming.GenerateCRName, M.HealthGaugesSound, AfterAbsent, MayBecome, IsListing, Lists, Discovered, AllWork, ForeignUntouched;
      ForeignStart(env, Now(), api.log, Labels);
      var listed := api.List(env.nodeLabel);
      if listed.Err? {
        AllLeftAlone(env, Discovered(env, infos), api.objects);
        return false, [];
      }
      var discovered := DiscoveredNames(infos);
      ok, listing := HandleAll(listed.value, discovered, old(|api.log|), old(Now()));
      WorkSplit(api.faults, old(|api.log|), old(|api.log|) + 1, |api.log|);
    }

    method HandleAll(items: seq<Item>, discovered: set<string>, ghost first: nat, ghost before: World)
      returns (ok: bool, ghost listing: seq<string>)
      requires Lists(api.objects, env.nodeLabel, items) && first <= |api.log|
      requires before == Now() && ForeignUntouched(env, {}, before, Now(), api.log, first)
      modifies api, registry, recorder
      ensures old(|api.log|) <= |api.log|
      ensures ForeignUntouched(env, {}, before, Now(), api.log, first)
      ensures forall n :: MayBecome(env, discovered, old(api.objects), api.objects, n)
      ensures old(M.HealthGaugesSound(registry.gauges)) ==> M.HealthGaugesSound(registry.gauges)
      ensures IsListing(env, old(api.objects), listing)
      ensures api.WorkedSince(old(|api.log|)) ==> ok && Now() == AfterAbsent(env, discovered, old(Now()), listing)
    {
      hide Naming.GenerateCRName, M.HealthGaugesSound, AfterAbsent, Handle, Progress, MayBecome, OnlyAt, IsListing, Lists, Names,
           AllWork, NamesOf, OnlyCalls, GaugesOnlyAt, ForeignUntouched;
      ok, listing := true, [];
      NoNames(items);
      ghost var start := Now();
      ProgressStart(env, discovered, start.objects, items);
      NoneListed(env, discovered, start);
      for i := 0 to |items|
        invariant NamesOf(items, i, listing)
        invariant old(|api.log|) <= |api.log| && Progress(env, discovered, start.objects, api.objects, items, i)
        invariant ForeignUntouched(env, {}, before, Now(), api.log, first)
        invariant old(M.HealthGaugesSound(registry.gauges)) ==> M.HealthGaugesSound(registry.gauges)
        invariant api.WorkedSince(old(|api.log|)) ==> ok && Now() == AfterAbsent(env, discovered, start, listing)
      {
        ghost var u, now, log, mid := api.objects, Now(), api.log, |api.log|;
        ProgressItem(env, discovered, start.objects, api.objects, items, i, listing);
        var done := HandleListed(items[i], discovered);
        LogGrows(log, api.log, items[i].name);
        ForeignStep(env, {}, before, now, Now(), log, api.log, first, items[i].name);
        WorkSplit(api.faults, old(|api.log|), mid, |api.log|);
        ok := ok && done;
        ProgressStep(env, discovered, start.objects, u, api.objects, items, i);
        AfterAbsentStep(env, discovered, start, listing, items[i].name);
        NextName(items, i, listing);
        listing := listing + [items[i].name];
      }
      ProgressEnd(env, discovered, start.objects, api.objects, items);
      ListingOf(env, start.objects, items, listing);
    }

    /** The full pass. If the inventory cannot be read, nothing changes. */
    method ReconcileAll(host: Discovery.Host, times: nat -> nat)
      returns (ok: bool, ghost listing: seq<string>)
      modifies api, registry, recorder
      ensures old(|api.log|) <= |api.log|
      ensures old(AllContracts(api.objects)) ==> AllContracts(api.objects)
      ensures old(M.HealthGaugesSound(registry.gauges)) ==> M.HealthGaugesSound(registry.gauges)
      ensures var inventory := Discovery.Discover(host, env.node, env.rules);
              && (inventory.Err? ==> !ok && Now() == old(Now()))
              && (inventory.Ok? ==>
                    && ForeignUntouched(env, Discovered(env, inventory.value), old(Now()), Now(), api.log, old(|api.log|))
                    && OthersKept(env, Discovered(env, inventory.value), old(api.objects), api.objects)
                    && AllReported(env, inventory.value, |inventory.value|, api.faults, api.log, old(|api.log|), ok, api.objects))
              && (inventory.Ok? && api.WorkedSince(old(|api.log|)) ==>
                    && ok
                    && IsListing(env, old(api.objects), listing)
                    && Now() == AfterPass(env, old(Now()), inventory.value, times, listing))
    {
      hide Naming.GenerateCRName, M.HealthGaugesSound, AfterAbsent, MayBecome, OnlyAt, IsListing, Discovered, DiskStep, DiskSteps,
           AllContracts, Discovery.Discover, StatusReports, OnlyCalls, AllReported, AllWork, ForeignUntouched;
      ghost var before := api.objects;
      var found := Discovery.DiscoverDisks(host, env.node, env.rules);
      if found.Err? {
        return false, [];
      }
      var infos := found.value;
      ghost var discovered := Discovered(env, infos);
      ok, listing := MarkAbsentDisks(infos);
      if AllContracts(before) {
        HandledContracts(env, discovered, before, api.objects);
      }
      assert OthersKept(env, discovered, before, api.objects);
      ghost var first := old(|api.log|);
      ghost var middle := |api.log|;
      ForeignTaken(env, discovered, old(Now()), Now(), api.log, first);
      ok := ReconcileEach(infos, times, ok, first, discovered, old(Now()));
      WorkSplit(api.faults, first, middle, |api.log|);
    }

    /** The loop over the discovered disks. A disk that fails does not keep the others waiting. */
    method ReconcileEach(infos: seq<DiskInfo>, times: nat -> nat, sofar: bool, ghost first: nat, ghost discovered: set<string>,
                         ghost start: World)
      returns (ok: bool)
      requires first <= |api.log| && discovered == Discovered(env, infos)
      requires OthersKept(env, discovered, start.objects, api.objects)
      requires ForeignUntouched(env, discovered, start, Now(), api.log, first)
      modifies api, registry, recorder
      ensures old(|api.log|) <= |api.log|
      ensures old(AllContracts(api.objects)) ==> AllContracts(api.objects)
      ensures old(M.HealthGaugesSound(registry.gauges)) ==> M.HealthGaugesSound(registry.gauges)
      ensures OthersKept(env, discovered, start.objects, api.objects)
      ensures ForeignUntouched(env, discovered, start, Now(), api.log, first)
      ensures AllReported(env, infos, |infos|, api.faults, api.log, first, ok, api.objects)
      ensures api.WorkedSince(old(|api.log|)) && sofar ==> ok && Now() == DiskSteps(env, old(Now()), Jobs(infos, times))
    {
      hide NameOf, M.HealthGaugesSound, OnlyAt, Discovered, DiskStep, DiskSteps, AllContracts, StatusReports, OnlyCalls,
           AllReported, AllWork, OthersKept, DiskCollected, AgreesIfStored, MayReconcile, ForeignUntouched, GaugesOnlyAt;
      ok := sofar;
      NothingReported(env, infos, api.faults, api.log, first, ok, api.objects);
      ghost var mid, jobs := Now(), Jobs(infos, times);
      assert DiskSteps(env, mid, jobs[..0]) == mid by {
        NoSteps(env, mid, jobs);
      }
      for i := 0 to |infos|
        invariant old(|api.log|) <= |api.log|
        invariant AllReported(env, infos, i, api.faults, api.log, first, ok, api.objects)
        invariant old(AllContracts(api.objects)) ==> AllContracts(api.objects)
        invariant old(M.HealthGaugesSound(registry.gauges)) ==> M.HealthGaugesSound(registry.gauges)
        invariant OthersKept(env, discovered, start.objects, api.objects)
        invariant ForeignUntouched(env, discovered, start, Now(), api.log, first)
        invariant api.WorkedSince(old(|api.log|)) && sofar ==> ok && Now() == DiskSteps(env, mid, jobs[..i])
      {
        ghost var u, now, log, all := Now(), api.objects, api.log, ok;
        ghost var collected: bool;
        var done: bool;
        done, collected := ReconcileDisk(infos[i], times(i));
        ok := ok && done;
        SameOnlyAt(u.gauges, NameOf(env, infos[i]));
        if collected {
          CollectedOnlyAt(env, u, Now(), infos[i], times(i), done);
        }
        WorkSplit(api.faults, old(|api.log|), |log|, |api.log|);
        LogGrows(log, api.log, NameOf(env, infos[i]));
        ReportedStep(env, infos, i, api.faults, log, api.log, first, all, done, now, api.objects);
        IsDiscovered(env, infos, i);
        ForeignStep(env, discovered, start, u, Now(), log, api.log, first, NameOf(env, infos[i]));
        MayBecomeKept(env, discovered, start.objects, now, api.objects, NameOf(env, infos[i]));
        JobsStep(env, mid, infos, times, i);
      }
      assert jobs[..|infos|] == jobs;
    }

    /** The reaction to a changed spec: only this object and its disk are touched. */
    method Reconcile(name: string, host: Discovery.Host, now: nat) returns (ok: bool)
      modifies api, registry, recorder
      ensures old(|api.log|) <= |api.log|
      ensures OnlyAt(old(api.objects), api.objects, name)
      ensures old(AllContracts(api.objects)) ==> AllContracts(api.objects)
      ensures old(M.HealthGaugesSound(registry.gauges)) ==> M.HealthGaugesSound(registry.gauges)
      ensures name !in old(api.objects) || old(api.objects)[name].nodeName != env.node ==> Now() == old(Now())
      ensures Discovery.Discover(host, env.node, env.rules).Err? ==> Now() == old(Now())
      ensures name in old(api.objects) && Discovery.Discover(host, env.node, env.rules).Ok? ==>
                MayBeReconciled(env, name, Discovery.Discover(host, env.node, env.rules).value, now, old(api.objects)[name],
                                Lookup(api.objects, name))
      ensures api.WorkedSince(old(|api.log|)) ==>
                var inventory := Discovery.Discover(host, env.node, env.rules);
                && (ok <==> name !in old(api.objects) || old(api.objects)[name].nodeName != env.node || inventory.Ok?)
                && (name in old(api.objects) && old(api.objects)[name].nodeName == env.node && inventory.Ok? ==>
                      Now() == Reconciled(env, old(Now()), name, inventory.value, now))
    {
      hide Naming.GenerateCRName, M.HealthGaugesSound, DiskStep, AllContracts, Discovery.Discover, Marking, MissingGauges, M.Without,
           WarningEvents, MayBeReconciled, Reconciled, AllWork;
      KeptMay(env, name, host, now, api.objects);
      var got := api.Get(name);
      if got.Err? {
        return got.error == IsNotFound;
      }
      var cr := got.value;
      if cr.nodeName != env.node {
        return true;
      }
      var found := Discovery.DiscoverDisks(host, env.node, env.rules);
      if found.Err? {
        return false;
      }
      ok := ReconcileFound(name, cr, found.value, now);
      WorkSplit(api.faults, old(|api.log|), old(|api.log|) + 1, |api.log|);
    }

    method FindNamed(infos: seq<DiskInfo>, name: string) returns (r: Option<DiskInfo>)
      ensures r == FirstNamed(env, infos, name)
      ensures r.Some? ==> NameOf(env, r.value) == name
    {
      hide Naming.GenerateCRName;
      for i := 0 to |infos|
        invariant FirstNamed(env, infos, name) == FirstNamed(env, infos[i..], name)
      {
        assert infos[i..][0] == infos[i] && infos[i..][1..] == infos[i + 1..];
        if NameOf(env, infos[i]) == name {
          return Some(infos[i]);
        }
      }
      return None;
    }

    method ReconcileFound(name: string, cr: Cr, infos: seq<DiskInfo>, now: nat) returns (ok: bool)
      requires name in api.objects && api.objects[name] == cr
      modifies api, registry, recorder
      ensures old(|api.log|) <= |api.log|
      ensures OnlyAt(old(api.objects), api.objects, name)
      ensures old(AllContracts(api.objects)) ==> AllContracts(api.objects)
      ensures old(M.HealthGaugesSound(registry.gauges)) ==> M.HealthGaugesSound(registry.gauges)
      ensures MayBeReconciled(env, name, infos, now, cr, Lookup(api.objects, name))
      ensures api.WorkedSince(old(|api.log|)) ==> ok && Now() == Reconciled(env, old(Now()), name, infos, now)
    {
      hide Naming.GenerateCRName, NameOf, M.HealthGaugesSound, DiskStep, AllContracts, OnlyAt, FirstNamed, Reconciled, Gone,
           MayReconcile, MayGo, AllWork;
      var found := FindNamed(infos, name);
      if found.Some? {
        ReconciledPresent(env, Now(), name, infos, now);
        var done, _ := ReconcileDisk(found.value, now);
        ok := done;
      } else {
        ReconciledAbsent(env, Now(), name, infos, now);
        ok := ReconcileAbsent(name, cr);
      }
    }

    method ReconcileAbsent(name: string, cr: Cr) returns (ok: bool)
      requires name in api.objects && api.objects[name] == cr
      modifies api, registry, recorder
      ensures old(|api.log|) <= |api.log|
      ensures OnlyAt(old(api.objects), api.objects, name)
      ensures old(AllContracts(api.objects)) ==> AllContracts(api.objects)
      ensures old(M.HealthGaugesSound(registry.gauges)) ==> M.HealthGaugesSound(registry.gauges)
      ensures MayGo(env, cr, Lookup(api.objects, name))
      ensures api.WorkedSince(old(|api.log|)) ==> ok && Now() == Gone(env, old(Now()), name)
    {
      hide Naming.GenerateCRName, M.HealthGaugesSound, AllContracts, M.Without, MissingGauges, WarningEvents, OnlyAt, MayGo,
           StatusRuns.Marked, ExcludeRules.IsExcluded, AllWork;
      GoneMay(env, api.objects, registry.gauges, name);
      var info := cr.status.info;
      var deleted: bool;
      deleted, ok := DeleteIfExcluded(name, info);
      if ok && !deleted {
        ok := MarkDiskMissing(name, info.path, Occasion.Reconcile);
      }
    }
  }
}
