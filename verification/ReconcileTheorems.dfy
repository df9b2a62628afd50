/** What a pass without API errors establishes, and that a second pass changes nothing. */
module ReconcileTheorems {
  import opened Wrappers
  import opened DiskInfos
  import opened DiskStatus
  import opened ReconcileSpec
  import Assessment
  import Discovery
  import ExcludeRules
  import Naming
  import StatusRuns
  import M = Metrics

  // ----- Objects after the steps of a pass

  ghost predicate Named(env: Env, jobs: seq<Job>, n: string) {
    exists j :: 0 <= j < |jobs| && NameOf(env, jobs[j].0) == n
  }

  /** No later job has the name of job `i`. */
  ghost predicate IsLast(env: Env, jobs: seq<Job>, i: nat) {
    i < |jobs| && forall k :: i < k < |jobs| ==> NameOf(env, jobs[k].0) != NameOf(env, jobs[i].0)
  }

  lemma LastJob(env: Env, infos: seq<DiskInfo>, times: nat -> nat, i: nat)
    requires LastNamed(env, infos, i)
    ensures IsLast(env, Jobs(infos, times), i)
  {
    hide NameOf;
  }

  lemma StepAway(env: Env, w: World, job: Job, n: string)
    requires n != NameOf(env, job.0)
    ensures var o := DiskStep(env, w, job).objects; (n in o <==> n in w.objects) && (n in o ==> o[n] == w.objects[n])
  {
    hide Naming.GenerateCRName, StepWrites, CollectedEvents, Collected, M.SetAll;
  }

  lemma {:induction false} StepsAway(env: Env, w: World, jobs: seq<Job>, n: string)
    requires !Named(env, jobs, n)
    ensures var o := DiskSteps(env, w, jobs).objects; (n in o <==> n in w.objects) && (n in o ==> o[n] == w.objects[n])
    decreases |jobs|
  {
    hide DiskStep, NameOf;
    if jobs != [] {
      var k := |jobs| - 1;
      assert !Named(env, jobs[..k], n) by {
        assert forall j :: 0 <= j < k ==> jobs[..k][j] == jobs[j];
      }
      assert NameOf(env, jobs[k].0) != n;
      StepsAway(env, w, jobs[..k], n);
      StepAway(env, DiskSteps(env, w, jobs[..k]), jobs[k], n);
    }
  }

  /** The object of a job reports that job's collection. */
  ghost predicate Reports(env: Env, w: World, info: DiskInfo) {
    && StatusReports(env, w.objects, info)
    && w.objects[NameOf(env, info)].nodeLabel == Some(env.nodeLabel)
  }

  lemma StepReports(env: Env, w: World, job: Job)
    ensures Reports(env, DiskStep(env, w, job), job.0)
  {
    hide Naming.GenerateCRName, StepWrites, CollectedEvents, Collected, ReportsAnswer, M.SetAll;
    var (info, now) := job;
    CollectedReportsAnswer(Existing(env, w.objects, NameOf(env, info)).status, info, AnswerFor(env, w.objects, info), now);
  }

  lemma ReportsKept(env: Env, w: World, w': World, info: DiskInfo)
    requires Reports(env, w, info)
    requires var n := NameOf(env, info); n in w'.objects && w'.objects[n] == w.objects[n]
    ensures Reports(env, w', info)
  {
  }

  lemma {:induction false} StepsReport(env: Env, w: World, jobs: seq<Job>, i: nat)
    requires IsLast(env, jobs, i)
    ensures Reports(env, DiskSteps(env, w, jobs), jobs[i].0)
    decreases |jobs|
  {
    hide DiskStep, NameOf, Reports;
    var k := |jobs| - 1;
    var before := DiskSteps(env, w, jobs[..k]);
    if i == k {
      StepReports(env, before, jobs[k]);
    } else {
      assert IsLast(env, jobs[..k], i);
      StepsReport(env, w, jobs[..k], i);
      assert NameOf(env, jobs[k].0) != NameOf(env, jobs[i].0);
      StepAway(env, before, jobs[k], NameOf(env, jobs[i].0));
      HasObject(env, before, jobs[i].0);
      ReportsKept(env, before, DiskStep(env, before, jobs[k]), jobs[i].0);
    }
  }

  lemma HasObject(env: Env, w: World, info: DiskInfo)
    requires Reports(env, w, info)
    ensures NameOf(env, info) in w.objects
  {
  }

  // ----- Objects after a pass

  lemma {:induction false} SameMatch(node: string, d: DiskInfo, firmware: string, rules: seq<ExcludeRules.ExcludeRule>)
    ensures ExcludeRules.IsExcluded(node, d.(firmwareVersion := firmware), rules) <==> ExcludeRules.IsExcluded(node, d, rules)
    decreases |rules|
  {
    if rules != [] {
      SameMatch(node, d, firmware, rules[1..]);
    }
  }

  /** No rule matches what a collection stores about a disk that was not excluded. */
  lemma FreshNotExcluded(node: string, d: DiskInfo, a: Answer, rules: seq<ExcludeRules.ExcludeRule>)
    requires !ExcludeRules.IsExcluded(node, d, rules)
    ensures !ExcludeRules.IsExcluded(node, FreshInfo(d, a), rules)
  {
    if a.Data? && a.output.firmwareVersion != "" {
      SameMatch(node, d, a.output.firmwareVersion, rules);
    }
  }

  lemma NamedIff(env: Env, infos: seq<DiskInfo>, times: nat -> nat, n: string)
    ensures Named(env, Jobs(infos, times), n) <==> n in Discovered(env, infos)
  {
    hide Naming.GenerateCRName, NameOf;
    var jobs := Jobs(infos, times);
    assert forall j :: 0 <= j < |infos| ==> jobs[j].0 == infos[j];
    if Named(env, jobs, n) {
      var j :| 0 <= j < |jobs| && NameOf(env, jobs[j].0) == n;
      assert NameOf(env, infos[j]) in Discovered(env, infos);
    }
    if n in Discovered(env, infos) {
      var j :| 0 <= j < |infos| && NameOf(env, infos[j]) == n;
      assert NameOf(env, jobs[j].0) == n;
    }
  }

  /** Some job with this name is the last one. */
  lemma {:induction false} LastExists(env: Env, jobs: seq<Job>, n: string) returns (i: nat)
    requires Named(env, jobs, n)
    ensures IsLast(env, jobs, i) && NameOf(env, jobs[i].0) == n
    decreases |jobs|
  {
    hide NameOf;
    var k := |jobs| - 1;
    if NameOf(env, jobs[k].0) == n {
      i := k;
    } else {
      var j :| 0 <= j < |jobs| && NameOf(env, jobs[j].0) == n;
      assert jobs[..k][j] == jobs[j];
      i := LastExists(env, jobs[..k], n);
      assert jobs[..k][i] == jobs[i];
      forall m | i < m < |jobs| ensures NameOf(env, jobs[m].0) != NameOf(env, jobs[i].0) {
        if m < k {
          assert jobs[..k][m] == jobs[m];
        }
      }
    }
  }

  /** The objects of names without a discovered disk, before and after markAbsentDisks. */
  lemma AbsentPart(env: Env, w: World, discovered: set<string>, listing: seq<string>, mid: World, n: string)
    requires IsListing(env, w.objects, listing) && AbsentHandled(env, w, discovered, listing, mid)
    ensures n in mid.objects <==> n in w.objects && !Removed(env, w.objects[n])
    ensures n in mid.objects ==>
              mid.objects[n] == if Absent(env, discovered, n, w.objects[n]) then MarkedCr(w.objects[n]) else w.objects[n]
  {
    hide Excluded, StatusRuns.Marked, M.At, AbsentAt, MarkEvents;
    assert n in Names(listing) <==> n in w.objects && w.objects[n].nodeLabel == Some(env.nodeLabel);
  }

  lemma {:induction false} StepsOwner(env: Env, w: World, jobs: seq<Job>, n: string)
    requires n in w.objects ==> w.objects[n].nodeName == env.node
    ensures var o := DiskSteps(env, w, jobs).objects; n in o ==> o[n].nodeName == env.node
    decreases |jobs|
  {
    hide DiskStep;
    if jobs != [] {
      StepsOwner(env, w, jobs[..|jobs| - 1], n);
      StepOwner(env, DiskSteps(env, w, jobs[..|jobs| - 1]), jobs[|jobs| - 1], n);
    }
  }

  lemma StepOwner(env: Env, w: World, job: Job, n: string)
    requires n in w.objects ==> w.objects[n].nodeName == env.node
    ensures var o := DiskStep(env, w, job).objects; n in o ==> o[n].nodeName == env.node
  {
    hide Naming.GenerateCRName, StepWrites, CollectedEvents, Collected, M.SetAll;
  }

  /** Every discovered disk has a labelled object that reports its latest collection in this
      pass; if several disks share a name, the last one is reported. The object belongs to this
      node unless its name was taken by another node's object. */
  lemma DiscoveredDisksReported(env: Env, w: World, infos: seq<DiskInfo>, times: nat -> nat, listing: seq<string>, i: nat)
    requires IsListing(env, w.objects, listing) && LastNamed(env, infos, i)
    ensures var w', n := AfterPass(env, w, infos, times, listing), NameOf(env, infos[i]);
            && Reports(env, w', infos[i])
            && ((n in w.objects ==> w.objects[n].nodeName == env.node) ==>
                  n in w'.objects && w'.objects[n].nodeName == env.node && w'.objects[n].nodeLabel == Some(env.nodeLabel))
  {
    hide AbsentHandled, AfterAbsent, IsListing, DiskSteps, Naming.GenerateCRName, FreshInfo, Find, Assessment.Assess;
    var mid, w' := AfterAbsent(env, Discovered(env, infos), w, listing), AfterPass(env, w, infos, times, listing);
    ListingHandled(env, w, Discovered(env, infos), listing);
    var n := NameOf(env, infos[i]);
    LastJob(env, infos, times, i);
    StepsReport(env, mid, Jobs(infos, times), i);
    AbsentPart(env, w, Discovered(env, infos), listing, mid, n);
    if n in w.objects ==> w.objects[n].nodeName == env.node {
      StepsOwner(env, mid, Jobs(infos, times), n);
    }
  }

  /** An object of this node without a discovered disk is deleted if a rule matches what it
      stores, and otherwise it is marked as missing and stays the same apart from that mark.
      Objects of other nodes and objects without the label stay exactly the same, and no name
      appears that belongs to no discovered disk. */
  lemma OtherObjects(env: Env, w: World, infos: seq<DiskInfo>, times: nat -> nat, listing: seq<string>, n: string)
    requires IsListing(env, w.objects, listing) && n !in Discovered(env, infos)
    ensures var o, o' := w.objects, AfterPass(env, w, infos, times, listing).objects;
            && (n in o' ==> n in o)
            && (n in o ==>
                  if o[n].nodeName != env.node || o[n].nodeLabel != Some(env.nodeLabel) then n in o' && o'[n] == o[n]
                  else if ExcludeRules.IsExcluded(env.node, o[n].status.info, env.rules) then n !in o'
                  else n in o' && OnlyMissing(o[n], o'[n], InventoryScan))
  {
    hide AbsentHandled, AfterAbsent, ExcludeRules.IsExcluded, IsListing, DiskSteps, OnlyMissing, Discovered;
    var mid, w' := AfterAbsent(env, Discovered(env, infos), w, listing), AfterPass(env, w, infos, times, listing);
    ListingHandled(env, w, Discovered(env, infos), listing);
    AbsentPart(env, w, Discovered(env, infos), listing, mid, n);
    NamedIff(env, infos, times, n);
    StepsAway(env, mid, Jobs(infos, times), n);
    if n in w.objects {
      MarkedOnly(w.objects[n], InventoryScan);
    }
  }

  /** The object got the DiskMissing mark and is the same otherwise. */
  ghost predicate OnlyMissing(before: Cr, after: Cr, what: Occasion) {
    && after == before.(status := before.status.(conditions := after.status.conditions))
    && Find(after.status.conditions, DataCollected)
       == Some(Condition(DataCollected, IsFalse, DiskMissing, NotFoundDuring(what)))
    && forall k :: k != DataCollected ==> Find(after.status.conditions, k) == Find(before.status.conditions, k)
  }

  lemma MarkedOnly(cr: Cr, what: Occasion)
    ensures OnlyMissing(cr, cr.(status := StatusRuns.Marked(cr.status, what)), what)
  {
    var cs := cr.status.conditions;
    forall k ensures Find(Upsert(cs, MissingCondition(what)), k)
                  == if k == DataCollected then Some(MissingCondition(what)) else Find(cs, k) {
      FindUpsert(cs, MissingCondition(what), k);
    }
  }

  // ----- Objects of other nodes

  function With(w: World, n: string, cr: Cr): World { w.(objects := w.objects[n := cr]) }

  /** The listing without this name. */
  function Dropped(listing: seq<string>, n: string): seq<string> {
    if listing == [] then []
    else Dropped(listing[..|listing| - 1], n) + (if listing[|listing| - 1] == n then [] else [listing[|listing| - 1]])
  }

  lemma {:induction false} DroppedMembers(listing: seq<string>, n: string)
    ensures forall x :: x in Dropped(listing, n) <==> x in listing && x != n
    ensures (forall i, j :: 0 <= i < j < |listing| ==> listing[i] != listing[j]) ==>
              forall i, j :: 0 <= i < j < |Dropped(listing, n)| ==> Dropped(listing, n)[i] != Dropped(listing, n)[j]
    decreases |listing|
  {
    if listing != [] {
      var rest, x := listing[..|listing| - 1], listing[|listing| - 1];
      assert listing == rest + [x];
      DroppedMembers(rest, n);
      var d := Dropped(rest, n);
      assert forall i :: 0 <= i < |d| ==> d[i] in rest;
    }
  }

  lemma NamesAreMembers(listing: seq<string>)
    ensures forall x :: x in Names(listing) <==> x in listing
  {
  }

  lemma DroppedLists(env: Env, objects: Objects, n: string, cr: Cr, listing: seq<string>)
    requires n !in objects && IsListing(env, objects[n := cr], listing)
    ensures IsListing(env, objects, Dropped(listing, n))
  {
    DroppedMembers(listing, n);
    NamesAreMembers(listing);
    NamesAreMembers(Dropped(listing, n));
  }

  lemma HandleBeside(env: Env, discovered: set<string>, w: World, n: string, cr: Cr, m: string)
    requires n !in w.objects && m != n
    ensures Handle(env, discovered, With(w, n, cr), m) == With(Handle(env, discovered, w, m), n, cr)
    ensures n !in Handle(env, discovered, w, m).objects
  {
    hide Removed, Absent, MissingGauges, M.Without, WarningEvents, MarkedCr;
    if m in w.objects {
      Beside(w.objects, n, cr, m, MarkedCr(w.objects[m]));
    }
  }

  lemma Beside(objects: Objects, n: string, cr: Cr, m: string, other: Cr)
    requires m != n
    ensures objects[n := cr][m := other] == objects[m := other][n := cr]
    ensures objects[n := cr] - {m} == (objects - {m})[n := cr]
  {
  }

  lemma HandleForeign(env: Env, discovered: set<string>, w: World, n: string, cr: Cr)
    requires cr.nodeName != env.node
    ensures Handle(env, discovered, With(w, n, cr), n) == With(w, n, cr)
  {
  }

  lemma {:induction false} AbsentBeside(env: Env, discovered: set<string>, w: World, n: string, cr: Cr, listing: seq<string>)
    requires n !in w.objects && (cr.nodeName != env.node || n !in listing)
    ensures AfterAbsent(env, discovered, With(w, n, cr), listing)
         == With(AfterAbsent(env, discovered, w, Dropped(listing, n)), n, cr)
    ensures n !in AfterAbsent(env, discovered, w, Dropped(listing, n)).objects
    decreases |listing|
  {
    hide Handle, With;
    if listing != [] {
      var rest, m := listing[..|listing| - 1], listing[|listing| - 1];
      AbsentBeside(env, discovered, w, n, cr, rest);
      var u := AfterAbsent(env, discovered, w, Dropped(rest, n));
      if m == n {
        HandleForeign(env, discovered, u, n, cr);
        assert Dropped(rest, n) + [] == Dropped(rest, n);
      } else {
        HandleBeside(env, discovered, u, n, cr, m);
        AfterAbsentStep(env, discovered, w, Dropped(rest, n), m);
      }
    } else {
      assert With(w, n, cr) == With(AfterAbsent(env, discovered, w, []), n, cr);
    }
  }

  lemma StepBeside(env: Env, w: World, n: string, cr: Cr, job: Job)
    requires n !in w.objects && NameOf(env, job.0) != n
    ensures DiskStep(env, With(w, n, cr), job) == With(DiskStep(env, w, job), n, cr)
    ensures n !in DiskStep(env, w, job).objects
  {
    hide NameOf, StepWrites, CollectedEvents, Collected, M.SetAll;
    var name := NameOf(env, job.0);
    var stored := Existing(env, w.objects, name);
    Beside(w.objects, n, cr, name,
           Labelled(env, stored).(status := Collected(stored.status, job.0, AnswerFor(env, w.objects, job.0), job.1)));
  }

  lemma {:induction false} StepsBeside(env: Env, w: World, n: string, cr: Cr, jobs: seq<Job>)
    requires n !in w.objects && !Named(env, jobs, n)
    ensures DiskSteps(env, With(w, n, cr), jobs) == With(DiskSteps(env, w, jobs), n, cr)
    ensures n !in DiskSteps(env, w, jobs).objects
    decreases |jobs|
  {
    hide DiskStep, NameOf, With;
    if jobs != [] {
      var k := |jobs| - 1;
      assert !Named(env, jobs[..k], n) by {
        assert forall j :: 0 <= j < k ==> jobs[..k][j] == jobs[j];
      }
      assert NameOf(env, jobs[k].0) != n;
      StepsBeside(env, w, n, cr, jobs[..k]);
      StepBeside(env, DiskSteps(env, w, jobs[..k]), n, cr, jobs[k]);
    }
  }

  /** An object that belongs to another node, or lacks this node's label, has no part in a pass: with
      it and without it the pass does the same to all other objects, to the gauges and to the events,
      and it is itself unchanged, whether or not the label selects it. */
  lemma ForeignObjectIrrelevant(env: Env, w: World, infos: seq<DiskInfo>, times: nat -> nat, listing: seq<string>,
                                n: string, cr: Cr)
    requires n !in w.objects && n !in Discovered(env, infos)
    requires cr.nodeName != env.node || cr.nodeLabel != Some(env.nodeLabel)
    requires IsListing(env, w.objects[n := cr], listing)
    ensures IsListing(env, w.objects, Dropped(listing, n))
    ensures AfterPass(env, w.(objects := w.objects[n := cr]), infos, times, listing)
         == (var alone := AfterPass(env, w, infos, times, Dropped(listing, n)); alone.(objects := alone.objects[n := cr]))
  {
    hide AfterAbsent, DiskSteps, Discovered, Dropped;
    DroppedLists(env, w.objects, n, cr, listing);
    NamesAreMembers(listing);
    var discovered := Discovered(env, infos);
    AbsentBeside(env, discovered, w, n, cr, listing);
    NamedIff(env, infos, times, n);
    StepsBeside(env, AfterAbsent(env, discovered, w, Dropped(listing, n)), n, cr, Jobs(infos, times));
  }

  function ArgsAt(objects: Objects, n: string): string { if n in objects then objects[n].args else "" }

  lemma StepArgs(env: Env, w: World, job: Job, n: string)
    ensures ArgsAt(DiskStep(env, w, job).objects, n) == ArgsAt(w.objects, n)
    ensures n in w.objects ==> n in DiskStep(env, w, job).objects
  {
    hide Naming.GenerateCRName, StepWrites, CollectedEvents, Collected, M.SetAll;
  }

  lemma {:induction false} StepsArgs(env: Env, w: World, jobs: seq<Job>, n: string)
    ensures ArgsAt(DiskSteps(env, w, jobs).objects, n) == ArgsAt(w.objects, n)
    decreases |jobs|
  {
    hide DiskStep, ArgsAt;
    if jobs != [] {
      StepsArgs(env, w, jobs[..|jobs| - 1], n);
      StepArgs(env, DiskSteps(env, w, jobs[..|jobs| - 1]), jobs[|jobs| - 1], n);
    }
  }

  /** A pass keeps the smartctl arguments a user set on an object, with one exception: an object
      whose stored description matches a rule is deleted even if its disk is still monitored, and
      the object created in its place has no arguments. */
  lemma ArgumentsKept(env: Env, w: World, infos: seq<DiskInfo>, times: nat -> nat, listing: seq<string>, n: string)
    requires IsListing(env, w.objects, listing) && n in w.objects
    ensures ArgsAt(AfterPass(env, w, infos, times, listing).objects, n)
         == if Removed(env, w.objects[n]) then "" else w.objects[n].args
  {
    hide AbsentHandled, AfterAbsent, IsListing, DiskSteps, Removed, Absent;
    var mid := AfterAbsent(env, Discovered(env, infos), w, listing);
    ListingHandled(env, w, Discovered(env, infos), listing);
    AbsentPart(env, w, Discovered(env, infos), listing, mid, n);
    StepsArgs(env, mid, Jobs(infos, times), n);
  }

  const SDA_RULE := ExcludeRules.EMPTY.(name := "sda")

  function KernelDisk(name: string): DiskInfo { NO_INFO.(name := name, wwn := "0x5000c500a1b2c3d4") }

  /** A concrete loss, on any node: a rule excludes sda, and an object describes a disk that was
      once sda and that the user gave arguments. The same disk is now sdb and not excluded. The pass
      deletes the object and makes it anew, without the arguments. */
  lemma ArgumentsLostExample(node: string, nodeLabel: string, hash: Naming.ShortHash, collect: (string, string) -> Answer,
                             gauges: M.Gauges, events: seq<Event>, times: nat -> nat)
    ensures var env := Env(node, nodeLabel, [SDA_RULE], hash, collect);
            var n := NameOf(env, KernelDisk("sdb"));
            var cr := Cr(node, Some(nodeLabel), "-d sat", NEW_STATUS.(info := KernelDisk("sda")));
            var w := World(map[n := cr], gauges, events);
            var o := AfterPass(env, w, [KernelDisk("sdb")], times, [n]).objects;
            && NameOf(env, KernelDisk("sda")) == n
            && IsListing(env, w.objects, [n]) && NoneExcluded(env, [KernelDisk("sdb")])
            && n in o && o[n].args == "" && cr.args != ""
  {
    hide AfterPass, Naming.CleanNode, Naming.CleanId, Naming.Kept, Reports, ArgsAt, ExcludeRules.IsExcluded;
    var env := Env(node, nodeLabel, [SDA_RULE], hash, collect);
    var n := NameOf(env, KernelDisk("sdb"));
    var cr := Cr(node, Some(nodeLabel), "-d sat", NEW_STATUS.(info := KernelDisk("sda")));
    var w, infos := World(map[n := cr], gauges, events), [KernelDisk("sdb")];
    SameName(env);
    SdaRuleMatches(node);
    assert Names([n]) == {n} by { NamesOfOne(n); }
    assert LastNamed(env, infos, 0);
    DiscoveredDisksReported(env, w, infos, times, [n], 0);
    ArgumentsKept(env, w, infos, times, [n], n);
    ArgsThere(AfterPass(env, w, infos, times, [n]).objects, n);
  }

  lemma ArgsThere(o: Objects, n: string)
    requires n in o
    ensures ArgsAt(o, n) == o[n].args
  {
  }

  lemma NamesOfOne(n: string)
    ensures Names([n]) == {n}
  {
    assert [n][0] == n;
  }

  lemma SameName(env: Env)
    ensures NameOf(env, KernelDisk("sda")) == NameOf(env, KernelDisk("sdb"))
  {
    assert Naming.RawId(KernelDisk("sda")) == Naming.RawId(KernelDisk("sdb"));
  }

  lemma SdaRuleMatches(node: string)
    ensures ExcludeRules.IsExcluded(node, KernelDisk("sda"), [SDA_RULE])
    ensures !ExcludeRules.IsExcluded(node, KernelDisk("sdb"), [SDA_RULE])
  {
    var rules := [SDA_RULE];
    assert "sda"[2] != "sdb"[2];
    assert rules[0].name == "sda" && KernelDisk("sdb").name == "sdb" && rules[0].name != KernelDisk("sdb").name;
    assert !ExcludeRules.Matches(rules[0], node, KernelDisk("sdb")) && ExcludeRules.Matches(rules[0], node, KernelDisk("sda"));
    assert rules[1..] == [];
    assert ExcludeRules.FindMatchingRule(node, KernelDisk("sdb"), rules[1..]).None?;
  }

  /** What discovery guarantees about the disks it reports, see Discovery.MonitoredNotExcluded. */
  predicate NoneExcluded(env: Env, infos: seq<DiskInfo>) {
    forall d :: d in infos ==> !ExcludeRules.IsExcluded(env.node, d, env.rules)
  }

  /** After a pass over what discovery reports, no object of this node matches an exclusion rule. */
  lemma NoExcludedSurvives(env: Env, w: World, infos: seq<DiskInfo>, times: nat -> nat, listing: seq<string>, n: string)
    requires NoneExcluded(env, infos) && IsListing(env, w.objects, listing)
    ensures var o := AfterPass(env, w, infos, times, listing).objects;
            n in o && o[n].nodeName == env.node && o[n].nodeLabel == Some(env.nodeLabel) ==>
              !ExcludeRules.IsExcluded(env.node, o[n].status.info, env.rules)
  {
    hide AfterAbsent, IsListing, DiskSteps, ExcludeRules.IsExcluded, Naming.GenerateCRName;
    var mid, w' := AfterAbsent(env, Discovered(env, infos), w, listing), AfterPass(env, w, infos, times, listing);
    if n !in Discovered(env, infos) {
      OtherObjects(env, w, infos, times, listing, n);
    } else if n in w'.objects {
      NamedIff(env, infos, times, n);
      var jobs := Jobs(infos, times);
      var i := LastExists(env, jobs, n);
      assert jobs[i].0 == infos[i];
      StepsReport(env, mid, jobs, i);
      FreshNotExcluded(env.node, infos[i], env.collect(infos[i].path, w'.objects[n].args), env.rules);
    }
  }

  // ----- Gauges after a pass

  lemma StepOwned(env: Env, name: string, info: DiskInfo, a: Answer)
    ensures M.Owned(StepWrites(env, name, info, a), env.node, name)
  {
    hide M.PublishWrites, Assessment.Assess;
    if a.Data? {
      var h := Assessment.Assess(Some(a.output)).status;
      M.PublishPieces(env.node, name, FreshInfo(info, a), a.output, h, M.Plain(M.Device, "", "", ""));
    }
  }

  /** Writes for one disk leave the series of other disks alone. */
  lemma OwnedAway(g: M.Gauges, w: M.Writes, node: string, disk: string, s: M.Series)
    requires M.Owned(w, node, disk) && s.vec != M.Version && !M.OfDisk(s, node, disk)
    ensures M.At(M.SetAll(g, w), s) == M.At(g, s)
  {
    M.AtSetAll(g, w, s);
    M.FinalIsWritten(w, s);
  }

  lemma StepGauges(env: Env, w: World, job: Job)
    ensures DiskStep(env, w, job).gauges
         == M.SetAll(w.gauges, StepWrites(env, NameOf(env, job.0), job.0, AnswerFor(env, w.objects, job.0)))
  {
    hide Naming.GenerateCRName, StepWrites, CollectedEvents, Collected, M.SetAll;
  }

  lemma {:induction false} StepsGaugesAway(env: Env, w: World, jobs: seq<Job>, s: M.Series)
    requires s.vec != M.Version && (s.node == env.node ==> !Named(env, jobs, s.disk))
    ensures M.At(DiskSteps(env, w, jobs).gauges, s) == M.At(w.gauges, s)
    decreases |jobs|
  {
    hide DiskStep, NameOf, AnswerFor, M.SetAll, StepWrites, M.At;
    if jobs != [] {
      var k := |jobs| - 1;
      assert s.node == env.node ==> !Named(env, jobs[..k], s.disk) by {
        assert forall j :: 0 <= j < k ==> jobs[..k][j] == jobs[j];
      }
      StepsGaugesAway(env, w, jobs[..k], s);
      var u, name := DiskSteps(env, w, jobs[..k]), NameOf(env, jobs[k].0);
      var a := AnswerFor(env, u.objects, jobs[k].0);
      StepGauges(env, u, jobs[k]);
      StepOwned(env, name, jobs[k].0, a);
      OwnedAway(u.gauges, StepWrites(env, name, jobs[k].0, a), env.node, name, s);
    }
  }

  /** The series of a name without a discovered disk. An object marked as missing keeps no
      reading and reports a failed collection on its path; a deleted one keeps no series at all;
      every other disk, of this node or another, keeps each series exactly as it was. */
  lemma OtherGauges(env: Env, w: World, infos: seq<DiskInfo>, times: nat -> nat, listing: seq<string>, s: M.Series)
    requires IsListing(env, w.objects, listing) && s.vec != M.Version
    requires s.node == env.node ==> s.disk !in Discovered(env, infos)
    ensures var g := AfterPass(env, w, infos, times, listing).gauges;
            if s.node == env.node && s.disk in w.objects && w.objects[s.disk].nodeName == env.node
               && w.objects[s.disk].nodeLabel == Some(env.nodeLabel)
            then
              var info := w.objects[s.disk].status.info;
              if ExcludeRules.IsExcluded(env.node, info, env.rules) then M.At(g, s) == None
              else
                && (s.vec != M.CollectionSuccess ==> M.At(g, s) == None)
                && (s == M.Series(M.CollectionSuccess, env.node, s.disk, info.path, M.NoExtra) ==> M.At(g, s) == Some(0))
            else M.At(g, s) == M.At(w.gauges, s)
  {
    hide AfterAbsent, DiskSteps, ExcludeRules.IsExcluded, NameOf, M.At, AbsentObjects, MarkEvents;
    var mid := AfterAbsent(env, Discovered(env, infos), w, listing);
    ListingHandled(env, w, Discovered(env, infos), listing);
    NamedIff(env, infos, times, s.disk);
    StepsGaugesAway(env, mid, Jobs(infos, times), s);
    assert M.At(mid.gauges, s) == AbsentAt(env, w.objects, Discovered(env, infos), Names(listing), w.gauges, s);
  }

  lemma StepHot(env: Env, w: World, job: Job)
    requires M.HealthGaugesSound(w.gauges)
    ensures var w' := DiskStep(env, w, job);
            var name := NameOf(env, job.0);
            var a := AnswerFor(env, w.objects, job.0);
            && M.HealthGaugesSound(w'.gauges)
            && (a.Data? ==> M.IsHot(w'.gauges, env.node, name, job.0.path, Assessment.Assess(Some(a.output)).status))
  {
    hide Naming.GenerateCRName, M.HealthGaugesSound, M.IsHot, M.PublishWrites, Assessment.Assess, CollectedEvents, Collected, DiskStep,
         AnswerFor, M.SetAll;
    var (info, now) := job;
    var name, a, g := NameOf(env, info), AnswerFor(env, w.objects, info), w.gauges;
    StepGauges(env, w, job);
    var s, v := M.Plain(M.CollectionSuccess, env.node, name, info.path), if a.Data? then 1 else 0;
    var first := [(s, v)];
    OneWrite(g, s, v);
    M.SetSound(g, s, v);
    if a.Data? {
      var h := Assessment.Assess(Some(a.output)).status;
      var p := M.PublishWrites(env.node, name, FreshInfo(info, a), a.output, h);
      M.SetAllConcat(g, first, p);
      Assessment.NeverUnknown(a.output);
      M.EveryStatus(h);
      M.PublishSound(g[s := v], env.node, name, FreshInfo(info, a), a.output, h);
    } else {
      assert first + [] == first;
    }
  }

  lemma OneWrite(g: M.Gauges, s: M.Series, v: int)
    ensures M.SetAll(g, [(s, v)]) == g[s := v]
  {
    assert [(s, v)][..0] == [];
  }

  /** markAbsentDisks removes health series only as whole groups. */
  lemma AbsentSound(env: Env, w: World, discovered: set<string>, listing: seq<string>, mid: World)
    requires AbsentHandled(env, w, discovered, listing, mid) && M.HealthGaugesSound(w.gauges)
    ensures M.HealthGaugesSound(mid.gauges)
  {
    hide AbsentObjects, MarkEvents, Names, M.At, Excluded;
    forall node, disk, device ensures M.OneHot(mid.gauges, node, disk, device) {
      assert M.OneHot(w.gauges, node, disk, device);
      var touched := node == env.node && disk in w.objects && disk in Names(listing)
                     && (Removed(env, w.objects[disk]) || Absent(env, discovered, disk, w.objects[disk]));
      forall h ensures M.At(mid.gauges, M.StatusSeries(node, disk, device, h))
                    == if touched then None else M.At(w.gauges, M.StatusSeries(node, disk, device, h)) {
        assert M.At(mid.gauges, M.StatusSeries(node, disk, device, h))
            == AbsentAt(env, w.objects, discovered, Names(listing), w.gauges, M.StatusSeries(node, disk, device, h));
      }
      if touched {
        assert M.NoHealth(mid.gauges, node, disk, device);
      } else {
        M.SameOneHot(w.gauges, mid.gauges, node, disk, device);
      }
    }
  }

  lemma {:induction false} StepsSound(env: Env, w: World, jobs: seq<Job>)
    requires M.HealthGaugesSound(w.gauges)
    ensures M.HealthGaugesSound(DiskSteps(env, w, jobs).gauges)
    decreases |jobs|
  {
    hide DiskStep, M.HealthGaugesSound;
    if jobs != [] {
      StepsSound(env, w, jobs[..|jobs| - 1]);
      StepHot(env, DiskSteps(env, w, jobs[..|jobs| - 1]), jobs[|jobs| - 1]);
    }
  }

  /** The gauges show whether the collection for this object succeeded and, if so, its health. */
  ghost predicate ShownBy(env: Env, g: M.Gauges, name: string, info: DiskInfo, cr: Cr) {
    var a := env.collect(info.path, cr.args);
    && M.At(g, M.Series(M.CollectionSuccess, env.node, name, info.path, M.NoExtra)) == Some(if a.Data? then 1 else 0)
    && (a.Data? ==>
          && cr.status.health == Assessment.Assess(Some(a.output)).status
          && M.IsHot(g, env.node, name, info.path, cr.status.health))
  }

  ghost predicate ShowsHealth(env: Env, w: World, info: DiskInfo) {
    NameOf(env, info) in w.objects && ShownBy(env, w.gauges, NameOf(env, info), info, w.objects[NameOf(env, info)])
  }

  lemma StepShows(env: Env, w: World, job: Job)
    requires M.HealthGaugesSound(w.gauges)
    ensures ShowsHealth(env, DiskStep(env, w, job), job.0)
  {
    hide Naming.GenerateCRName, M.HealthGaugesSound, M.IsHot, StepWrites, Assessment.Assess, CollectedEvents, M.SetAll, FreshInfo, M.At;
    StepHot(env, w, job);
    StepGauges(env, w, job);
    SuccessShown(env, w.gauges, NameOf(env, job.0), job.0, AnswerFor(env, w.objects, job.0));
  }

  lemma SuccessShown(env: Env, g: M.Gauges, name: string, info: DiskInfo, a: Answer)
    ensures M.At(M.SetAll(g, StepWrites(env, name, info, a)), M.Series(M.CollectionSuccess, env.node, name, info.path, M.NoExtra))
         == Some(if a.Data? then 1 else 0)
  {
    hide M.PublishWrites, Assessment.Assess, FreshInfo, M.SetAll, M.At;
    var s := M.Series(M.CollectionSuccess, env.node, name, info.path, M.NoExtra);
    M.AtSetAll(g, StepWrites(env, name, info, a), s);
    var first := [(s, if a.Data? then 1 else 0)];
    M.WrittenOnce(first, 0);
    if a.Data? {
      var h := Assessment.Assess(Some(a.output)).status;
      M.FinalConcat(first, M.PublishWrites(env.node, name, FreshInfo(info, a), a.output, h), s);
      M.PublishAvoids(env.node, name, FreshInfo(info, a), a.output, h, s);
    } else {
      assert first + [] == first;
    }
  }

  lemma HotKept(g: M.Gauges, w: M.Writes, node: string, disk: string, other: string, device: string,
                hot: Assessment.Health)
    requires M.Owned(w, node, other) && disk != other && M.IsHot(g, node, disk, device, hot)
    ensures M.IsHot(M.SetAll(g, w), node, disk, device, hot)
  {
    hide M.SetAll, M.At, M.Owned;
    forall h
      ensures M.At(M.SetAll(g, w), M.StatusSeries(node, disk, device, h)) == M.At(g, M.StatusSeries(node, disk, device, h))
    {
      OwnedAway(g, w, node, other, M.StatusSeries(node, disk, device, h));
    }
  }

  lemma ShownKept(env: Env, g: M.Gauges, w: M.Writes, name: string, other: string, info: DiskInfo, cr: Cr)
    requires ShownBy(env, g, name, info, cr) && M.Owned(w, env.node, other) && name != other
    ensures ShownBy(env, M.SetAll(g, w), name, info, cr)
  {
    hide Assessment.Assess, M.SetAll, M.IsHot, M.At, M.Owned;
    OwnedAway(g, w, env.node, other, M.Series(M.CollectionSuccess, env.node, name, info.path, M.NoExtra));
    if env.collect(info.path, cr.args).Data? {
      HotKept(g, w, env.node, name, other, info.path, cr.status.health);
    }
  }

  lemma StepKeepsHealth(env: Env, w: World, job: Job, info: DiskInfo)
    requires ShowsHealth(env, w, info) && NameOf(env, job.0) != NameOf(env, info)
    ensures ShowsHealth(env, DiskStep(env, w, job), info)
  {
    hide NameOf, StepWrites, M.SetAll, DiskStep, ShownBy, M.Owned;
    var name, other := NameOf(env, info), NameOf(env, job.0);
    var b := AnswerFor(env, w.objects, job.0);
    StepAway(env, w, job, name);
    StepGauges(env, w, job);
    StepOwned(env, other, job.0, b);
    ShownKept(env, w.gauges, StepWrites(env, other, job.0, b), name, other, info, w.objects[name]);
  }

  lemma {:induction false} StepsShow(env: Env, w: World, jobs: seq<Job>, i: nat)
    requires IsLast(env, jobs, i) && M.HealthGaugesSound(w.gauges)
    ensures ShowsHealth(env, DiskSteps(env, w, jobs), jobs[i].0)
    decreases |jobs|
  {
    hide DiskStep, NameOf, ShowsHealth, M.HealthGaugesSound;
    var k := |jobs| - 1;
    var before := DiskSteps(env, w, jobs[..k]);
    StepsSound(env, w, jobs[..k]);
    if i == k {
      StepShows(env, before, jobs[k]);
    } else {
      assert IsLast(env, jobs[..k], i);
      StepsShow(env, w, jobs[..k], i);
      assert NameOf(env, jobs[k].0) != NameOf(env, jobs[i].0);
      StepKeepsHealth(env, before, jobs[k], jobs[i].0);
    }
  }

  /** After a pass every discovered disk shows whether its collection succeeded and, if so, its
      assessed health: of the seven status gauges of its device exactly the one equal to
      status.health is 1. */
  lemma DiscoveredDisksShowHealth(env: Env, w: World, infos: seq<DiskInfo>, times: nat -> nat, listing: seq<string>,
                                  i: nat)
    requires IsListing(env, w.objects, listing) && LastNamed(env, infos, i)
    requires M.HealthGaugesSound(w.gauges)
    ensures var w' := AfterPass(env, w, infos, times, listing);
            ShowsHealth(env, w', infos[i]) && M.HealthGaugesSound(w'.gauges)
  {
    hide AbsentHandled, AfterAbsent, IsListing, DiskSteps, ShowsHealth, NameOf, M.HealthGaugesSound;
    var mid := AfterAbsent(env, Discovered(env, infos), w, listing);
    ListingHandled(env, w, Discovered(env, infos), listing);
    LastJob(env, infos, times, i);
    AbsentSound(env, w, Discovered(env, infos), listing, mid);
    StepsSound(env, mid, Jobs(infos, times));
    StepsShow(env, mid, Jobs(infos, times), i);
  }

  // ----- A second pass

  /** The status after collecting the same answer again. */
  function Later(s: Status, a: Answer, now: nat): Status { if a.Data? then s.(collectedAt := Some(now)) else s }

  /** Collecting this disk again would change nothing but the collection time. */
  ghost predicate Steady(env: Env, w: World, info: DiskInfo) {
    var name, a := NameOf(env, info), AnswerFor(env, w.objects, info);
    && name in w.objects
    && w.objects[name].nodeLabel == Some(env.nodeLabel)
    && (forall now :: Collected(w.objects[name].status, info, a, now) == Later(w.objects[name].status, a, now))
    && CollectedEvents(w.objects[name].status, info, a) == []
    && M.Settled(w.gauges, StepWrites(env, name, info, a))
  }

  lemma WritesSettle(g: M.Gauges, w: M.Writes)
    ensures M.Settled(M.SetAll(g, w), w)
  {
    forall s | M.Final(w, s).Some? ensures M.At(M.SetAll(g, w), s) == M.Final(w, s) {
      M.AtSetAll(g, w, s);
    }
  }

  lemma StepStores(env: Env, w: World, job: Job)
    ensures var name := NameOf(env, job.0);
            var cr := Existing(env, w.objects, name);
            var o := DiskStep(env, w, job).objects;
            && name in o
            && o[name] == Cr(cr.nodeName, Some(env.nodeLabel), cr.args,
                             Collected(cr.status, job.0, AnswerFor(env, w.objects, job.0), job.1))
  {
    hide NameOf, StepWrites, CollectedEvents, Collected, M.SetAll, Existing;
  }

  /** Answers depend on the arguments alone, which a collection keeps. */
  lemma SameAnswer(env: Env, w: World, job: Job)
    ensures AnswerFor(env, DiskStep(env, w, job).objects, job.0) == AnswerFor(env, w.objects, job.0)
  {
    hide DiskStep, NameOf, Collected;
    StepStores(env, w, job);
  }

  lemma StepSteady(env: Env, w: World, job: Job)
    ensures Steady(env, DiskStep(env, w, job), job.0)
  {
    hide NameOf, StepWrites, CollectedEvents, Collected, M.SetAll, M.Settled, DiskStep, Existing;
    var (info, now) := job;
    var name, a := NameOf(env, info), AnswerFor(env, w.objects, info);
    StepStores(env, w, job);
    StepGauges(env, w, job);
    assert AnswerFor(env, DiskStep(env, w, job).objects, info) == a by { SameAnswer(env, w, job); }
    var s := Existing(env, w.objects, name).status;
    var t := Collected(s, info, a, now);
    forall later ensures Collected(t, info, a, later) == Later(t, a, later) {
      CollectedTwice(s, info, a, now, later);
    }
    CollectedTwice(s, info, a, now, now);
    WritesSettle(w.gauges, StepWrites(env, name, info, a));
  }

  /** Writes for another disk leave settled writes settled. */
  lemma StaysSettled(g: M.Gauges, node: string, disk: string, settled: M.Writes, other: string, w: M.Writes)
    requires M.Owned(settled, node, disk) && M.Owned(w, node, other) && disk != other && M.Settled(g, settled)
    ensures M.Settled(M.SetAll(g, w), settled)
  {
    forall s | M.Final(settled, s).Some? ensures M.At(M.SetAll(g, w), s) == M.Final(settled, s) {
      M.AtSetAll(g, w, s);
      M.FinalIsWritten(settled, s);
      M.FinalIsWritten(w, s);
    }
  }

  lemma StepKeepsSteady(env: Env, w: World, job: Job, info: DiskInfo)
    requires Steady(env, w, info) && NameOf(env, job.0) != NameOf(env, info)
    ensures Steady(env, DiskStep(env, w, job), info)
  {
    hide NameOf, StepWrites, CollectedEvents, Collected, M.SetAll, M.Settled, DiskStep, Later;
    var name, other := NameOf(env, info), NameOf(env, job.0);
    StepAway(env, w, job, name);
    StepGauges(env, w, job);
    var a, b := AnswerFor(env, w.objects, info), AnswerFor(env, w.objects, job.0);
    StepOwned(env, name, info, a);
    StepOwned(env, other, job.0, b);
    StaysSettled(w.gauges, env.node, name, StepWrites(env, name, info, a), other, StepWrites(env, other, job.0, b));
  }

  ghost predicate Distinct(env: Env, jobs: seq<Job>) {
    forall j, k :: 0 <= j < k < |jobs| ==> NameOf(env, jobs[j].0) != NameOf(env, jobs[k].0)
  }

  lemma {:induction false} StepsSteady(env: Env, w: World, jobs: seq<Job>, i: nat)
    requires IsLast(env, jobs, i)
    ensures Steady(env, DiskSteps(env, w, jobs), jobs[i].0)
    decreases |jobs|
  {
    hide DiskStep, NameOf, Steady;
    var k := |jobs| - 1;
    var before := DiskSteps(env, w, jobs[..k]);
    if i == k {
      StepSteady(env, before, jobs[k]);
    } else {
      assert IsLast(env, jobs[..k], i);
      StepsSteady(env, w, jobs[..k], i);
      assert NameOf(env, jobs[k].0) != NameOf(env, jobs[i].0);
      StepKeepsSteady(env, before, jobs[k], jobs[i].0);
    }
  }

  lemma {:induction false} StepsKeepSteady(env: Env, w: World, jobs: seq<Job>, info: DiskInfo)
    requires Steady(env, w, info) && !Named(env, jobs, NameOf(env, info))
    ensures Steady(env, DiskSteps(env, w, jobs), info)
    decreases |jobs|
  {
    hide DiskStep, NameOf, Steady;
    if jobs != [] {
      var k := |jobs| - 1;
      assert !Named(env, jobs[..k], NameOf(env, info)) by {
        assert forall j :: 0 <= j < k ==> jobs[..k][j] == jobs[j];
      }
      assert NameOf(env, jobs[k].0) != NameOf(env, info);
      StepsKeepSteady(env, w, jobs[..k], info);
      StepKeepsSteady(env, DiskSteps(env, w, jobs[..k]), jobs[k], info);
    }
  }

  /** The objects differ at most in their collection times. */
  ghost predicate SameButTimes(a: Objects, b: Objects) {
    && a.Keys == b.Keys
    && forall n :: n in a ==> b[n] == a[n].(status := a[n].status.(collectedAt := b[n].status.collectedAt))
  }

  /** Gauges and events are equal, and the objects up to collection times. */
  ghost predicate SameWorld(a: World, b: World) {
    a.gauges == b.gauges && a.events == b.events && SameButTimes(a.objects, b.objects)
  }

  lemma SteadyStep(env: Env, w: World, job: Job)
    requires Steady(env, w, job.0)
    ensures SameWorld(w, DiskStep(env, w, job))
  {
    hide NameOf, StepWrites, CollectedEvents, Collected, M.SetAll, M.Settled, SameButTimes, Later;
    var (info, now) := job;
    var name, a := NameOf(env, info), AnswerFor(env, w.objects, info);
    M.SettledIff(w.gauges, StepWrites(env, name, info, a));
    assert w.events + [] == w.events;
    var cr := w.objects[name];
    assert Collected(cr.status, info, a, now) == Later(cr.status, a, now);
    assert Labelled(env, cr) == cr;
    OneLater(w.objects, name, a, now);
  }

  lemma OneLater(objects: Objects, name: string, a: Answer, now: nat)
    requires name in objects
    ensures SameButTimes(objects, objects[name := objects[name].(status := Later(objects[name].status, a, now))])
  {
  }

  lemma {:induction false} SteadySteps(env: Env, w: World, jobs: seq<Job>)
    requires Distinct(env, jobs) && forall j :: 0 <= j < |jobs| ==> Steady(env, w, jobs[j].0)
    ensures SameWorld(w, DiskSteps(env, w, jobs))
    decreases |jobs|
  {
    hide DiskStep, NameOf, Steady;
    if jobs != [] {
      var k := |jobs| - 1;
      assert forall j :: 0 <= j < k ==> jobs[..k][j] == jobs[j];
      SteadySteps(env, w, jobs[..k]);
      assert !Named(env, jobs[..k], NameOf(env, jobs[k].0));
      StepsKeepSteady(env, w, jobs[..k], jobs[k].0);
      SteadyStep(env, DiskSteps(env, w, jobs[..k]), jobs[k]);
    }
  }

  /** The world a pass leaves has nothing left for markAbsentDisks to do. */
  ghost predicate Tidy(env: Env, discovered: set<string>, w: World) {
    && (forall n :: n in w.objects ==> !Removed(env, w.objects[n]))
    && (forall n :: n in w.objects && Absent(env, discovered, n, w.objects[n]) ==>
          !Differs(w.objects[n].status.conditions, MissingCondition(InventoryScan)))
    && (forall s :: OfAbsent(env, discovered, w, s) ==>
          && (M.IsReading(s.vec) ==> M.At(w.gauges, s) == None)
          && (s == FailureSeries(env, w, s.disk) ==> M.At(w.gauges, s) == Some(0)))
  }

  predicate OfAbsent(env: Env, discovered: set<string>, w: World, s: M.Series) {
    && s.vec != M.Version && s.node == env.node
    && s.disk in w.objects && Absent(env, discovered, s.disk, w.objects[s.disk])
  }

  function FailureSeries(env: Env, w: World, n: string): M.Series
    requires n in w.objects
  {
    M.Plain(M.CollectionSuccess, env.node, n, w.objects[n].status.info.path)
  }

  lemma PassTidies(env: Env, w: World, infos: seq<DiskInfo>, times: nat -> nat, listing: seq<string>)
    requires NoneExcluded(env, infos) && IsListing(env, w.objects, listing)
    ensures Tidy(env, Discovered(env, infos), AfterPass(env, w, infos, times, listing))
  {
    hide AfterPass, NoneExcluded, IsListing, ExcludeRules.IsExcluded, Discovered, M.At;
    var discovered, w' := Discovered(env, infos), AfterPass(env, w, infos, times, listing);
    forall n | n in w'.objects ensures !Removed(env, w'.objects[n]) {
      NoExcludedSurvives(env, w, infos, times, listing, n);
    }
    forall n | n in w'.objects && Absent(env, discovered, n, w'.objects[n])
      ensures n in w.objects && Mine(env, w.objects[n]) && !Excluded(env, w.objects[n])
      ensures w'.objects[n].status.info == w.objects[n].status.info
      ensures !Differs(w'.objects[n].status.conditions, MissingCondition(InventoryScan))
    {
      OtherObjects(env, w, infos, times, listing, n);
    }
    forall s | OfAbsent(env, discovered, w', s)
      ensures M.IsReading(s.vec) ==> M.At(w'.gauges, s) == None
      ensures s == FailureSeries(env, w', s.disk) ==> M.At(w'.gauges, s) == Some(0)
    {
      OtherGauges(env, w, infos, times, listing, s);
    }
  }

  lemma {:induction false} TidyEvents(env: Env, discovered: set<string>, w: World, names: seq<string>)
    requires Tidy(env, discovered, w)
    ensures MarkEvents(env, w.objects, discovered, names) == []
    decreases |names|
  {
    if names != [] {
      TidyEvents(env, discovered, w, names[..|names| - 1]);
    }
  }

  lemma TidyObjects(env: Env, discovered: set<string>, w: World, done: set<string>)
    requires Tidy(env, discovered, w)
    ensures AbsentObjects(env, w.objects, discovered, done) == w.objects
  {
    hide Excluded, Differs;
    forall n | n in w.objects && Absent(env, discovered, n, w.objects[n]) ensures MarkedCr(w.objects[n]) == w.objects[n] {
      UpsertSame(w.objects[n].status.conditions, MissingCondition(InventoryScan));
    }
    SameObjects(AbsentObjects(env, w.objects, discovered, done), w.objects);
  }

  lemma TidyGauges(env: Env, discovered: set<string>, w: World, done: set<string>, s: M.Series)
    requires Tidy(env, discovered, w)
    ensures AbsentAt(env, w.objects, discovered, done, w.gauges, s) == M.At(w.gauges, s)
  {
  }

  lemma TidyStays(env: Env, discovered: set<string>, w: World, listing: seq<string>, mid: World)
    requires Tidy(env, discovered, w) && AbsentHandled(env, w, discovered, listing, mid)
    ensures mid == w
  {
    hide Tidy, M.At, AbsentAt, MarkEvents, AbsentObjects;
    TidyEvents(env, discovered, w, listing);
    assert w.events + [] == w.events;
    TidyObjects(env, discovered, w, Names(listing));
    forall s ensures M.At(mid.gauges, s) == M.At(w.gauges, s) {
      TidyGauges(env, discovered, w, Names(listing), s);
    }
    M.SameGauges(mid.gauges, w.gauges);
  }

  ghost predicate DistinctNames(env: Env, infos: seq<DiskInfo>) {
    forall j, k :: 0 <= j < k < |infos| ==> NameOf(env, infos[j]) != NameOf(env, infos[k])
  }

  lemma JobsDistinct(env: Env, infos: seq<DiskInfo>, times: nat -> nat)
    requires DistinctNames(env, infos)
    ensures Distinct(env, Jobs(infos, times))
  {
    hide Naming.GenerateCRName;
  }

  /** With distinct names and the same inventory, rules and answers, a second pass changes no
      gauge, records no event, and changes nothing in the objects but collection times. */
  lemma SecondPassChangesNothing(env: Env, infos: seq<DiskInfo>, w: World, times: nat -> nat, listing: seq<string>,
                                 times': nat -> nat, listing': seq<string>)
    requires NoneExcluded(env, infos) && DistinctNames(env, infos) && IsListing(env, w.objects, listing)
    ensures var w' := AfterPass(env, w, infos, times, listing);
            IsListing(env, w'.objects, listing') ==> SameWorld(w', AfterPass(env, w', infos, times', listing'))
  {
    hide NoneExcluded, NameOf, Tidy, Discovered, AbsentHandled, AfterAbsent, IsListing, DiskSteps, Steady, SameWorld;
    var mid, w' := AfterAbsent(env, Discovered(env, infos), w, listing), AfterPass(env, w, infos, times, listing);
    if IsListing(env, w'.objects, listing') {
      PassTidies(env, w, infos, times, listing);
      ListingHandled(env, w', Discovered(env, infos), listing');
      TidyStays(env, Discovered(env, infos), w', listing', AfterAbsent(env, Discovered(env, infos), w', listing'));
      JobsDistinct(env, infos, times);
      JobsDistinct(env, infos, times');
      var jobs, jobs' := Jobs(infos, times), Jobs(infos, times');
      forall j | 0 <= j < |jobs'| ensures Steady(env, w', jobs'[j].0) {
        assert IsLast(env, jobs, j);
        StepsSteady(env, mid, jobs, j);
        assert jobs[j].0 == infos[j] == jobs'[j].0;
      }
      SteadySteps(env, w', jobs');
    }
  }

  /** Discovery reports no excluded disk. */
  lemma InventoryNotExcluded(env: Env, host: Discovery.Host)
    requires Discovery.Discover(host, env.node, env.rules).Ok?
    ensures NoneExcluded(env, Discovery.Discover(host, env.node, env.rules).value)
  {
    hide ExcludeRules.IsExcluded, Discovery.Discover;
    forall d | d in Discovery.Discover(host, env.node, env.rules).value ensures !ExcludeRules.IsExcluded(env.node, d, env.rules) {
      Discovery.MonitoredNotExcluded(host, env.node, env.rules, d);
    }
  }

  /** Two passes over what discovery reports about a host: after the first no object of this node
      matches a rule, and with distinct names the second changes collection times at most. */
  lemma PassesOverHost(env: Env, host: Discovery.Host, w: World, times: nat -> nat, listing: seq<string>,
                       times': nat -> nat, listing': seq<string>)
    requires Discovery.Discover(host, env.node, env.rules).Ok? && IsListing(env, w.objects, listing)
    ensures var infos := Discovery.Discover(host, env.node, env.rules).value;
            var w' := AfterPass(env, w, infos, times, listing);
            && (forall n :: n in w'.objects && w'.objects[n].nodeName == env.node && w'.objects[n].nodeLabel == Some(env.nodeLabel) ==>
                  !ExcludeRules.IsExcluded(env.node, w'.objects[n].status.info, env.rules))
            && (DistinctNames(env, infos) && IsListing(env, w'.objects, listing') ==>
                  SameWorld(w', AfterPass(env, w', infos, times', listing')))
  {
    hide Discovery.Discover, AfterPass, IsListing, ExcludeRules.IsExcluded, NoneExcluded, DistinctNames, SameWorld;
    InventoryNotExcluded(env, host);
    var infos := Discovery.Discover(host, env.node, env.rules).value;
    var w' := AfterPass(env, w, infos, times, listing);
    forall n | n in w'.objects && w'.objects[n].nodeName == env.node && w'.objects[n].nodeLabel == Some(env.nodeLabel)
      ensures !ExcludeRules.IsExcluded(env.node, w'.objects[n].status.info, env.rules)
    {
      NoExcludedSurvives(env, w, infos, times, listing, n);
    }
    if DistinctNames(env, infos) {
      SecondPassChangesNothing(env, infos, w, times, listing, times', listing');
    }
  }

  // ----- One disk, under any errors

  /** What becomes of the object of a discovered disk even if API calls fail. A new one belongs to
      this node, carries its label and no arguments, and is either blank or reports the collection.
      Of an existing one only the label may be repaired and the status may report the collection. */
  lemma DiskOutcome(env: Env, info: DiskInfo, now: nat, before: Option<Cr>, after: Option<Cr>)
    requires MayReconcile(env, info, now, before, after) && after.Some?
    ensures var cr := after.value;
            match before
            case None =>
              && cr.nodeName == env.node && cr.nodeLabel == Some(env.nodeLabel) && cr.args == ""
              && (|| (cr.status.health.Unset? && cr.status.conditions == [])
                  || ReportsAnswer(cr.status, info, env.collect(info.path, "")))
            case Some(b) =>
              && cr.nodeName == b.nodeName && cr.args == b.args
              && (cr.nodeLabel == b.nodeLabel || cr.nodeLabel == Some(env.nodeLabel))
              && (cr.status == b.status || ReportsAnswer(cr.status, info, env.collect(info.path, b.args)))
  {
    hide ReportsAnswer, Collected;
    var cr := if before.Some? then before.value else NewCr(env);
    CollectedReportsAnswer(cr.status, info, env.collect(info.path, cr.args), now);
  }

  // ----- A changed spec

  /** What becomes of the object of Reconcile even if API calls fail. If a discovered disk has its
      name, the object is neither deleted nor marked: its status stays, or it reports a collection of
      the first such disk. Otherwise it may be deleted only if a rule matches what it stores, and
      marked as missing only if none does. */
  lemma ReconcileOutcome(env: Env, name: string, infos: seq<DiskInfo>, now: nat, before: Cr, after: Option<Cr>)
    requires MayBeReconciled(env, name, infos, now, before, after)
    ensures if name in Discovered(env, infos) then
              && after.Some? && after.value.nodeName == before.nodeName && after.value.args == before.args
              && (after.value.status == before.status
                  || exists i :: IsFirstNamed(env, infos, name, i)
                                 && ReportsAnswer(after.value.status, infos[i], env.collect(infos[i].path, before.args)))
            else
              || after == Some(before)
              || (if ExcludeRules.IsExcluded(env.node, before.status.info, env.rules) then after.None?
                  else after.Some? && OnlyMissing(before, after.value, Occasion.Reconcile))
  {
    hide NameOf, FirstNamed, Discovered, ReportsAnswer, OnlyMissing, StatusRuns.Marked, ExcludeRules.IsExcluded, Collected;
    FirstNamedFound(env, infos, name);
    if name in Discovered(env, infos) {
      var i :| IsFirstNamed(env, infos, name, i) && FirstNamed(env, infos, name) == Some(infos[i]);
      CollectedReportsAnswer(before.status, infos[i], env.collect(infos[i].path, before.args), now);
    } else {
      MarkedOnly(before, Occasion.Reconcile);
    }
  }

  /** Without API errors: the object reports the first discovered disk with its name; without such a
      disk it is gone with all its series if a rule matches what it stores, and otherwise it is marked
      as missing and keeps no series but that of the failed collection. */
  lemma ReconciledOutcome(env: Env, w: World, name: string, infos: seq<DiskInfo>, now: nat, s: M.Series)
    requires name in w.objects && s.vec != M.Version && s.node == env.node && s.disk == name
    ensures var w', info := Reconciled(env, w, name, infos, now), w.objects[name].status.info;
            if name in Discovered(env, infos) then exists i :: IsFirstNamed(env, infos, name, i) && Reports(env, w', infos[i])
            else if ExcludeRules.IsExcluded(env.node, info, env.rules) then name !in w'.objects && M.At(w'.gauges, s) == None
            else
              && name in w'.objects && OnlyMissing(w.objects[name], w'.objects[name], Occasion.Reconcile)
              && (s.vec != M.CollectionSuccess ==> M.At(w'.gauges, s) == None)
              && (s == M.Series(M.CollectionSuccess, env.node, name, info.path, M.NoExtra) ==> M.At(w'.gauges, s) == Some(0))
  {
    hide NameOf, FirstNamed, Discovered, Reports, OnlyMissing, StatusRuns.Marked, ExcludeRules.IsExcluded, DiskStep, M.At,
         MissingGauges, M.Without, WarningEvents;
    FirstNamedFound(env, infos, name);
    if name in Discovered(env, infos) {
      var i :| IsFirstNamed(env, infos, name, i) && FirstNamed(env, infos, name) == Some(infos[i]);
      StepReports(env, w, (infos[i], now));
    } else {
      MarkedOnly(w.objects[name], Occasion.Reconcile);
      AllDropped(env, w.gauges, name, s);
      ReadingsDropped(env, w.gauges, name, w.objects[name].status.info.path, s);
    }
  }
}
