/**
 * One PhysicalDisk over its life together with its gauges. A collection publishes before it patches
 * the status, and markDiskMissing drops the readings before it reads the object, so the two can
 * cross: a disk that is shown as missing may export readings. The exact condition, and two runs.
 */
module GaugeRuns {
  import opened Wrappers
  import opened DiskInfos
  import opened DiskStatus
  import opened ReconcileSpec
  import StatusPatch
  import S = StatusRuns
  import O = StatusOverlaps
  import M = Metrics

  datatype State = State(disk: S.State, gauges: M.Gauges)

  datatype Label =
    | ObjectStep(step: S.Label)
    | DropReadings(path: string)  // markDiskMissing begins
    | DropSeries                  // the object was deleted because a rule matches

  predicate Enabled(limit: nat, s: State, l: Label) { l.ObjectStep? ==> S.Enabled(limit, s.disk, l.step) }

  /** The collection that ends with this step, whether or not its status could be stored. */
  function Ended(l: Label): Option<S.Collection> {
    match l
    case ObjectStep(Finish(_, c)) => Some(c)
    case ObjectStep(PatchFails(_, c)) => Some(c)
    case _ => None
  }

  function Gauges(env: Env, name: string, g: M.Gauges, l: Label): M.Gauges {
    match l
    case DropReadings(path) => MissingGauges(env, g, name, path)
    case DropSeries => M.Without(g, M.READINGS + {M.CollectionSuccess}, env.node, name)
    case ObjectStep(_) =>
      var c := Ended(l);
      if c.Some? then M.SetAll(g, StepWrites(env, name, c.value.info, c.value.answer)) else g
  }

  function Apply(env: Env, name: string, limit: nat, s: State, l: Label): State
    requires Enabled(limit, s, l)
  {
    State(if l.ObjectStep? then S.Apply(limit, s.disk, l.step) else s.disk, Gauges(env, name, s.gauges, l))
  }

  predicate Runs(env: Env, name: string, limit: nat, s: State, ls: seq<Label>)
    decreases |ls|
  {
    ls == [] || (Enabled(limit, s, ls[0]) && Runs(env, name, limit, Apply(env, name, limit, s, ls[0]), ls[1..]))
  }

  function After(env: Env, name: string, limit: nat, s: State, ls: seq<Label>): State
    requires Runs(env, name, limit, s, ls)
    decreases |ls|
  {
    if ls == [] then s else After(env, name, limit, Apply(env, name, limit, s, ls[0]), ls[1..])
  }

  // ----- Readings

  ghost predicate HasReadings(env: Env, name: string, g: M.Gauges) {
    exists s :: s in g && M.IsReading(s.vec) && M.OfDisk(s, env.node, name)
  }

  predicate Publishes(l: Label) { Ended(l).Some? && Ended(l).value.answer.Data? }

  predicate Drops(l: Label) { !l.ObjectStep? }

  lemma Written(g: M.Gauges, w: M.Writes, s: M.Series)
    requires exists e :: e in w && e.0 == s
    ensures s in M.SetAll(g, w)
  {
    M.FinalIsWritten(w, s);
    M.AtSetAll(g, w, s);
  }

  lemma PublishingHas(env: Env, name: string, g: M.Gauges, c: S.Collection)
    requires c.answer.Data?
    ensures HasReadings(env, name, M.SetAll(g, StepWrites(env, name, c.info, c.answer)))
  {
    hide M.SetAll, StepWrites, FreshInfo;
    DeviceWritten(env, name, c);
    Written(g, StepWrites(env, name, c.info, c.answer), DeviceSeries(env, name, c));
    assert M.IsReading(DeviceSeries(env, name, c).vec) && M.OfDisk(DeviceSeries(env, name, c), env.node, name);
  }

  function DeviceSeries(env: Env, name: string, c: S.Collection): M.Series
    requires c.answer.Data?
  {
    var info := FreshInfo(c.info, c.answer);
    M.Series(M.Device, env.node, name, info.path, M.Texts(c.answer.output.labels + [info.firmwareVersion]))
  }

  lemma DeviceWritten(env: Env, name: string, c: S.Collection)
    requires c.answer.Data?
    ensures exists e :: e in StepWrites(env, name, c.info, c.answer) && e.0 == DeviceSeries(env, name, c)
  {
    hide M.StatusWrites, M.TelemetryWrites, M.NvmeWrites, M.AttributeWrites;
    var w := StepWrites(env, name, c.info, c.answer);
    assert w[1].0 == DeviceSeries(env, name, c);
    assert w[1] in w;
  }

  /** A failed collection writes no reading. */
  lemma FailureHas(env: Env, name: string, g: M.Gauges, c: S.Collection)
    requires c.answer.Error?
    ensures HasReadings(env, name, M.SetAll(g, StepWrites(env, name, c.info, c.answer))) <==> HasReadings(env, name, g)
  {
    var cs := M.Plain(M.CollectionSuccess, env.node, name, c.info.path);
    var w := [(cs, 0)];
    assert StepWrites(env, name, c.info, c.answer) == w + [] == w;
    assert w[..0] == [];
    assert M.SetAll(g, w) == M.SetAll(g, w[..0])[cs := 0] == g[cs := 0];
    var g' := g[cs := 0];
    if HasReadings(env, name, g) {
      var s :| s in g && M.IsReading(s.vec) && M.OfDisk(s, env.node, name);
      assert s in g';
    }
  }

  lemma DroppingHasNot(env: Env, name: string, g: M.Gauges, l: Label)
    requires Drops(l)
    ensures !HasReadings(env, name, Gauges(env, name, g, l))
  {
    forall s: M.Series | M.IsReading(s.vec) ensures s.vec in M.READINGS {
      M.ReadingsAre(s.vec);
    }
  }

  /** What one step does to the readings. */
  lemma ReadingsStep(env: Env, name: string, g: M.Gauges, l: Label)
    ensures HasReadings(env, name, Gauges(env, name, g, l)) <==> Publishes(l) || (!Drops(l) && HasReadings(env, name, g))
  {
    hide HasReadings, StepWrites, M.SetAll, MissingGauges, M.Without;
    if Drops(l) {
      DroppingHasNot(env, name, g, l);
    } else if Publishes(l) {
      PublishingHas(env, name, g, Ended(l).value);
    } else if Ended(l).Some? {
      FailureHas(env, name, g, Ended(l).value);
    }
  }

  /** Was data published after the readings were dropped for the last time? */
  predicate PublishedSinceDrop(ls: seq<Label>, before: bool)
    decreases |ls|
  {
    if ls == [] then before
    else PublishedSinceDrop(ls[1..], Publishes(ls[0]) || (!Drops(ls[0]) && before))
  }

  /** After every run a disk exports readings exactly when a successful collection has ended since
      they were dropped for the last time, whatever became of its status patch. */
  lemma {:induction false} ReadingsIff(env: Env, name: string, limit: nat, s: State, ls: seq<Label>)
    requires Runs(env, name, limit, s, ls)
    ensures HasReadings(env, name, After(env, name, limit, s, ls).gauges)
       <==> PublishedSinceDrop(ls, HasReadings(env, name, s.gauges))
    decreases |ls|
  {
    hide HasReadings, Gauges, S.Apply, Publishes, Drops;
    if ls != [] {
      ReadingsStep(env, name, s.gauges, ls[0]);
      ReadingsIff(env, name, limit, Apply(env, name, limit, s, ls[0]), ls[1..]);
    }
  }

  ghost predicate HasSeries(env: Env, name: string, g: M.Gauges) {
    exists s :: s in g && s.vec != M.Version && M.OfDisk(s, env.node, name)
  }

  /** Did a collection end, or a missing mark begin, after the disk was excluded for the last time? */
  predicate ShownSinceExclusion(ls: seq<Label>, before: bool)
    decreases |ls|
  {
    if ls == [] then before
    else ShownSinceExclusion(ls[1..], Ended(ls[0]).Some? || ls[0].DropReadings? || (ls[0].ObjectStep? && before))
  }

  lemma SuccessHas(env: Env, name: string, g: M.Gauges, c: S.Collection)
    ensures HasSeries(env, name, M.SetAll(g, StepWrites(env, name, c.info, c.answer)))
  {
    hide M.SetAll, M.PublishWrites, FreshInfo;
    var w, s := StepWrites(env, name, c.info, c.answer), M.Plain(M.CollectionSuccess, env.node, name, c.info.path);
    assert w[0].0 == s && w[0] in w;
    Written(g, w, s);
    assert s.vec != M.Version && M.OfDisk(s, env.node, name);
  }

  lemma SeriesStep(env: Env, name: string, g: M.Gauges, l: Label)
    ensures HasSeries(env, name, Gauges(env, name, g, l))
       <==> Ended(l).Some? || l.DropReadings? || (l.ObjectStep? && HasSeries(env, name, g))
  {
    hide StepWrites, M.SetAll, M.At;
    match l {
      case DropReadings(path) =>
        var s := M.Plain(M.CollectionSuccess, env.node, name, path);
        assert s in Gauges(env, name, g, l) && s.vec != M.Version && M.OfDisk(s, env.node, name);
      case DropSeries =>
        forall s: M.Series | s.vec != M.Version && M.OfDisk(s, env.node, name) ensures s !in Gauges(env, name, g, l) {
          M.ReadingsAre(s.vec);
        }
      case ObjectStep(_) =>
        if Ended(l).Some? {
          SuccessHas(env, name, g, Ended(l).value);
        }
    }
  }

  /** After every run a disk has any series at all exactly when a collection has ended or a missing
      mark has begun since it was excluded for the last time: an excluded disk vanishes completely. */
  lemma {:induction false} SeriesIff(env: Env, name: string, limit: nat, s: State, ls: seq<Label>)
    requires Runs(env, name, limit, s, ls)
    ensures HasSeries(env, name, After(env, name, limit, s, ls).gauges)
       <==> ShownSinceExclusion(ls, HasSeries(env, name, s.gauges))
    decreases |ls|
  {
    hide HasSeries, Gauges, S.Apply, Ended;
    if ls != [] {
      SeriesStep(env, name, s.gauges, ls[0]);
      SeriesIff(env, name, limit, Apply(env, name, limit, s, ls[0]), ls[1..]);
    }
  }

  // ----- Missing disks

  /** Marked by markDiskMissing. A collection that does not find the device has the same reason with
      another message, and drops no readings. */
  predicate SaysMissing(cs: seq<Condition>) {
    var c := Find(cs, DataCollected);
    c == Some(MissingCondition(Reconcile)) || c == Some(MissingCondition(InventoryScan))
  }

  predicate ShownMissing(o: S.State) { o.stored.Some? && SaysMissing(o.stored.value.status.conditions) }

  /** A disk that is shown as missing exports no readings. */
  ghost predicate Clean(env: Env, name: string, s: State) {
    ShownMissing(s.disk) ==> !HasReadings(env, name, s.gauges)
  }

  /** The steps that keep it so. Data is not published while the disk stays shown as missing: its
      status patch replaces the conditions, or the disk is not shown as missing at all. And a mark is
      not written after data was published. */
  ghost predicate Orderly(env: Env, name: string, s: State, l: Label) {
    match l
    case ObjectStep(Finish(i, c)) =>
      i < |s.disk.bases| && c.answer.Data? && ShownMissing(s.disk) ==>
        s.disk.bases[i].conditions != S.Outcome(s.disk.bases[i], c).conditions
    case ObjectStep(PatchFails(_, c)) => c.answer.Data? ==> !ShownMissing(s.disk)
    case ObjectStep(MarkWrite(i)) =>
      i < |s.disk.markers| && Differs(s.disk.markers[i].read.status.conditions, MissingCondition(s.disk.markers[i].what))
      && !S.Conflicts(s.disk, s.disk.markers[i]) ==>
        !HasReadings(env, name, s.gauges)
    case _ => true
  }

  /** What one step does to the mark. */
  lemma MissingAfterFinish(o: S.State, i: nat, c: S.Collection)
    requires i < |o.bases|
    ensures ShownMissing(S.FinishStep(o, i, c)) <==>
              ShownMissing(o) && o.bases[i].conditions == S.Outcome(o.bases[i], c).conditions
  {
    hide Collected, CollectedEvents;
    CollectedReports(o.bases[i], c.info, c.answer, c.now);
  }

  lemma MissingAfterMark(o: S.State, i: nat)
    requires i < |o.markers|
    ensures var m := o.markers[i];
            ShownMissing(S.MarkStep(o, i)) <==>
              ShownMissing(o) || (Differs(m.read.status.conditions, MissingCondition(m.what)) && !S.Conflicts(o, m))
  {
    var m := o.markers[i];
    FindUpsert(m.read.status.conditions, MissingCondition(m.what), DataCollected);
    assert m.what == Reconcile || m.what == InventoryScan;
  }

  lemma CleanStep(env: Env, name: string, limit: nat, s: State, l: Label)
    requires Clean(env, name, s) && Enabled(limit, s, l)
    ensures Clean(env, name, Apply(env, name, limit, s, l)) <==> Orderly(env, name, s, l)
  {
    hide HasReadings, Gauges, S.FinishStep, S.MarkStep, S.Outcome, SaysMissing, Differs, S.Conflicts;
    ReadingsStep(env, name, s.gauges, l);
    match l {
      case ObjectStep(Finish(i, c)) => MissingAfterFinish(s.disk, i, c);
      case ObjectStep(MarkWrite(i)) => MissingAfterMark(s.disk, i);
      case ObjectStep(Begin) => NewNotMissing();
      case _ =>
    }
  }

  lemma NewNotMissing()
    ensures !SaysMissing(NEW_STATUS.conditions)
  {
  }

  ghost predicate AllOrderly(env: Env, name: string, limit: nat, s: State, ls: seq<Label>)
    requires Runs(env, name, limit, s, ls)
    decreases |ls|
  {
    ls == [] || (Orderly(env, name, s, ls[0]) && AllOrderly(env, name, limit, Apply(env, name, limit, s, ls[0]), ls[1..]))
  }

  ghost predicate CleanThroughout(env: Env, name: string, limit: nat, s: State, ls: seq<Label>)
    requires Runs(env, name, limit, s, ls)
    decreases |ls|
  {
    Clean(env, name, s) && (ls == [] || CleanThroughout(env, name, limit, Apply(env, name, limit, s, ls[0]), ls[1..]))
  }

  /** For any number of collections in flight: a disk shown as missing exports no readings
      throughout a run exactly when every step of it is orderly. */
  lemma {:induction false} CleanIffAllOrderly(env: Env, name: string, limit: nat, s: State, ls: seq<Label>)
    requires Clean(env, name, s) && Runs(env, name, limit, s, ls)
    ensures CleanThroughout(env, name, limit, s, ls) <==> AllOrderly(env, name, limit, s, ls)
    decreases |ls|
  {
    hide Clean, Orderly, Apply, Enabled;
    if ls != [] {
      CleanStep(env, name, limit, s, ls[0]);
      if Orderly(env, name, s, ls[0]) {
        CleanIffAllOrderly(env, name, limit, Apply(env, name, limit, s, ls[0]), ls[1..]);
      } else {
        NotClean(env, name, limit, Apply(env, name, limit, s, ls[0]), ls[1..]);
      }
    }
  }

  lemma NotClean(env: Env, name: string, limit: nat, s: State, ls: seq<Label>)
    requires Runs(env, name, limit, s, ls) && !Clean(env, name, s)
    ensures !CleanThroughout(env, name, limit, s, ls)
  {
    hide Clean, Apply;
  }

  // ----- Concrete runs

  /** The steps of the object in a run. */
  function ObjectSteps(ls: seq<Label>): seq<S.Label> {
    if ls == [] then []
    else Own(ls[0]) + ObjectSteps(ls[1..])
  }

  lemma {:induction false} ObjectPart(env: Env, name: string, limit: nat, s: State, ls: seq<Label>)
    requires S.Runs(limit, s.disk, ObjectSteps(ls))
    ensures Runs(env, name, limit, s, ls)
    ensures After(env, name, limit, s, ls).disk == S.After(limit, s.disk, ObjectSteps(ls))
    decreases |ls|
  {
    hide S.Apply, S.Enabled, Gauges;
    if ls != [] {
      if ls[0].ObjectStep? {
        assert ObjectSteps(ls)[0] == ls[0].step && ObjectSteps(ls)[1..] == ObjectSteps(ls[1..]);
      } else {
        assert ObjectSteps(ls) == ObjectSteps(ls[1..]);
      }
      ObjectPart(env, name, limit, Apply(env, name, limit, s, ls[0]), ls[1..]);
    }
  }

  const FIRST: seq<Label> := [ObjectStep(S.Begin), ObjectStep(S.Finish(0, O.Healthy(1)))]

  /** The mark comes in the middle of a collection. */
  const CROSSING: seq<Label> := FIRST + [
    ObjectStep(S.Begin), DropReadings(""), ObjectStep(S.MarkRead(InventoryScan)), ObjectStep(S.MarkWrite(0)),
    ObjectStep(S.Finish(0, O.Healthy(2)))]

  /** The collection comes in the middle of the mark. */
  const OVERTAKING: seq<Label> := FIRST + [
    DropReadings(""), ObjectStep(S.Begin), ObjectStep(S.Finish(0, O.Healthy(2))),
    ObjectStep(S.MarkRead(InventoryScan)), ObjectStep(S.MarkWrite(0))]

  /** With one collection in flight a healthy disk ends up shown as missing with its readings
      exported again: it is marked while it is being collected. */
  lemma CrossingExports(env: Env, name: string, init: S.State)
    requires S.Init(init)
    ensures var s := State(init, map[]);
            && Runs(env, name, 1, s, CROSSING)
            && ShownMissing(After(env, name, 1, s, CROSSING).disk)
            && HasReadings(env, name, After(env, name, 1, s, CROSSING).gauges)
  {
    hide S.Runs, S.After, HasReadings, Publishes, S.Init, Runs, After, ObjectSteps, PublishedSinceDrop;
    var s := State(init, map[]);
    O.SuccessCanBeMasked(init);
    CrossingObject();
    ObjectPart(env, name, 1, s, CROSSING);
    ReadingsIff(env, name, 1, s, CROSSING);
    PublishedLast(CROSSING, HasReadings(env, name, s.gauges), 6);
  }

  lemma CrossingObject()
    ensures ObjectSteps(CROSSING) == O.START + O.MASKED
    ensures |CROSSING| == 7 && Publishes(CROSSING[6])
  {
    SevenSteps(CROSSING);
  }

  /** The same, if the collection begins and ends between the two halves of the mark: the readings
      are dropped, published again, and then the object is marked. */
  lemma OvertakingExports(env: Env, name: string, init: S.State)
    requires S.Init(init)
    ensures var s := State(init, map[]);
            && Runs(env, name, 1, s, OVERTAKING)
            && ShownMissing(After(env, name, 1, s, OVERTAKING).disk)
            && HasReadings(env, name, After(env, name, 1, s, OVERTAKING).gauges)
  {
    hide S.Runs, S.After, HasReadings, Publishes, Drops, S.Init, ShownMissing, Runs, After, ObjectSteps, PublishedSinceDrop;
    var s := State(init, map[]);
    LateMark(init);
    OvertakingObject();
    ObjectPart(env, name, 1, s, OVERTAKING);
    ReadingsIff(env, name, 1, s, OVERTAKING);
    PublishedLast(OVERTAKING, HasReadings(env, name, s.gauges), 4);
  }

  const LATE: seq<S.Label> := [S.Begin, S.Finish(0, O.Healthy(2)), S.MarkRead(InventoryScan), S.MarkWrite(0)]

  lemma OvertakingObject()
    ensures ObjectSteps(OVERTAKING) == O.START + LATE
    ensures |OVERTAKING| == 7 && Publishes(OVERTAKING[4]) && !Drops(OVERTAKING[5]) && !Drops(OVERTAKING[6])
  {
    SevenSteps(OVERTAKING);
  }

  lemma SevenSteps(c: seq<Label>)
    requires |c| == 7
    ensures ObjectSteps(c) == Own(c[0]) + (Own(c[1]) + (Own(c[2]) + (Own(c[3]) + (Own(c[4]) + (Own(c[5]) + Own(c[6]))))))
  {
    TailSteps(c, 6);
    TailSteps(c, 5);
    TailSteps(c, 4);
    TailSteps(c, 3);
    TailSteps(c, 2);
    TailSteps(c, 1);
    TailSteps(c, 0);
    assert c[7..] == [] && c[0..] == c;
    assert Own(c[6]) + [] == Own(c[6]);
  }

  function Own(l: Label): seq<S.Label> { if l.ObjectStep? then [l.step] else [] }

  lemma TailSteps(c: seq<Label>, i: nat)
    requires i < |c|
    ensures ObjectSteps(c[i..]) == Own(c[i]) + ObjectSteps(c[i + 1..])
  {
    assert c[i..][0] == c[i] && c[i..][1..] == c[i + 1..];
  }

  lemma {:induction false} PublishedLast(ls: seq<Label>, before: bool, i: nat)
    requires i < |ls| && Publishes(ls[i]) && forall j :: i < j < |ls| ==> !Drops(ls[j])
    ensures PublishedSinceDrop(ls, before)
    decreases |ls|
  {
    hide Publishes, Drops;
    if i > 0 {
      assert ls[1..][i - 1] == ls[i];
      PublishedLast(ls[1..], Publishes(ls[0]) || (!Drops(ls[0]) && before), i - 1);
    } else {
      NeverDropped(ls[1..]);
    }
  }

  lemma {:induction false} NeverDropped(ls: seq<Label>)
    requires forall l :: l in ls ==> !Drops(l)
    ensures PublishedSinceDrop(ls, true)
    decreases |ls|
  {
    hide Publishes, Drops;
    if ls != [] {
      NeverDropped(ls[1..]);
    }
  }

  lemma LateMark(init: S.State)
    requires S.Init(init)
    ensures S.Runs(1, init, O.START + LATE) && ShownMissing(S.After(1, init, O.START + LATE))
  {
    hide S.Runs, S.After, O.IsHealthy, SaysMissing;
    O.StartHealthy(1, init);
    var s := S.After(1, init, O.START);
    O.HealthyParts(s);
    CollectThenMark(s);
    O.RunsConcat(1, init, O.START, LATE);
  }

  lemma CollectThenMark(s: S.State)
    requires s.stored.Some? && s.bases == [] && s.markers == []
    ensures S.Runs(1, s, LATE) && ShownMissing(S.After(1, s, LATE))
  {
    hide S.Runs, S.After, SaysMissing;
    var first, last := [S.Begin, S.Finish(0, O.Healthy(2))], [S.MarkRead(InventoryScan), S.MarkWrite(0)];
    CollectOnce(s);
    var t := S.After(1, s, first);
    MarkOnce(t);
    O.RunsConcat(1, s, first, last);
    assert first + last == LATE;
  }

  lemma CollectOnce(s: S.State)
    requires s.stored.Some? && s.bases == [] && s.markers == []
    ensures var run := [S.Begin, S.Finish(0, O.Healthy(2))];
            && S.Runs(1, s, run)
            && var t := S.After(1, s, run);
               && t.stored.Some? && t.markers == []
               && Find(t.stored.value.status.conditions, DataCollected) == Some(SUCCESS_CONDITION)
  {
    hide Collected, CollectedEvents, Find, StatusPatch.Merged;
    var b := s.stored.value.status;
    StatusPatch.MergedOntoBase(b, S.Outcome(b, O.Healthy(2)));
    CollectedReports(b, NO_INFO, Data(O.HEALTHY), 2);
    O.TwoSteps(1, s, S.Begin, S.Finish(0, O.Healthy(2)));
  }

  lemma MarkOnce(t: S.State)
    requires t.stored.Some? && t.markers == []
    requires Find(t.stored.value.status.conditions, DataCollected) == Some(SUCCESS_CONDITION)
    ensures var run := [S.MarkRead(InventoryScan), S.MarkWrite(0)];
            S.Runs(1, t, run) && ShownMissing(S.After(1, t, run))
  {
    hide WarningEvents, Upsert, Find;
    FindUpsert(t.stored.value.status.conditions, MissingCondition(InventoryScan), DataCollected);
    O.TwoSteps(1, t, S.MarkRead(InventoryScan), S.MarkWrite(0));
  }
}
