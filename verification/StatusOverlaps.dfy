/**
 * Any number of collections in flight: `client.MergeFrom` carries no optimistic lock, so
 * a patch can be computed from a base that another collection has made obsolete. For the health
 * contract, the memory of the latest success, the memory of having been assessed and the
 * events: the exact condition on a patch, and a run in which it fails.
 */
module StatusOverlaps {
  import opened Wrappers
  import opened DiskInfos
  import Smart
  import opened Assessment
  import opened DiskStatus
  import opened StatusPatch
  import opened StatusRuns
  import T = Telemetry

  // ----- The health contract

  /** Is the patch of this step one that keeps the contract? It leaves the conditions alone, or
      carries the health, or the stored health is still the one of its base. */
  predicate Safe(s: State, l: Label) {
    l.Finish? && l.i < |s.bases| && s.stored.Some? ==>
      var b := s.bases[l.i];
      var m := Outcome(b, l.c);
      b.conditions == m.conditions || b.health != m.health || s.stored.value.status.health == b.health
  }

  predicate AllSafe(limit: nat, s: State, ls: seq<Label>)
    requires Runs(limit, s, ls)
    decreases |ls|
  {
    ls == [] || (Safe(s, ls[0]) && AllSafe(limit, Apply(limit, s, ls[0]), ls[1..]))
  }

  predicate HoldsNow(s: State) { s.stored.Some? ==> Contract(s.stored.value.status) }

  predicate HoldsThroughout(limit: nat, s: State, ls: seq<Label>)
    requires Runs(limit, s, ls)
    decreases |ls|
  {
    HoldsNow(s) && (ls == [] || HoldsThroughout(limit, Apply(limit, s, ls[0]), ls[1..]))
  }

  ghost predicate OverlapInv(s: State) {
    && HoldsNow(s)
    && (forall b :: b in s.bases ==> Contract(b))
    && (forall m :: m in s.markers ==> Contract(m.read.status))
  }

  lemma OverlapStep(limit: nat, s: State, l: Label)
    requires OverlapInv(s) && Enabled(limit, s, l)
    ensures Safe(s, l) ==> OverlapInv(Apply(limit, s, l))
    ensures !Safe(s, l) ==> !HoldsNow(Apply(limit, s, l))
  {
    match l {
      case Finish(i, c) =>
        var b := s.bases[i];
        assert b in s.bases;
        assert forall x :: x in Without(s.bases, i) ==> x in s.bases;
        CollectedKeepsContract(b, c.info, c.answer, c.now);
        if s.stored.Some? {
          MergeKeepsContractIff(s.stored.value.status, b, Outcome(b, c));
        }
      case PatchFails(i, c) =>
        assert forall x :: x in Without(s.bases, i) ==> x in s.bases;
      case MarkWrite(i) =>
        var m := s.markers[i];
        assert m in s.markers;
        assert forall x :: x in Without(s.markers, i) ==> x in s.markers;
        FindUpsert(m.read.status.conditions, MissingCondition(m.what), Degraded);
      case _ =>
    }
  }

  /** Any number of calls in flight: the contract holds in every state of a run exactly when
      every patch in it is safe. */
  lemma {:induction false} ContractIffAllSafe(limit: nat, s: State, ls: seq<Label>)
    requires OverlapInv(s) && Runs(limit, s, ls)
    ensures HoldsThroughout(limit, s, ls) <==> AllSafe(limit, s, ls)
    decreases |ls|
  {
    if ls != [] {
      OverlapStep(limit, s, ls[0]);
      if Safe(s, ls[0]) {
        ContractIffAllSafe(limit, Apply(limit, s, ls[0]), ls[1..]);
      }
    }
  }

  // ----- Resource versions

  /** What a marker has read is what is stored, as long as the resource version is the same. */
  ghost predicate Versions(s: State) {
    && (s.stored.Some? ==> s.stored.value.rv <= s.revision)
    && (forall m :: m in s.markers ==> Fresh(s, m.read))
  }

  lemma VersionsStep(limit: nat, s: State, l: Label)
    requires Versions(s) && Enabled(limit, s, l)
    ensures Versions(Apply(limit, s, l))
  {
    hide Marked, Merged, Collected, CollectedEvents, WarningEvents, Differs;
    match l {
      case MarkWrite(i) =>
        assert forall x :: x in Without(s.markers, i) ==> x in s.markers;
      case _ =>
    }
  }

  /** An update of a marker stores the status it has read with the mark, or nothing. */
  lemma MarkKeepsRest(s: State, i: nat)
    requires Versions(s) && i < |s.markers|
    ensures var t := MarkStep(s, i);
            && (t.stored.Some? <==> s.stored.Some?) && t.history == s.history
            && (t.stored.Some? ==>
                  t.stored.value.status == s.stored.value.status.(conditions := t.stored.value.status.conditions))
  {
    hide Upsert, Differs, WarningEvents;
    assert s.markers[i] in s.markers;
  }

  /** Steps after which the stored object is another one, or the same with a new resource version. */
  predicate Stores(s: State, l: Label) {
    match l
    case Begin => s.stored.None?
    case Finish(i, c) =>
      i < |s.bases| && s.stored.Some? && Merged(s.stored.value.status, s.bases[i], Outcome(s.bases[i], c)) != s.stored.value.status
    case MarkWrite(i) =>
      i < |s.markers| && Differs(s.markers[i].read.status.conditions, MissingCondition(s.markers[i].what))
      && !Conflicts(s, s.markers[i])
    case Touch => true
    case Delete => true
    case _ => false
  }

  predicate SomeStore(limit: nat, s: State, ls: seq<Label>)
    requires Runs(limit, s, ls)
    decreases |ls|
  {
    ls != [] && (Stores(s, ls[0]) || SomeStore(limit, Apply(limit, s, ls[0]), ls[1..]))
  }

  /** What is stored is newer than version `rv`. */
  predicate Newer(s: State, rv: nat) { rv <= s.revision && (s.stored.Some? ==> s.stored.value.rv > rv) }

  lemma StoreStep(limit: nat, s: State, l: Label, rv: nat)
    requires Versions(s) && Enabled(limit, s, l) && rv <= s.revision
    ensures Stores(s, l) || Newer(s, rv) ==> Newer(Apply(limit, s, l), rv)
    ensures !Stores(s, l) ==> Apply(limit, s, l).stored == s.stored
    ensures rv <= Apply(limit, s, l).revision
  {
    hide Marked, Merged, Collected, CollectedEvents, WarningEvents, Differs;
  }

  lemma {:induction false} StaysNewer(limit: nat, s: State, ls: seq<Label>, rv: nat)
    requires Versions(s) && Runs(limit, s, ls) && Newer(s, rv)
    ensures Newer(After(limit, s, ls), rv)
    decreases |ls|
  {
    hide Versions, Apply, Enabled, Stores;
    if ls != [] {
      StoreStep(limit, s, ls[0], rv);
      VersionsStep(limit, s, ls[0]);
      StaysNewer(limit, Apply(limit, s, ls[0]), ls[1..], rv);
    }
  }

  /** No update is lost: what a marker has read conflicts in the end exactly if somebody has written
      or deleted the object since it was read. */
  lemma {:induction false} ConflictsIff(limit: nat, s: State, ls: seq<Label>, m: Marker)
    requires Versions(s) && Runs(limit, s, ls) && s.stored == Some(m.read)
    ensures Conflicts(After(limit, s, ls), m) <==> SomeStore(limit, s, ls)
    decreases |ls|
  {
    hide Apply, Enabled, Stores;
    if ls != [] {
      var t := Apply(limit, s, ls[0]);
      StoreStep(limit, s, ls[0], m.read.rv);
      VersionsStep(limit, s, ls[0]);
      if Stores(s, ls[0]) {
        StaysNewer(limit, t, ls[1..], m.read.rv);
      } else {
        ConflictsIff(limit, t, ls[1..], m);
      }
    }
  }

  // ----- Falling back to Unknown

  /** A failed collection whose base was read before the disk was assessed. */
  predicate Forgets(s: State, l: Label) {
    l.Finish? && l.i < |s.bases| && s.bases[l.i].health == Unset && l.c.answer.Error?
  }

  lemma AssessedStepIff(limit: nat, s: State, l: Label)
    requires Versions(s) && Enabled(limit, s, l) && l != Delete && Assessed(s)
    ensures Assessed(Apply(limit, s, l)) <==> !Forgets(s, l)
  {
    hide Upsert, CollectedEvents, Assess;
    match l {
      case Finish(i, c) =>
        if c.answer.Data? {
          NeverUnknown(c.answer.output);
        }
      case MarkWrite(i) => MarkKeepsRest(s, i);
      case _ =>
    }
  }

  predicate NeverForgets(limit: nat, s: State, ls: seq<Label>)
    requires Runs(limit, s, ls)
    decreases |ls|
  {
    ls == [] || (!Forgets(s, ls[0]) && NeverForgets(limit, Apply(limit, s, ls[0]), ls[1..]))
  }

  predicate AssessedThroughout(limit: nat, s: State, ls: seq<Label>)
    requires Runs(limit, s, ls)
    decreases |ls|
  {
    Assessed(s) && (ls == [] || AssessedThroughout(limit, Apply(limit, s, ls[0]), ls[1..]))
  }

  /** Any number of calls in flight: a disk that was assessed stays assessed throughout its life
      exactly when no failed collection ends whose base is older than the first assessment. */
  lemma {:induction false} AssessedIffNeverForgets(limit: nat, s: State, ls: seq<Label>)
    requires Versions(s) && Runs(limit, s, ls) && Delete !in ls && Assessed(s)
    ensures AssessedThroughout(limit, s, ls) <==> NeverForgets(limit, s, ls)
    decreases |ls|
  {
    hide Versions, Assessed, Forgets, Apply;
    if ls != [] {
      AssessedStepIff(limit, s, ls[0]);
      if !Forgets(s, ls[0]) {
        VersionsStep(limit, s, ls[0]);
        AssessedIffNeverForgets(limit, Apply(limit, s, ls[0]), ls[1..]);
      } else {
        NotThroughout(limit, Apply(limit, s, ls[0]), ls[1..]);
      }
    }
  }

  lemma NotThroughout(limit: nat, s: State, ls: seq<Label>)
    requires Runs(limit, s, ls) && !Assessed(s)
    ensures !AssessedThroughout(limit, s, ls)
  {
  }

  // ----- The memory of the latest success

  /** What the patch leaves out because the base already had it is still stored. */
  predicate Covered<A(==)>(current: A, base: A, modified: A) { base == modified ==> current == base }

  ghost predicate InfoCovered(current: DiskInfo, base: DiskInfo, modified: DiskInfo) {
    forall k :: InfoAt(base, k) == InfoAt(modified, k) ==> InfoAt(current, k) == InfoAt(base, k)
  }

  ghost predicate TelemetryCovered(current: Option<T.Telemetry>, base: Option<T.Telemetry>, modified: T.Telemetry) {
    if base == Some(modified) then current == base
    else
      forall k :: TelemetryAt(OrNothing(base), k) == TelemetryAt(modified, k) ==>
                    TelemetryAt(OrNothing(current), k) == TelemetryAt(modified, k)
  }

  lemma InfoCoveredIff(c: DiskInfo, b: DiskInfo, m: DiskInfo)
    ensures InfoCovered(c, b, m) <==> MergedInfo(c, b, m) == m
  {
    hide InfoAt, MergedInfo;
    forall k ensures InfoAt(MergedInfo(c, b, m), k) == if InfoAt(b, k) == InfoAt(m, k) then InfoAt(c, k) else InfoAt(m, k) {
      InfoAtMerged(c, b, m, k);
    }
    if InfoCovered(c, b, m) {
      SameInfo(MergedInfo(c, b, m), m);
    }
  }

  lemma TelemetryCoveredIff(c: Option<T.Telemetry>, b: Option<T.Telemetry>, m: T.Telemetry)
    ensures TelemetryCovered(c, b, m) <==> MergedTelemetry(c, b, Some(m)) == Some(m)
  {
    hide TelemetryAt, MergedFields;
    var r := MergedFields(OrNothing(c), OrNothing(b), m);
    forall k ensures TelemetryAt(r, k) == if TelemetryAt(OrNothing(b), k) == TelemetryAt(m, k) then TelemetryAt(OrNothing(c), k)
                                          else TelemetryAt(m, k)
    {
      TelemetryAtMerged(OrNothing(c), OrNothing(b), m, k);
    }
    if b != Some(m) && TelemetryCovered(c, b, m) {
      SameTelemetry(r, m);
    }
  }

  /** A successful collection's patch carries everything that is not still stored. */
  ghost predicate CarriesData(cur: Status, b: Status, o: Smart.Output, now: nat) {
    && Covered(cur.health, b.health, Assess(Some(o)).status)
    && Covered(cur.findings, b.findings, Assess(Some(o)).findings)
    && Covered(cur.collectedAt, b.collectedAt, Some(now))
    && TelemetryCovered(cur.telemetry, b.telemetry, T.Snapshot(o))
  }

  /** A failed collection's patch leaves an assessed health alone, and sets Unknown if there has
      been no attempt since the object was created. */
  predicate KeepsHealth(b: Status, h: seq<Collection>) {
    if LatestData(h).Some? then b.health != Unset else b.health == Unset || h != []
  }

  /** Is the patch of this step computed from a base that is recent enough? */
  ghost predicate Recent(s: State, l: Label) {
    l.Finish? && l.i < |s.bases| && s.stored.Some? ==>
      var cur, b, c := s.stored.value.status, s.bases[l.i], l.c;
      && InfoCovered(cur.info, b.info, FreshInfo(c.info, c.answer))
      && match c.answer
         case Data(o) => CarriesData(cur, b, o, c.now)
         case Error(_) => KeepsHealth(b, s.history)
  }

  ghost predicate RemembersNow(s: State) { s.stored.Some? ==> Remembers(s.stored.value.status, s.history) }

  lemma DataRemembered(cur: Status, b: Status, h: seq<Collection>, c: Collection)
    requires c.answer.Data?
    ensures Remembers(Merged(cur, b, Outcome(b, c)), h + [c]) <==>
              && InfoCovered(cur.info, b.info, FreshInfo(c.info, c.answer))
              && CarriesData(cur, b, c.answer.output, c.now)
  {
    hide Assess, T.Snapshot, MergedInfo, MergedTelemetry, Upsert, FreshInfo, InfoCovered, TelemetryCovered;
    assert (h + [c])[..|h + [c]| - 1] == h;
    InfoCoveredIff(cur.info, b.info, FreshInfo(c.info, c.answer));
    TelemetryCoveredIff(cur.telemetry, b.telemetry, T.Snapshot(c.answer.output));
  }

  lemma ErrorRemembered(cur: Status, b: Status, h: seq<Collection>, c: Collection)
    requires c.answer.Error? && Remembers(cur, h)
    ensures Remembers(Merged(cur, b, Outcome(b, c)), h + [c]) <==>
              InfoCovered(cur.info, b.info, FreshInfo(c.info, c.answer)) && KeepsHealth(b, h)
  {
    hide Assess, T.Snapshot, MergedInfo, Upsert, FreshInfo, InfoCovered;
    assert (h + [c])[..|h + [c]| - 1] == h;
    InfoCoveredIff(cur.info, b.info, FreshInfo(c.info, c.answer));
    LatestDataIsData(h);
    if LatestData(h).Some? {
      NeverUnknown(LatestData(h).value.answer.output);
    }
  }

  lemma RemembersStepIff(limit: nat, s: State, l: Label)
    requires Versions(s) && RemembersNow(s) && Enabled(limit, s, l)
    ensures RemembersNow(Apply(limit, s, l)) <==> Recent(s, l)
  {
    hide Collected, CollectedEvents, Merged, InfoCovered, CarriesData, KeepsHealth, MarkStep, Remembers;
    match l {
      case Begin => NewRemembers();
      case Finish(i, c) =>
        if s.stored.Some? {
          if c.answer.Data? {
            DataRemembered(s.stored.value.status, s.bases[i], s.history, c);
          } else {
            ErrorRemembered(s.stored.value.status, s.bases[i], s.history, c);
          }
        }
      case MarkWrite(i) =>
        MarkKeepsRest(s, i);
        if s.stored.Some? {
          RemembersConditions(s.stored.value.status, MarkStep(s, i).stored.value.status.conditions, s.history);
        }
      case _ =>
    }
  }

  lemma NewRemembers()
    ensures Remembers(NEW_STATUS, [])
  {
  }

  ghost predicate AllRecent(limit: nat, s: State, ls: seq<Label>)
    requires Runs(limit, s, ls)
    decreases |ls|
  {
    ls == [] || (Recent(s, ls[0]) && AllRecent(limit, Apply(limit, s, ls[0]), ls[1..]))
  }

  ghost predicate RemembersThroughout(limit: nat, s: State, ls: seq<Label>)
    requires Runs(limit, s, ls)
    decreases |ls|
  {
    RemembersNow(s) && (ls == [] || RemembersThroughout(limit, Apply(limit, s, ls[0]), ls[1..]))
  }

  /** Any number of calls in flight: the status reports the latest success in every state of a
      run exactly when every patch in it comes from a recent enough base. */
  lemma {:induction false} RemembersIffAllRecent(limit: nat, s: State, ls: seq<Label>)
    requires Versions(s) && RemembersNow(s) && Runs(limit, s, ls)
    ensures RemembersThroughout(limit, s, ls) <==> AllRecent(limit, s, ls)
    decreases |ls|
  {
    hide Versions, RemembersNow, Recent, Apply;
    if ls != [] {
      RemembersStepIff(limit, s, ls[0]);
      if Recent(s, ls[0]) {
        VersionsStep(limit, s, ls[0]);
        RemembersIffAllRecent(limit, Apply(limit, s, ls[0]), ls[1..]);
      } else {
        NotRemembered(limit, Apply(limit, s, ls[0]), ls[1..]);
      }
    }
  }

  lemma NotRemembered(limit: nat, s: State, ls: seq<Label>)
    requires Runs(limit, s, ls) && !RemembersNow(s)
    ensures !RemembersThroughout(limit, s, ls)
  {
  }

  // ----- Event accounting

  /** Does a collection look like news to its base? */
  predicate IsNews(b: Status, a: Answer) {
    match a
    case Data(o) => Find(b.conditions, Degraded) != Some(DegradedCondition(Assess(Some(o)).status))
    case Error(e) => Find(b.conditions, DataCollected) != Some(FailureCondition(e))
  }

  /** A success that is news to its base is news to the stored status too, for the same device,
      and the other way around. */
  predicate DataQuiet(cur: Status, b: Status, info: DiskInfo, o: Smart.Output) {
    var h := Assess(Some(o)).status;
    if IsNews(b, Data(o)) then b.health != h && cur.health != h && Covered(cur.info.path, b.info.path, info.path)
    else b.health == h || cur.health == h
  }

  /** A failure that is news to its base is news to the stored conditions too; one that is not
      news replaces them only if it adds the missing Degraded condition, and then not by news. */
  predicate ErrorQuiet(cur: Status, b: Status, e: CollectError) {
    var stale := Find(cur.conditions, DataCollected) != Some(FailureCondition(e));
    if IsNews(b, Error(e)) then stale
    else !stale || b.health != Unset || Find(b.conditions, Degraded) == Some(DegradedCondition(Unknown))
  }

  predicate QuietPatch(cur: Status, b: Status, c: Collection) {
    match c.answer
    case Data(o) => DataQuiet(cur, b, c.info, o)
    case Error(e) => ErrorQuiet(cur, b, e)
  }

  /** Does this step record exactly the events its change of the stored status calls for? */
  predicate Quiet(s: State, l: Label) {
    match l
    case Finish(i, c) =>
      i < |s.bases| ==>
        if s.stored.None? then !IsNews(s.bases[i], c.answer) else QuietPatch(s.stored.value.status, s.bases[i], c)
    case PatchFails(i, c) => i < |s.bases| ==> !IsNews(s.bases[i], c.answer)
    case MarkWrite(i) =>
      i < |s.markers| && Conflicts(s, s.markers[i]) ==>
        !Differs(s.markers[i].read.status.conditions, MissingCondition(s.markers[i].what))
    case _ => true
  }

  lemma NewsIff(b: Status, c: Collection)
    ensures CollectedEvents(b, c.info, c.answer) == [] <==> !IsNews(b, c.answer)
  {
    hide Assess;
    match c.answer {
      case Data(o) =>
        NeverUnknown(o);
        FindUpsert(b.conditions, SUCCESS_CONDITION, Degraded);
      case Error(e) =>
    }
  }

  lemma DataQuietIff(cur: Status, b: Status, info: DiskInfo, o: Smart.Output, now: nat)
    ensures CollectedEvents(b, info, Data(o)) == DueEvents(cur, Merged(cur, b, Collected(b, info, Data(o), now)))
       <==> DataQuiet(cur, b, info, o)
  {
    hide Assess, Upsert, Find, T.Snapshot, MergedTelemetry;
    var m, h := Collected(b, info, Data(o), now), Assess(Some(o)).status;
    NeverUnknown(o);
    CollectedReports(b, info, Data(o), now);
    FindUpsert(b.conditions, SUCCESS_CONDITION, Degraded);
    assert m.info.path == info.path;
    var r := Merged(cur, b, m);
    assert DueWarning(cur, r) == [];
    assert DueEvents(cur, r) == DueHealth(cur, r);
  }

  lemma ErrorQuietIff(cur: Status, b: Status, info: DiskInfo, e: CollectError, now: nat)
    ensures CollectedEvents(b, info, Error(e)) == DueEvents(cur, Merged(cur, b, Collected(b, info, Error(e), now)))
       <==> ErrorQuiet(cur, b, e)
  {
    hide Find, MergedTelemetry, Upsert;
    var m, f := Collected(b, info, Error(e), now), FailureCondition(e);
    CollectedReports(b, info, Error(e), now);
    FailureUnchangedIff(b, e);
  }

  /** A failure leaves the conditions as they are only if neither condition is new. */
  lemma FailureUnchangedIff(b: Status, e: CollectError)
    ensures AfterFailure(b, e).conditions == b.conditions <==>
              && !IsNews(b, Error(e))
              && (b.health != Unset || Find(b.conditions, Degraded) == Some(DegradedCondition(Unknown)))
  {
    hide Upsert, Find;
    var f, d := FailureCondition(e), DegradedCondition(Unknown);
    UpsertSame(b.conditions, f);
    UpsertSame(Upsert(b.conditions, f), d);
    FindUpsert(b.conditions, f, Degraded);
    FindUpsert(b.conditions, f, DataCollected);
    FindUpsert(Upsert(b.conditions, f), d, DataCollected);
    FindUpsert(Upsert(b.conditions, f), d, Degraded);
  }

  lemma MarkQuietIff(s: State, i: nat)
    requires Versions(s) && i < |s.markers|
    ensures MarkStep(s, i).events == s.events + DueEvents(Current(s), Current(MarkStep(s, i))) <==> Quiet(s, MarkWrite(i))
  {
    hide Upsert, Find, DegradedStatus;
    var m := s.markers[i];
    assert m in s.markers;
    var cs := m.read.status.conditions;
    UpsertSame(cs, MissingCondition(m.what));
    FindUpsert(cs, MissingCondition(m.what), DataCollected);
    NothingDue(Current(s));
    Appended(s.events, WarningEvents(cs, MissingCondition(m.what)), []);
  }

  lemma NothingDue(s: Status)
    ensures DueEvents(s, s) == []
  {
  }

  lemma Appended(events: seq<Event>, a: seq<Event>, b: seq<Event>)
    ensures events + a == events + b <==> a == b
    ensures events + [] == events
  {
    if events + a == events + b {
      assert (events + a)[|events|..] == a && (events + b)[|events|..] == b;
    }
  }

  lemma QuietIff(limit: nat, s: State, l: Label)
    requires Versions(s) && Enabled(limit, s, l)
    ensures Apply(limit, s, l).events == s.events + DueEvents(Current(s), Current(Apply(limit, s, l))) <==> Quiet(s, l)
  {
    hide Collected, CollectedEvents, Merged, IsNews, DataQuiet, ErrorQuiet, MarkStep, DueEvents, Differs;
    NothingDue(Current(s));
    match l {
      case Finish(i, c) =>
        var b := s.bases[i];
        NewsIff(b, c);
        Appended(s.events, CollectedEvents(b, c.info, c.answer), DueEvents(Current(s), Current(FinishStep(s, i, c))));
        if s.stored.Some? {
          match c.answer {
            case Data(o) => DataQuietIff(Current(s), b, c.info, o, c.now);
            case Error(e) => ErrorQuietIff(Current(s), b, c.info, e, c.now);
          }
        }
      case PatchFails(i, c) =>
        NewsIff(s.bases[i], c);
        Appended(s.events, CollectedEvents(s.bases[i], c.info, c.answer), []);
      case MarkWrite(i) => MarkQuietIff(s, i);
      case Delete => DeletionDue(Current(s));
      case _ =>
    }
    Appended(s.events, [], []);
  }

  lemma DeletionDue(s: Status)
    ensures DueEvents(s, NEW_STATUS) == []
  {
  }

  predicate AllQuiet(limit: nat, s: State, ls: seq<Label>)
    requires Runs(limit, s, ls)
    decreases |ls|
  {
    ls == [] || (Quiet(s, ls[0]) && AllQuiet(limit, Apply(limit, s, ls[0]), ls[1..]))
  }

  /** Every step records exactly the events its change of the stored status calls for. */
  predicate AccountedThroughout(limit: nat, s: State, ls: seq<Label>)
    requires Runs(limit, s, ls)
    decreases |ls|
  {
    ls == [] ||
    var t := Apply(limit, s, ls[0]);
    t.events == s.events + DueEvents(Current(s), Current(t)) && AccountedThroughout(limit, t, ls[1..])
  }

  /** Any number of calls in flight, failed writes, conflicts and deletions included: the events
      are those the stored status calls for, step by step, exactly when every step is quiet. */
  lemma {:induction false} AccountedIffAllQuiet(limit: nat, s: State, ls: seq<Label>)
    requires Versions(s) && Runs(limit, s, ls)
    ensures AccountedThroughout(limit, s, ls) <==> AllQuiet(limit, s, ls)
    decreases |ls|
  {
    hide Versions, Quiet, Apply, DueEvents, Current;
    if ls != [] {
      QuietIff(limit, s, ls[0]);
      VersionsStep(limit, s, ls[0]);
      AccountedIffAllQuiet(limit, Apply(limit, s, ls[0]), ls[1..]);
    }
  }

  // ----- From the start

  /** For every run from the very beginning, with any number of collections in flight. */
  lemma FromTheStart(limit: nat, init: State, ls: seq<Label>)
    requires Init(init) && Runs(limit, init, ls)
    ensures HoldsThroughout(limit, init, ls) <==> AllSafe(limit, init, ls)
    ensures RemembersThroughout(limit, init, ls) <==> AllRecent(limit, init, ls)
    ensures AccountedThroughout(limit, init, ls) <==> AllQuiet(limit, init, ls)
  {
    hide Runs, HoldsThroughout, AllSafe, RemembersThroughout, AllRecent, AccountedThroughout, AllQuiet;
    ContractIffAllSafe(limit, init, ls);
    RemembersIffAllRecent(limit, init, ls);
    AccountedIffAllQuiet(limit, init, ls);
  }

  // ----- Concrete runs

  const HEALTHY := Smart.Output([], 0, "ATA", [], "", true, None, None, None, None, None, None)

  const FAILING := HEALTHY.(passed := false)

  function Healthy(now: nat): Collection { Collection(NO_INFO, Data(HEALTHY), now) }

  function Failing(now: nat): Collection { Collection(NO_INFO, Data(FAILING), now) }

  function Standby(now: nat): Collection { Collection(NO_INFO, Error(InStandby), now) }

  /** A disk is collected once and found healthy. */
  const START: seq<Label> := [Begin, Finish(0, Healthy(1))]

  /** Two collections begin from the same base and end one after the other. */
  function Race(first: Collection, second: Collection): seq<Label> {
    [Begin, Begin, Finish(0, first), Finish(0, second)]
  }

  lemma {:induction false} RunsConcat(limit: nat, s: State, a: seq<Label>, b: seq<Label>)
    requires Runs(limit, s, a) && Runs(limit, After(limit, s, a), b)
    ensures Runs(limit, s, a + b) && After(limit, s, a + b) == After(limit, After(limit, s, a), b)
    decreases |a|
  {
    hide Apply, Enabled;
    if a == [] {
      assert a + b == b;
    } else {
      assert (a + b)[1..] == a[1..] + b;
      RunsConcat(limit, Apply(limit, s, a[0]), a[1..], b);
    }
  }

  lemma OneStep(limit: nat, s: State, l: Label)
    requires Enabled(limit, s, l)
    ensures Runs(limit, s, [l]) && After(limit, s, [l]) == Apply(limit, s, l)
  {
    hide Apply, Enabled;
    assert [l][1..] == [];
  }

  lemma TwoSteps(limit: nat, s: State, l: Label, m: Label)
    requires Enabled(limit, s, l) && Enabled(limit, Apply(limit, s, l), m)
    ensures Runs(limit, s, [l, m]) && After(limit, s, [l, m]) == Apply(limit, Apply(limit, s, l), m)
  {
    hide Apply, Enabled;
    OneStep(limit, s, l);
    OneStep(limit, Apply(limit, s, l), m);
    RunsConcat(limit, s, [l], [m]);
    assert [l] + [m] == [l, m];
  }

  lemma TwoBegins(s: State)
    requires s.stored.Some? && s.bases == []
    ensures Runs(2, s, [Begin, Begin])
    ensures After(2, s, [Begin, Begin]) == s.(bases := [s.stored.value.status, s.stored.value.status])
  {
    TwoSteps(2, s, Begin, Begin);
  }

  /** What the two patches of a race store, and the events they record. */
  lemma TwoFinishes(s: State, b: Status, first: Collection, second: Collection)
    requires s.stored.Some? && s.stored.value.status == b && s.bases == [b, b]
    ensures var run := [Finish(0, first), Finish(0, second)];
            && Runs(2, s, run)
            && var t := After(2, s, run);
               && t.stored.Some? && t.bases == []
               && t.stored.value.status == Merged(Outcome(b, first), b, Outcome(b, second))
               && t.history == s.history + [first] + [second]
               && t.events == s.events + CollectedEvents(b, first.info, first.answer)
                                       + CollectedEvents(b, second.info, second.answer)
  {
    hide Collected, CollectedEvents, Merged;
    MergedOntoBase(b, Outcome(b, first));
    TwoSteps(2, s, Finish(0, first), Finish(0, second));
  }

  lemma RaceRun(s: State, first: Collection, second: Collection)
    requires s.stored.Some? && s.bases == []
    ensures Runs(2, s, Race(first, second))
    ensures var b, t := s.stored.value.status, After(2, s, Race(first, second));
            && t.stored.Some?
            && t.stored.value.status == Merged(Outcome(b, first), b, Outcome(b, second))
            && t.history == s.history + [first] + [second]
            && t.events == s.events + CollectedEvents(b, first.info, first.answer)
                                    + CollectedEvents(b, second.info, second.answer)
  {
    hide Collected, CollectedEvents, Merged, Apply, Enabled;
    var b := s.stored.value.status;
    TwoBegins(s);
    var s2 := s.(bases := [b, b]);
    TwoFinishes(s2, b, first, second);
    RunsConcat(2, s, [Begin, Begin], [Finish(0, first), Finish(0, second)]);
    assert [Begin, Begin] + [Finish(0, first), Finish(0, second)] == Race(first, second);
  }

  /** A disk whose latest collection found it healthy. */
  ghost predicate IsHealthy(s: State) {
    && s.stored.Some? && s.bases == [] && s.markers == []
    && HealthyStatus(s.stored.value.status)
  }

  ghost predicate HealthyStatus(b: Status) {
    && b.health == Good && b.info == NO_INFO
    && Find(b.conditions, Degraded) == Some(DegradedCondition(Good))
    && Find(b.conditions, DataCollected) == Some(SUCCESS_CONDITION)
  }

  lemma HealthyVerdicts()
    ensures Assess(Some(HEALTHY)).status == Good && Assess(Some(FAILING)).status == SelfAssessmentFailed
  {
  }

  lemma HealthyCollected(s: Status, now: nat)
    ensures HealthyStatus(Outcome(s, Healthy(now)))
  {
    hide Assess, Find, Upsert, T.Snapshot;
    HealthyVerdicts();
    CollectedReports(s, NO_INFO, Data(HEALTHY), now);
    FindUpsert(Upsert(s.conditions, SUCCESS_CONDITION), DegradedCondition(Good), Degraded);
  }

  lemma StartHealthy(limit: nat, init: State)
    requires Init(init) && limit > 0
    ensures Runs(limit, init, START) && IsHealthy(After(limit, init, START))
    ensures After(limit, init, START).history == [Healthy(1)]
  {
    hide Collected, CollectedEvents, Merged, HealthyStatus;
    MergedOntoBase(NEW_STATUS, Outcome(NEW_STATUS, Healthy(1)));
    HealthyCollected(NEW_STATUS, 1);
    TwoSteps(limit, init, Begin, Finish(0, Healthy(1)));
  }

  /** Two collections in flight separate health from the condition: the first sees the disk
      failing and the second cannot reach it, so the second patch carries the conditions of the
      healthy base but not its health. */
  lemma OverlapBreaksContract(init: State)
    requires Init(init)
    ensures var run := START + Race(Failing(2), Standby(3));
            && Runs(2, init, run)
            && After(2, init, run).stored.Some? && !Contract(After(2, init, run).stored.value.status)
  {
    hide Runs, After, IsHealthy, Contract, Merged, Collected;
    StartHealthy(2, init);
    var s := After(2, init, START);
    assert s.stored.Some? && s.bases == [] && HealthyStatus(s.stored.value.status) by { HealthyParts(s); }
    RaceRun(s, Failing(2), Standby(3));
    RunsConcat(2, init, START, Race(Failing(2), Standby(3)));
    RaceBreaksContract(s.stored.value.status);
  }

  lemma HealthyParts(s: State)
    requires IsHealthy(s)
    ensures s.stored.Some? && s.bases == [] && s.markers == [] && HealthyStatus(s.stored.value.status)
  {
  }

  lemma RaceBreaksContract(b: Status)
    requires HealthyStatus(b)
    ensures !Contract(Merged(Outcome(b, Failing(2)), b, Outcome(b, Standby(3))))
  {
    hide Upsert, Find, Collected, Merged, Assess;
    var m, n := Outcome(b, Failing(2)), Outcome(b, Standby(3));
    CollectedKeepsContract(b, NO_INFO, Data(FAILING), 2);
    CollectedKeepsContract(b, NO_INFO, Error(InStandby), 3);
    CollectedReports(b, NO_INFO, Error(InStandby), 3);
    RaceHealths(b);
    MergeKeepsContractIff(m, b, n);
  }

  lemma RaceHealths(b: Status)
    requires b.health == Good
    ensures Outcome(b, Failing(2)).health == SelfAssessmentFailed && Outcome(b, Healthy(3)).health == Good
    ensures Outcome(b, Standby(3)).health == Good
  {
    hide Upsert;
  }

  /** Two collections in flight make an assessed disk Unknown: both begin before the first
      assessment, one assesses the disk, the other fails. */
  lemma OverlapForgetsAssessment(init: State)
    requires Init(init)
    ensures var early, last := [Begin, Begin, Finish(0, Healthy(1))], [Finish(0, Standby(2))];
            && Runs(2, init, early) && Runs(2, init, early + last)
            && HasHealth(After(2, init, early), Good) && HasHealth(After(2, init, early + last), Unknown)
  {
    hide Runs, After, Outcome, CollectedEvents, Merged;
    var one, two := Finish(0, Healthy(1)), Finish(0, Standby(2));
    TwoSteps(2, init, Begin, Begin);
    var s := After(2, init, [Begin, Begin]);
    assert s.stored.Some? && s.stored.value.status == NEW_STATUS && s.bases == [NEW_STATUS, NEW_STATUS];
    RaceEnds(s, Healthy(1), Standby(2));
    RunsConcat(2, init, [Begin, Begin], [one]);
    RunsConcat(2, init, [Begin, Begin], [one, two]);
    assert [Begin, Begin] + [one] == [Begin, Begin, one];
    assert [Begin, Begin] + [one, two] == [Begin, Begin, one] + [two];
    FirstHealths();
  }

  predicate HasHealth(s: State, h: Health) { s.stored.Some? && s.stored.value.status.health == h }

  lemma RaceEnds(s: State, first: Collection, second: Collection)
    requires s.stored.Some? && s.bases == [s.stored.value.status, s.stored.value.status]
    ensures var b, one, both := s.stored.value.status, [Finish(0, first)], [Finish(0, first), Finish(0, second)];
            && Runs(2, s, one) && Runs(2, s, both)
            && HasHealth(After(2, s, one), Outcome(b, first).health)
            && HasHealth(After(2, s, both), Merged(Outcome(b, first), b, Outcome(b, second)).health)
  {
    hide Collected, CollectedEvents, Merged;
    var b := s.stored.value.status;
    MergedOntoBase(b, Outcome(b, first));
    OneStep(2, s, Finish(0, first));
    TwoFinishes(s, b, first, second);
  }

  lemma FirstHealths()
    ensures var m := Outcome(NEW_STATUS, Healthy(1));
            m.health == Good && Merged(m, NEW_STATUS, Outcome(NEW_STATUS, Standby(2))).health == Unknown
  {
    hide Upsert;
  }

  /** Two collections in flight hide the latest success: a healthy disk is seen failing by the
      first and healthy again by the second, whose patch finds the health unchanged since its base
      and leaves it out. The latest success says Good, the status SelfAssessmentFailed. */
  lemma OverlapHidesLatestSuccess(init: State)
    requires Init(init)
    ensures var run := START + Race(Failing(2), Healthy(3));
            && Runs(2, init, run)
            && var s := After(2, init, run);
               && s.stored.Some? && s.stored.value.status.health == SelfAssessmentFailed
               && LatestData(s.history) == Some(Healthy(3)) && Assess(Some(HEALTHY)).status == Good
  {
    hide Runs, After, IsHealthy, Collected, CollectedEvents, Assess;
    StartHealthy(2, init);
    var s := After(2, init, START);
    HealthyParts(s);
    HealthyVerdicts();
    RaceRun(s, Failing(2), Healthy(3));
    RunsConcat(2, init, START, Race(Failing(2), Healthy(3)));
    RaceHealths(s.stored.value.status);
  }

  /** Two collections in flight report one transition twice. */
  lemma OverlapRepeatsEvent(init: State)
    requires Init(init)
    ensures var run := START + Race(Failing(2), Failing(3));
            && Runs(2, init, run)
            && var es := After(2, init, run).events;
               |es| >= 2 && es[|es| - 1] == es[|es| - 2] == Event(true, HealthReason(SelfAssessmentFailed),
                                                                   DegradedText("", SelfAssessmentFailed))
  {
    hide Runs, After, IsHealthy, Collected, CollectedEvents, Assess, Merged;
    StartHealthy(2, init);
    var s := After(2, init, START);
    HealthyParts(s);
    RaceRun(s, Failing(2), Failing(3));
    RunsConcat(2, init, START, Race(Failing(2), Failing(3)));
    FailingEvent(s.stored.value.status);
  }

  lemma FailingEvent(b: Status)
    requires HealthyStatus(b)
    ensures CollectedEvents(b, NO_INFO, Data(FAILING))
         == [Event(true, HealthReason(SelfAssessmentFailed), DegradedText("", SelfAssessmentFailed))]
  {
    hide Find, Upsert, Assess;
    HealthyVerdicts();
    FindUpsert(b.conditions, SUCCESS_CONDITION, Degraded);
  }

  // ----- Masked successes

  /** A successful collection shows in the DataCollected condition exactly when its base did not
      show the same conditions already, or the stored condition still says success. */
  lemma SuccessShownIff(s: State, i: nat, c: Collection)
    requires i < |s.bases| && s.stored.Some? && c.answer.Data?
    ensures var b, m := s.bases[i], Outcome(s.bases[i], c);
            Find(FinishStep(s, i, c).stored.value.status.conditions, DataCollected) == Some(SUCCESS_CONDITION) <==>
              b.conditions != m.conditions
              || Find(s.stored.value.status.conditions, DataCollected) == Some(SUCCESS_CONDITION)
  {
    hide Collected, CollectedEvents;
    CollectedReports(s.bases[i], c.info, c.answer, c.now);
  }

  /** Marked as missing between the begin and the end of a collection. */
  const MASKED: seq<Label> := [Begin, MarkRead(InventoryScan), MarkWrite(0), Finish(0, Healthy(2))]

  /** One collection in flight is enough to mask a success: a healthy disk is marked missing while
      it is being collected; the collection succeeds and its time is stored, yet DataCollected
      stays DiskMissing. */
  lemma SuccessCanBeMasked(init: State)
    requires Init(init)
    ensures Runs(1, init, START + MASKED) && After(1, init, START + MASKED).stored.Some?
    ensures var r := After(1, init, START + MASKED).stored.value.status;
            r.collectedAt == Some(2) && Find(r.conditions, DataCollected) == Some(MissingCondition(InventoryScan))
  {
    hide Runs, After, IsHealthy, Collected, CollectedEvents;
    StartHealthy(1, init);
    var s := After(1, init, START);
    HealthyParts(s);
    StartStatus(init);
    MaskedRun(s);
    RunsConcat(1, init, START, MASKED);
  }

  lemma StartStatus(init: State)
    requires Init(init)
    ensures Runs(1, init, START) && After(1, init, START).stored.Some?
    ensures After(1, init, START).stored.value.status.collectedAt == Some(1)
  {
    hide CollectedEvents, Assess, T.Snapshot, Upsert;
    TwoSteps(1, init, Begin, Finish(0, Healthy(1)));
  }

  lemma MaskedRun(s: State)
    requires IsHealthy(s) && s.stored.value.status.collectedAt == Some(1)
    ensures Runs(1, s, MASKED) && After(1, s, MASKED).stored.Some?
    ensures var r := After(1, s, MASKED).stored.value.status;
            r.collectedAt == Some(2) && Find(r.conditions, DataCollected) == Some(MissingCondition(InventoryScan))
  {
    hide Collected, CollectedEvents, WarningEvents, HealthyStatus, Upsert, Find, Merged;
    var b := s.stored.value.status;
    var first, last := [Begin, MarkRead(InventoryScan)], [MarkWrite(0), Finish(0, Healthy(2))];
    TwoSteps(1, s, Begin, MarkRead(InventoryScan));
    var t := After(1, s, first);
    MissingIsNew(b);
    assert t.bases == [b] && t.markers == [Marker(s.stored.value, InventoryScan)];
    TwoSteps(1, t, MarkWrite(0), Finish(0, Healthy(2)));
    RunsConcat(1, s, first, last);
    assert first + last == MASKED;
    MaskedStatus(b);
  }

  lemma MissingIsNew(b: Status)
    requires HealthyStatus(b)
    ensures Differs(b.conditions, MissingCondition(InventoryScan))
  {
  }

  lemma MaskedStatus(b: Status)
    requires HealthyStatus(b) && b.collectedAt == Some(1)
    ensures var r := Merged(Marked(b, InventoryScan), b, Outcome(b, Healthy(2)));
            r.collectedAt == Some(2) && Find(r.conditions, DataCollected) == Some(MissingCondition(InventoryScan))
  {
    hide Upsert, Find, Assess, T.Snapshot, MergedTelemetry;
    HealthyVerdicts();
    UpsertSame(b.conditions, SUCCESS_CONDITION);
    UpsertSame(b.conditions, DegradedCondition(Good));
    FindUpsert(b.conditions, MissingCondition(InventoryScan), DataCollected);
  }
}
