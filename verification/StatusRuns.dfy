/**
 * One PhysicalDisk over its life: collections in flight that patch from the base they read,
 * conflict-retried markDiskMissing writes, writes of others, and deletion, in any order.
 */
module StatusRuns {
  import opened Wrappers
  import opened DiskInfos
  import Smart
  import opened Assessment
  import opened DiskStatus
  import opened StatusPatch
  import T = Telemetry

  /** The stored object with its resource version. */
  datatype Stored = Stored(status: Status, rv: nat)

  /** A markDiskMissing call between its read and its write. */
  datatype Marker = Marker(read: Stored, what: Occasion)

  datatype Collection = Collection(info: DiskInfo, answer: Answer, now: nat)

  /** `bases` holds the status each reconcileDisk call in flight has read, `history` the
      collections written since the object was created. */
  datatype State = State(
    stored: Option<Stored>, revision: nat, bases: seq<Status>, markers: seq<Marker>,
    events: seq<Event>, history: seq<Collection>)

  datatype Label =
    | Begin                          // reconcileDisk gets or creates the object
    | Finish(i: nat, c: Collection)  // its collection ends and the status patch is sent
    | PatchFails(i: nat, c: Collection)
    | MarkRead(what: Occasion)
    | MarkWrite(i: nat)              // update with the resource version that was read
    | Touch                          // a write of the spec or the labels
    | Delete

  ghost predicate Init(s: State) {
    s.stored.None? && s.bases == [] && s.markers == [] && s.events == [] && s.history == []
  }

  /** `limit` bounds the reconcileDisk calls in flight for this disk. */
  predicate Enabled(limit: nat, s: State, l: Label) {
    match l
    case Begin => |s.bases| < limit
    case Finish(i, _) => i < |s.bases|
    case PatchFails(i, _) => i < |s.bases|
    case MarkRead(_) => s.stored.Some?
    case MarkWrite(i) => i < |s.markers|
    case Touch => s.stored.Some?
    case Delete => s.stored.Some?
  }

  function Without<A>(q: seq<A>, i: nat): seq<A>
    requires i < |q|
  {
    q[..i] + q[i + 1..]
  }

  function Write(s: State, status: Status): State {
    s.(stored := Some(Stored(status, s.revision + 1)), revision := s.revision + 1)
  }

  function Outcome(b: Status, c: Collection): Status { Collected(b, c.info, c.answer, c.now) }

  /** A patch that changes nothing leaves the resource version as it is. */
  function FinishStep(s: State, i: nat, c: Collection): State
    requires i < |s.bases|
  {
    var b := s.bases[i];
    var t := s.(bases := Without(s.bases, i), events := s.events + CollectedEvents(b, c.info, c.answer));
    if s.stored.None? then t
    else
      var merged := Merged(s.stored.value.status, b, Outcome(b, c));
      (if merged == s.stored.value.status then t else Write(t, merged)).(history := s.history + [c])
  }

  function Marked(s: Status, what: Occasion): Status {
    s.(conditions := Upsert(s.conditions, MissingCondition(what)))
  }

  predicate Conflicts(s: State, m: Marker) { s.stored.None? || s.stored.value.rv != m.read.rv }

  function MarkStep(s: State, i: nat): State
    requires i < |s.markers|
  {
    var m := s.markers[i];
    var t := s.(markers := Without(s.markers, i));
    if !Differs(m.read.status.conditions, MissingCondition(m.what)) then t
    else
      var u := t.(events := t.events + WarningEvents(m.read.status.conditions, MissingCondition(m.what)));
      if Conflicts(s, m) then u else Write(u, Marked(m.read.status, m.what))
  }

  function Apply(limit: nat, s: State, l: Label): State
    requires Enabled(limit, s, l)
  {
    match l
    case Begin =>
      var t := if s.stored.Some? then s else Write(s, NEW_STATUS).(history := []);
      t.(bases := t.bases + [t.stored.value.status])
    case Finish(i, c) => FinishStep(s, i, c)
    case PatchFails(i, c) =>
      s.(bases := Without(s.bases, i), events := s.events + CollectedEvents(s.bases[i], c.info, c.answer))
    case MarkRead(what) => s.(markers := s.markers + [Marker(s.stored.value, what)])
    case MarkWrite(i) => MarkStep(s, i)
    case Touch => Write(s, s.stored.value.status)
    case Delete => s.(stored := None)
  }

  predicate Runs(limit: nat, s: State, ls: seq<Label>)
    decreases |ls|
  {
    ls == [] || (Enabled(limit, s, ls[0]) && Runs(limit, Apply(limit, s, ls[0]), ls[1..]))
  }

  function After(limit: nat, s: State, ls: seq<Label>): State
    requires Runs(limit, s, ls)
    decreases |ls|
  {
    if ls == [] then s else After(limit, Apply(limit, s, ls[0]), ls[1..])
  }

  // ----- What the status remembers

  /** The latest successful collection. */
  function LatestData(h: seq<Collection>): Option<Collection> {
    if h == [] then None
    else if h[|h| - 1].answer.Data? then Some(h[|h| - 1])
    else LatestData(h[..|h| - 1])
  }

  lemma LatestDataIsData(h: seq<Collection>)
    ensures LatestData(h).Some? ==> LatestData(h).value.answer.Data?
  {
  }

  /** Health, findings, telemetry and collection time are those of the latest success; before
      any success there is nothing, and health is Unknown once a collection was attempted. */
  ghost predicate Remembers(s: Status, h: seq<Collection>) {
    && (h != [] ==> s.info == FreshInfo(h[|h| - 1].info, h[|h| - 1].answer))
    && match LatestData(h)
       case None =>
         && s.health == (if h == [] then Unset else Unknown)
         && s.collectedAt == None && s.telemetry == None && s.findings == []
       case Some(c) =>
         && c.answer.Data?
         && var o := c.answer.output;
            && s.health == Assess(Some(o)).status
            && s.findings == Assess(Some(o)).findings
            && s.telemetry == Some(T.Snapshot(o))
            && s.collectedAt == Some(c.now)
  }

  /** A condition that only a failed collection writes. */
  predicate FromFailure(c: Option<Condition>) {
    c.Some? && c.value.status == IsFalse && !c.value.message.NotFoundDuring?
  }

  ghost predicate Sound(s: Status) {
    Contract(s) && (FromFailure(Find(s.conditions, DataCollected)) ==> s.health != Unset)
  }

  /** A base is the stored status up to missing marks written since it was read. */
  ghost predicate Related(s: Status, b: Status) {
    && s == b.(conditions := s.conditions)
    && Find(s.conditions, Degraded) == Find(b.conditions, Degraded)
    && (Find(s.conditions, DataCollected) == Find(b.conditions, DataCollected)
        || exists w :: Find(s.conditions, DataCollected) == Some(MissingCondition(w)))
  }

  /** What was read is what is stored, as long as the resource version is the same. */
  predicate Fresh(s: State, read: Stored) {
    && read.rv <= s.revision
    && (s.stored.Some? && s.stored.value.rv == read.rv ==> s.stored.value == read)
  }

  ghost predicate Inv(s: State) {
    && |s.bases| <= 1
    && (s.stored.Some? ==> Sound(s.stored.value.status) && s.stored.value.rv <= s.revision
                           && Remembers(s.stored.value.status, s.history))
    && (forall b :: b in s.bases ==> Sound(b) && (s.stored.Some? ==> Related(s.stored.value.status, b)))
    && (forall m :: m in s.markers ==> Fresh(s, m.read))
  }

  /** With a base that is only missing marks behind, the patch writes the collection's result,
      except that unchanged conditions keep those marks. */
  lemma PatchOnRelated(c: Status, b: Status, m: Status)
    requires Related(c, b)
    ensures Merged(c, b, m) == m.(conditions := if b.conditions == m.conditions then c.conditions else m.conditions)
  {
  }

  lemma CollectedSound(b: Status, c: Collection)
    requires Sound(b)
    ensures Sound(Outcome(b, c)) && Outcome(b, c).health != Unset
  {
    CollectedKeepsContract(b, c.info, c.answer, c.now);
  }

  lemma CollectedRemembers(b: Status, h: seq<Collection>, c: Collection)
    requires Remembers(b, h)
    ensures Remembers(Outcome(b, c), h + [c])
  {
    assert (h + [c])[..|h + [c]| - 1] == h;
    LatestDataIsData(h);
    match c.answer {
      case Data(o) =>
      case Error(e) =>
        if LatestData(h).Some? {
          NeverUnknown(LatestData(h).value.answer.output);
        }
    }
  }

  lemma RemembersConditions(s: Status, cs: seq<Condition>, h: seq<Collection>)
    requires Remembers(s, h)
    ensures Remembers(s.(conditions := cs), h)
  {
  }

  lemma FinishInv(s: State, c: Collection)
    requires Inv(s) && |s.bases| == 1
    ensures Inv(FinishStep(s, 0, c))
  {
    var b := s.bases[0];
    assert b in s.bases;
    CollectedSound(b, c);
    if s.stored.Some? {
      var cur, m := s.stored.value.status, Outcome(b, c);
      PatchOnRelated(cur, b, m);
      RemembersConditions(cur, b.conditions, s.history);
      assert b == cur.(conditions := b.conditions);
      CollectedRemembers(b, s.history, c);
      RemembersConditions(m, Merged(cur, b, m).conditions, s.history + [c]);
    }
  }

  lemma MarkInv(s: State, i: nat)
    requires Inv(s) && i < |s.markers|
    ensures Inv(MarkStep(s, i))
  {
    var m := s.markers[i];
    assert m in s.markers;
    assert forall x :: x in Without(s.markers, i) ==> x in s.markers;
    if Differs(m.read.status.conditions, MissingCondition(m.what)) && !Conflicts(s, m) {
      var cs := m.read.status.conditions;
      FindUpsert(cs, MissingCondition(m.what), Degraded);
      FindUpsert(cs, MissingCondition(m.what), DataCollected);
      RemembersConditions(m.read.status, Upsert(cs, MissingCondition(m.what)), s.history);
    }
  }

  lemma NewSound()
    ensures Sound(NEW_STATUS) && Remembers(NEW_STATUS, []) && Related(NEW_STATUS, NEW_STATUS)
  {
  }

  lemma InvStep(s: State, l: Label)
    requires Inv(s) && Enabled(1, s, l)
    ensures Inv(Apply(1, s, l))
  {
    hide Remembers, Contract, Collected, FinishStep, MarkStep;
    match l {
      case Begin =>
        NewSound();
        assert Find(NEW_STATUS.conditions, Degraded).None? && Find(NEW_STATUS.conditions, DataCollected).None?;
      case Finish(i, c) => FinishInv(s, c);
      case PatchFails(i, c) =>
      case MarkRead(w) =>
      case MarkWrite(i) => MarkInv(s, i);
      case Touch =>
      case Delete =>
    }
  }

  lemma {:induction false} InvAlways(s: State, ls: seq<Label>)
    requires Inv(s) && Runs(1, s, ls)
    ensures Inv(After(1, s, ls))
    decreases |ls|
  {
    if ls != [] {
      InvStep(s, ls[0]);
      InvAlways(Apply(1, s, ls[0]), ls[1..]);
    }
  }

  /** The documented contract holds after every step of every run in which at most one
      reconcileDisk is in flight, whatever missing marks, writes and deletions come between. */
  lemma ContractAlwaysHolds(init: State, ls: seq<Label>)
    requires Init(init) && Runs(1, init, ls) && After(1, init, ls).stored.Some?
    ensures Contract(After(1, init, ls).stored.value.status)
  {
    InvAlways(init, ls);
  }

  /** After any run, the status reports the latest successful collection of this object. */
  lemma LatestSuccessRemembered(init: State, ls: seq<Label>)
    requires Init(init) && Runs(1, init, ls) && After(1, init, ls).stored.Some?
    ensures Remembers(After(1, init, ls).stored.value.status, After(1, init, ls).history)
  {
    InvAlways(init, ls);
  }

  predicate Assessed(s: State) { s.stored.Some? && s.stored.value.status.health !in {Unset, Unknown} }

  lemma AssessedIff(s: Status, h: seq<Collection>)
    requires Remembers(s, h)
    ensures s.health !in {Unset, Unknown} <==> LatestData(h).Some?
  {
    if LatestData(h).Some? {
      NeverUnknown(LatestData(h).value.answer.output);
    }
  }

  lemma AssessedStep(s: State, l: Label)
    requires Inv(s) && Enabled(1, s, l) && l != Delete && Assessed(s)
    ensures Assessed(Apply(1, s, l))
  {
    hide Merged, Collected, CollectedEvents, Marked, Differs, WarningEvents;
    var t := Apply(1, s, l);
    InvStep(s, l);
    AssessedIff(s.stored.value.status, s.history);
    AssessedIff(t.stored.value.status, t.history);
    if l.Finish? {
      assert (s.history + [l.c])[..|s.history + [l.c]| - 1] == s.history;
    }
  }

  /** Once a disk was assessed, its health never falls back to Unknown during its life. */
  lemma {:induction false} NeverUnknownAgain(s: State, ls: seq<Label>)
    requires Inv(s) && Runs(1, s, ls) && Delete !in ls && Assessed(s)
    ensures Assessed(After(1, s, ls))
    decreases |ls|
  {
    if ls != [] {
      InvStep(s, ls[0]);
      AssessedStep(s, ls[0]);
      NeverUnknownAgain(Apply(1, s, ls[0]), ls[1..]);
    }
  }

  // ----- Event accounting

  /** The events that a change of the stored status calls for: a warning when DataCollected
      becomes a different False condition, and a health event when the health becomes another
      one that was assessed. */
  function DueEvents(old0: Status, new0: Status): seq<Event> { DueWarning(old0, new0) + DueHealth(old0, new0) }

  function DueWarning(old0: Status, new0: Status): seq<Event> {
    match Find(new0.conditions, DataCollected)
    case Some(c) =>
      if c.status == IsFalse && Find(old0.conditions, DataCollected) != Some(c)
      then [Event(true, c.reason, ConditionText(c.message))] else []
    case None => []
  }

  function DueHealth(old0: Status, new0: Status): seq<Event> {
    if new0.health == old0.health || new0.health == Unset then []
    else
      match DegradedStatus(new0.health)
      case IsTrue => [Event(true, HealthReason(new0.health), DegradedText(new0.info.path, new0.health))]
      case IsFalse => [Event(false, HealthReason(new0.health), HealthyText(new0.info.path))]
      case IsUnknown => []
  }

  function Current(s: State): Status { if s.stored.Some? then s.stored.value.status else NEW_STATUS }

  /** No status write fails: no patch error, no conflict, and no object deleted under a collection. */
  predicate FirstAttempt(s: State, l: Label) {
    match l
    case Finish(_, _) => s.stored.Some?
    case PatchFails(_, _) => false
    case MarkWrite(i) => i < |s.markers| ==> !Conflicts(s, s.markers[i])
    case _ => true
  }

  lemma FinishEvents(s: State, c: Collection)
    requires Inv(s) && |s.bases| == 1 && s.stored.Some?
    ensures FinishStep(s, 0, c).events == s.events + DueEvents(Current(s), Current(FinishStep(s, 0, c)))
  {
    var b := s.bases[0];
    assert b in s.bases;
    var cur, m := s.stored.value.status, Outcome(b, c);
    var r := Merged(cur, b, m);
    PatchOnRelated(cur, b, m);
    CollectedReports(b, c.info, c.answer, c.now);
    CollectedSound(b, c);
    match c.answer {
      case Data(o) => DataEvents(b, c.info, o, c.now, cur);
      case Error(e) => ErrorEvents(b, c.info, e, c.now, cur);
    }
  }

  /** On success the only event is the change of health. */
  lemma DataEvents(b: Status, info: DiskInfo, o: Smart.Output, now: nat, cur: Status)
    requires Sound(b) && Sound(cur) && Related(cur, b)
    ensures var m := Collected(b, info, Data(o), now);
            CollectedEvents(b, info, Data(o))
            == DueEvents(cur, m.(conditions := if b.conditions == m.conditions then cur.conditions else m.conditions))
  {
    var m := Collected(b, info, Data(o), now);
    var h := Assess(Some(o)).status;
    NeverUnknown(o);
    CollectedReports(b, info, Data(o), now);
    FindUpsert(b.conditions, SUCCESS_CONDITION, Degraded);
    assert Differs(Upsert(b.conditions, SUCCESS_CONDITION), DegradedCondition(h)) <==> h != b.health;
  }

  /** On failure the only event is the DataCollected warning. */
  lemma ErrorEvents(b: Status, info: DiskInfo, e: CollectError, now: nat, cur: Status)
    requires Sound(b) && Sound(cur) && Related(cur, b)
    ensures var m := Collected(b, info, Error(e), now);
            CollectedEvents(b, info, Error(e))
            == DueEvents(cur, m.(conditions := if b.conditions == m.conditions then cur.conditions else m.conditions))
  {
    var m := Collected(b, info, Error(e), now);
    CollectedReports(b, info, Error(e), now);
    UpsertSame(b.conditions, FailureCondition(e));
    if b.health == Unset {
      assert Differs(b.conditions, FailureCondition(e));
      assert m.health == Unknown;
    } else {
      assert m.conditions == Upsert(b.conditions, FailureCondition(e));
    }
  }

  lemma EventsStep(s: State, l: Label)
    requires Inv(s) && Enabled(1, s, l) && FirstAttempt(s, l)
    ensures Apply(1, s, l).events == s.events + DueEvents(Current(s), Current(Apply(1, s, l)))
  {
    hide FinishStep, MarkStep, Inv;
    match l {
      case Finish(i, c) =>
        InvBounds(s);
        FinishEvents(s, c);
      case MarkWrite(i) => MarkEvents(s, i);
      case _ =>
    }
  }

  lemma InvBounds(s: State)
    requires Inv(s)
    ensures |s.bases| <= 1
  {
    hide Sound, Remembers, Related;
  }

  lemma MarkEvents(s: State, i: nat)
    requires Inv(s) && i < |s.markers| && !Conflicts(s, s.markers[i])
    ensures MarkStep(s, i).events == s.events + DueEvents(Current(s), Current(MarkStep(s, i)))
  {
    hide Upsert, Sound, Remembers, Related;
    var m := s.markers[i];
    assert m in s.markers;
    UpsertSame(m.read.status.conditions, MissingCondition(m.what));
    FindUpsert(m.read.status.conditions, MissingCondition(m.what), DataCollected);
  }

  predicate AllFirstAttempts(s: State, ls: seq<Label>)
    requires Runs(1, s, ls)
    decreases |ls|
  {
    ls == [] || (FirstAttempt(s, ls[0]) && AllFirstAttempts(Apply(1, s, ls[0]), ls[1..]))
  }

  /** The events due for the consecutive statuses a run stores. */
  function DueAlong(s: State, ls: seq<Label>): seq<Event>
    requires Runs(1, s, ls)
    decreases |ls|
  {
    if ls == [] then []
    else DueEvents(Current(s), Current(Apply(1, s, ls[0]))) + DueAlong(Apply(1, s, ls[0]), ls[1..])
  }

  /** Over every run whose writes succeed at the first attempt, the recorded events are exactly
      those its changes of status call for, in order: none is missing and none is repeated. */
  lemma {:induction false} EventsAccounted(s: State, ls: seq<Label>)
    requires Inv(s) && Runs(1, s, ls) && AllFirstAttempts(s, ls)
    ensures After(1, s, ls).events == s.events + DueAlong(s, ls)
    decreases |ls|
  {
    if ls == [] {
      assert s.events + [] == s.events;
    } else {
      EventsStep(s, ls[0]);
      InvStep(s, ls[0]);
      EventsAccounted(Apply(1, s, ls[0]), ls[1..]);
      DueAlongStep(s, ls);
    }
  }

  lemma DueAlongStep(s: State, ls: seq<Label>)
    requires Runs(1, s, ls) && ls != []
    requires Apply(1, s, ls[0]).events == s.events + DueEvents(Current(s), Current(Apply(1, s, ls[0])))
    requires After(1, s, ls).events == Apply(1, s, ls[0]).events + DueAlong(Apply(1, s, ls[0]), ls[1..])
    ensures After(1, s, ls).events == s.events + DueAlong(s, ls)
  {
    var due, rest := DueEvents(Current(s), Current(Apply(1, s, ls[0]))), DueAlong(Apply(1, s, ls[0]), ls[1..]);
    Associative(s.events, due, rest);
  }

  lemma Associative(a: seq<Event>, b: seq<Event>, c: seq<Event>)
    ensures (a + b) + c == a + (b + c)
  {
  }
}
