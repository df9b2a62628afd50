/**
 * The status of a PhysicalDisk, its conditions, and what one collection does to it.
 *
 * Reasons and message texts are equality tokens: two of them are equal exactly when the texts
 * they stand for are.
 */
module DiskStatus {
  import opened Wrappers
  import opened DiskInfos
  import Smart
  import opened Assessment
  import T = Telemetry

  datatype ConditionType = Degraded | DataCollected | OtherType(name: string)

  datatype ConditionStatus = IsTrue | IsFalse | IsUnknown

  datatype Reason =
    | HealthReason(health: Health)
    | Succeeded
    | Failed
    | SkippedStandby
    | DiskMissing
    | SmartUnsupported

  datatype Message =
    | AssessedAs(health: Health)
    | CollectedSuccessfully
    | SkippedInStandby
    | MissingOrUnreadable(error: string)
    | SmartNotAvailable
    | ExecutionFailed(error: string)
    | NotFoundDuring(what: Occasion)

  datatype Occasion = Reconcile | InventoryScan

  datatype Condition = Condition(kind: ConditionType, status: ConditionStatus, reason: Reason, message: Message)

  datatype Status = Status(
    health: Health, collectedAt: Option<nat>, conditions: seq<Condition>, info: DiskInfo,
    telemetry: Option<T.Telemetry>, findings: seq<Finding>)

  const NO_INFO := DiskInfo("", "", "", [], 0, 0, "", "", "", "", "", "", "", "")

  const NEW_STATUS := Status(Unset, None, [], NO_INFO, None, [])

  // ----- Conditions

  function Find(cs: seq<Condition>, kind: ConditionType): Option<Condition> {
    if cs == [] then None else if cs[0].kind == kind then Some(cs[0]) else Find(cs[1..], kind)
  }

  /** meta.SetStatusCondition: replaces the condition of this type or appends it. */
  function Upsert(cs: seq<Condition>, c: Condition): seq<Condition> {
    if cs == [] then [c] else if cs[0].kind == c.kind then [c] + cs[1..] else [cs[0]] + Upsert(cs[1..], c)
  }

  /** Its result: was the type absent, or status, reason or message different? */
  predicate Differs(cs: seq<Condition>, c: Condition) { Find(cs, c.kind) != Some(c) }

  lemma {:induction false} FindUpsert(cs: seq<Condition>, c: Condition, kind: ConditionType)
    ensures Find(Upsert(cs, c), kind) == if kind == c.kind then Some(c) else Find(cs, kind)
    decreases |cs|
  {
    if cs != [] {
      FindUpsert(cs[1..], c, kind);
      assert ([cs[0]] + Upsert(cs[1..], c))[1..] == Upsert(cs[1..], c);
      assert ([c] + cs[1..])[1..] == cs[1..];
    }
  }

  lemma {:induction false} UpsertSame(cs: seq<Condition>, c: Condition)
    ensures Upsert(cs, c) == cs <==> !Differs(cs, c)
    decreases |cs|
  {
    if cs == [] {
    } else if cs[0].kind == c.kind {
      assert ([c] + cs[1..])[0] == c;
      assert cs == [cs[0]] + cs[1..];
    } else {
      UpsertSame(cs[1..], c);
      assert cs == [cs[0]] + cs[1..];
      assert ([cs[0]] + Upsert(cs[1..], c))[1..] == Upsert(cs[1..], c);
    }
  }

  // ----- Health

  function DegradedStatus(h: Health): ConditionStatus {
    match h
    case Unknown => IsUnknown
    case Good => IsFalse
    case _ => IsTrue
  }

  function DegradedCondition(h: Health): Condition {
    Condition(Degraded, DegradedStatus(h), HealthReason(h), AssessedAs(h))
  }

  /** The documented contract: health equals the reason of the Degraded condition, which is
      absent exactly while health is empty and Unknown, False or True as the health demands. */
  predicate Contract(s: Status) {
    match Find(s.conditions, Degraded)
    case None => s.health == Unset
    case Some(c) => s.health != Unset && c == DegradedCondition(s.health)
  }

  datatype EventText = HealthyText(path: string) | DegradedText(path: string, health: Health) | ConditionText(message: Message)

  datatype Event = Event(isWarning: bool, reason: Reason, text: EventText)

  function WithHealth(s: Status, h: Health): Status {
    s.(health := h, conditions := Upsert(s.conditions, DegradedCondition(h)))
  }

  function HealthEvents(s: Status, h: Health): seq<Event> {
    if !Differs(s.conditions, DegradedCondition(h)) then []
    else
      match DegradedStatus(h)
      case IsTrue => [Event(true, HealthReason(h), DegradedText(s.info.path, h))]
      case IsFalse => [Event(false, HealthReason(h), HealthyText(s.info.path))]
      case IsUnknown => []
  }

  // ----- Collections

  datatype CollectError = InStandby | NotFound(text: string) | Unsupported | OtherError(text: string)

  datatype Answer = Data(output: Smart.Output) | Error(error: CollectError)

  function FailureCondition(e: CollectError): Condition {
    match e
    case InStandby => Condition(DataCollected, IsFalse, SkippedStandby, SkippedInStandby)
    case NotFound(t) => Condition(DataCollected, IsFalse, DiskMissing, MissingOrUnreadable(t))
    case Unsupported => Condition(DataCollected, IsFalse, SmartUnsupported, SmartNotAvailable)
    case OtherError(t) => Condition(DataCollected, IsFalse, Failed, ExecutionFailed(t))
  }

  const SUCCESS_CONDITION := Condition(DataCollected, IsTrue, Succeeded, CollectedSuccessfully)

  function MissingCondition(what: Occasion): Condition {
    Condition(DataCollected, IsFalse, DiskMissing, NotFoundDuring(what))
  }

  function WarningEvents(cs: seq<Condition>, c: Condition): seq<Event> {
    if Differs(cs, c) then [Event(true, c.reason, ConditionText(c.message))] else []
  }

  function AfterFailure(s: Status, e: CollectError): Status {
    var t := s.(conditions := Upsert(s.conditions, FailureCondition(e)));
    if t.health == Unset then WithHealth(t, Unknown) else t
  }

  function FailureEvents(s: Status, e: CollectError): seq<Event> {
    WarningEvents(s.conditions, FailureCondition(e))
  }

  function AfterSuccess(s: Status, o: Smart.Output, now: nat): Status {
    var r := Assess(Some(o));
    WithHealth(
      s.(collectedAt := Some(now), telemetry := Some(T.Snapshot(o)), findings := r.findings,
         conditions := Upsert(s.conditions, SUCCESS_CONDITION)),
      r.status)
  }

  function SuccessEvents(s: Status, o: Smart.Output): seq<Event> {
    HealthEvents(s.(conditions := Upsert(s.conditions, SUCCESS_CONDITION)), Assess(Some(o)).status)
  }

  /** The disk information that ends up in the status: the firmware version is smartctl's, if it
      reports one. */
  function FreshInfo(info: DiskInfo, a: Answer): DiskInfo {
    if a.Data? && a.output.firmwareVersion != "" then info.(firmwareVersion := a.output.firmwareVersion) else info
  }

  /** What one collection makes of a status. */
  function Collected(s: Status, info: DiskInfo, a: Answer, now: nat): Status {
    var t := s.(info := FreshInfo(info, a));
    match a
    case Error(e) => AfterFailure(t, e)
    case Data(o) => AfterSuccess(t, o, now)
  }

  function CollectedEvents(s: Status, info: DiskInfo, a: Answer): seq<Event> {
    var t := s.(info := FreshInfo(info, a));
    match a
    case Error(e) => FailureEvents(t, e)
    case Data(o) => SuccessEvents(t, o)
  }

  /** What the DataCollected condition says about an answer: its status, its reason and its message
      for a success and for each of the four kinds of error. */
  predicate Tells(cs: seq<Condition>, a: Answer) {
    match Find(cs, DataCollected)
    case None => false
    case Some(c) =>
      && c.kind == DataCollected
      && c.status == (if a.Data? then IsTrue else IsFalse)
      && (c.reason == Succeeded <==> a.Data?)
      && (c.reason == SkippedStandby <==> a == Error(InStandby))
      && (c.reason == SmartUnsupported <==> a == Error(Unsupported))
      && (c.reason == DiskMissing <==> a.Error? && a.error.NotFound?)
      && (c.reason == Failed <==> a.Error? && a.error.OtherError?)
      && c.message == match a
                      case Data(_) => CollectedSuccessfully
                      case Error(InStandby) => SkippedInStandby
                      case Error(NotFound(text)) => MissingOrUnreadable(text)
                      case Error(Unsupported) => SmartNotAvailable
                      case Error(OtherError(text)) => ExecutionFailed(text)
  }

  // ----- The objects the controller works on

  class Recorder {
    var events: seq<Event>

    constructor ()
      ensures events == []
    {
      events := [];
    }

    method Record(e: Event)
      modifies this
      ensures events == old(events) + [e]
    {
      events := events + [e];
    }
  }

  /** The in-memory copy of a PhysicalDisk's status. */
  class DiskCopy {
    var health: Health
    var collectedAt: Option<nat>
    var conditions: seq<Condition>
    var info: DiskInfo
    var telemetry: Option<T.Telemetry>
    var findings: seq<Finding>

    function Value(): Status
      reads this
    {
      Status(health, collectedAt, conditions, info, telemetry, findings)
    }

    constructor (s: Status)
      ensures Value() == s
    {
      health, collectedAt, conditions := s.health, s.collectedAt, s.conditions;
      info, telemetry, findings := s.info, s.telemetry, s.findings;
    }

    /** Walks the conditions as meta.SetStatusCondition does. */
    method SetStatusCondition(c: Condition) returns (changed: bool)
      modifies this`conditions
      ensures conditions == Upsert(old(conditions), c)
      ensures changed == Differs(old(conditions), c)
    {
      var i := 0;
      while i < |conditions| && conditions[i].kind != c.kind
        invariant 0 <= i <= |conditions| && conditions == old(conditions)
        invariant Find(conditions, c.kind) == Find(conditions[i..], c.kind)
        invariant Upsert(conditions, c) == conditions[..i] + Upsert(conditions[i..], c)
      {
        assert conditions[i..][0] == conditions[i] && conditions[i..][1..] == conditions[i + 1..];
        i := i + 1;
      }
      if i == |conditions| {
        assert conditions[i..] == [] && conditions[..i] == conditions;
        conditions := conditions + [c];
        return true;
      }
      assert conditions[i..][0] == conditions[i] && conditions[i..][1..] == conditions[i + 1..];
      changed := conditions[i] != c;
      assert conditions[..i] + ([c] + conditions[i + 1..]) == conditions[i := c];
      conditions := conditions[i := c];
    }

    /** Keeps health and the Degraded condition in step and reports a transition once. */
    method SetHealth(h: Health, recorder: Recorder)
      modifies this`health, this`conditions, recorder
      ensures Value() == WithHealth(old(Value()), h)
      ensures recorder.events == old(recorder.events) + HealthEvents(old(Value()), h)
    {
      health := h;
      var status := if h == Unknown then IsUnknown else if h == Good then IsFalse else IsTrue;
      var changed := SetStatusCondition(Condition(Degraded, status, HealthReason(h), AssessedAs(h)));
      if !changed {
        return;
      }
      match status {
        case IsTrue => recorder.Record(Event(true, HealthReason(h), DegradedText(info.path, h)));
        case IsFalse => recorder.Record(Event(false, HealthReason(h), HealthyText(info.path)));
        case IsUnknown =>
      }
    }

    method ApplyCollectionFailure(e: CollectError, recorder: Recorder)
      modifies this`health, this`conditions, recorder
      ensures Value() == AfterFailure(old(Value()), e)
      ensures recorder.events == old(recorder.events) + FailureEvents(old(Value()), e)
      ensures Tells(conditions, Error(e))
    {
      var c := FailureCondition(e);
      FailureTells(Value(), e);
      var changed := SetStatusCondition(c);
      if changed {
        recorder.Record(Event(true, c.reason, ConditionText(c.message)));
      }
      if health == Unset {
        SetHealth(Unknown, recorder);
      }
    }

    method ApplyCollectionSuccess(o: Smart.Output, now: nat, recorder: Recorder)
      modifies this, recorder
      ensures Value() == AfterSuccess(old(Value()), o, now)
      ensures recorder.events == old(recorder.events) + SuccessEvents(old(Value()), o)
      ensures Tells(conditions, Data(o))
    {
      SuccessTells(Value(), o, now);
      collectedAt := Some(now);
      telemetry := T.ExtractTelemetry(Some(o));
      var changed := SetStatusCondition(SUCCESS_CONDITION);
      var r := Evaluate(Some(o));
      findings := r.findings;
      SetHealth(r.status, recorder);
    }
  }

  // ----- The contract and one collection

  /** Every collection, successful or not, re-establishes the contract. */
  lemma CollectedKeepsContract(s: Status, info: DiskInfo, a: Answer, now: nat)
    requires Contract(s)
    ensures Contract(Collected(s, info, a, now))
    ensures Collected(s, info, a, now).health != Unset
  {
    match a {
      case Error(e) =>
        FindUpsert(s.conditions, FailureCondition(e), Degraded);
        FindUpsert(Upsert(s.conditions, FailureCondition(e)), DegradedCondition(Unknown), Degraded);
      case Data(o) =>
        var h := Assess(Some(o)).status;
        NeverUnknown(o);
        FindUpsert(Upsert(s.conditions, SUCCESS_CONDITION), DegradedCondition(h), Degraded);
    }
  }

  /** The contract in the words of the documentation: health is the reason of the Degraded
      condition, which is absent only while health is empty; status and message follow from it. */
  lemma ContractMeaning(s: Status)
    ensures Contract(s) <==>
              match Find(s.conditions, Degraded)
              case None => s.health == Unset
              case Some(c) =>
                && s.health != Unset && c.reason == HealthReason(s.health) && c.message == AssessedAs(s.health)
                && c.status == if s.health == Unknown then IsUnknown else if s.health == Good then IsFalse else IsTrue
  {
    FindKind(s.conditions, Degraded);
  }

  lemma {:induction false} FindKind(cs: seq<Condition>, kind: ConditionType)
    ensures Find(cs, kind).Some? ==> Find(cs, kind).value.kind == kind
    decreases |cs|
  {
    if cs != [] && cs[0].kind != kind {
      FindKind(cs[1..], kind);
    }
  }

  lemma FailureTells(s: Status, e: CollectError)
    ensures var cs := AfterFailure(s, e).conditions;
            Tells(cs, Error(e)) && Find(cs, DataCollected) == Some(FailureCondition(e))
  {
    FindUpsert(s.conditions, FailureCondition(e), DataCollected);
    FindUpsert(Upsert(s.conditions, FailureCondition(e)), DegradedCondition(Unknown), DataCollected);
  }

  lemma SuccessTells(s: Status, o: Smart.Output, now: nat)
    ensures var cs := AfterSuccess(s, o, now).conditions;
            Tells(cs, Data(o)) && Find(cs, DataCollected) == Some(SUCCESS_CONDITION)
  {
    hide T.Snapshot, Assess;
    FindUpsert(s.conditions, SUCCESS_CONDITION, DataCollected);
    FindUpsert(Upsert(s.conditions, SUCCESS_CONDITION), DegradedCondition(Assess(Some(o)).status), DataCollected);
  }

  /** The DataCollected condition after a collection reports exactly that collection: every kind of
      error has its own reason and message. */
  lemma CollectedReports(s: Status, info: DiskInfo, a: Answer, now: nat)
    ensures Tells(Collected(s, info, a, now).conditions, a)
    ensures Find(Collected(s, info, a, now).conditions, DataCollected)
         == Some(if a.Data? then SUCCESS_CONDITION else FailureCondition(a.error))
  {
    hide Tells, AfterSuccess, AfterFailure, Find;
    match a {
      case Error(e) => FailureTells(s.(info := FreshInfo(info, a)), e);
      case Data(o) => SuccessTells(s.(info := FreshInfo(info, a)), o, now);
    }
  }

  /** The events of a collection. A failure warns exactly if it changes the DataCollected condition,
      with that condition's reason and message. A success reports the health exactly if it changes
      the Degraded condition: a warning unless the disk is good. */
  lemma CollectedRecords(s: Status, info: DiskInfo, a: Answer, now: nat)
    ensures var t, events := Collected(s, info, a, now), CollectedEvents(s, info, a);
            match a
            case Error(_) =>
              var c := Find(t.conditions, DataCollected);
              && c.Some?
              && (Find(s.conditions, DataCollected) == c ==> events == [])
              && (Find(s.conditions, DataCollected) != c ==> events == [Event(true, c.value.reason, ConditionText(c.value.message))])
            case Data(_) =>
              if Find(s.conditions, Degraded) == Find(t.conditions, Degraded) then events == []
              else
                events == if t.health == Good then [Event(false, HealthReason(Good), HealthyText(info.path))]
                          else [Event(true, HealthReason(t.health), DegradedText(info.path, t.health))]
  {
    hide T.Snapshot, Assess;
    CollectedReports(s, info, a, now);
    if a.Data? {
      var h := Assess(Some(a.output)).status;
      NeverUnknown(a.output);
      FindUpsert(s.conditions, SUCCESS_CONDITION, Degraded);
      FindUpsert(Upsert(s.conditions, SUCCESS_CONDITION), DegradedCondition(h), Degraded);
    }
  }

  /** Collecting the same answer again changes nothing but the time, and records no event. */
  lemma CollectedTwice(s: Status, info: DiskInfo, a: Answer, now: nat, later: nat)
    ensures var t := Collected(s, info, a, now);
            && Collected(t, info, a, later) == (if a.Data? then t.(collectedAt := Some(later)) else t)
            && CollectedEvents(t, info, a) == []
  {
    var t := Collected(s, info, a, now);
    CollectedReports(s, info, a, now);
    match a {
      case Error(e) =>
        UpsertSame(t.conditions, FailureCondition(e));
      case Data(o) =>
        var h := Assess(Some(o)).status;
        FindUpsert(Upsert(s.conditions, SUCCESS_CONDITION), DegradedCondition(h), Degraded);
        UpsertSame(t.conditions, SUCCESS_CONDITION);
        UpsertSame(t.conditions, DegradedCondition(h));
    }
  }
}
