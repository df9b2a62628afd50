/** The parts of smartctl's JSON output that assessment, telemetry and metrics read. */
module Smart {
  import opened Wrappers
  import opened Text

  const TWO_63: int := 0x8000_0000_0000_0000

  type int64 = x: int | -TWO_63 <= x < TWO_63

  /** The value a 64-bit register holds after an operation whose exact result is `x`. */
  function Wrap(x: int): int64 { (x + TWO_63) % (2 * TWO_63) - TWO_63 }

  /** 64-bit addition. */
  function Add(x: int64, y: int64): int64 {
    if x + y >= TWO_63 then x + y - 2 * TWO_63
    else if x + y < -TWO_63 then x + y + 2 * TWO_63
    else x + y
  }

  datatype Attribute = Attribute(
    id: int64, name: string, value: int64, worst: int64, threshold: int64, whenFailed: string, raw: int64)

  datatype Nvme = Nvme(
    criticalWarning: int64, temperature: int64, availableSpare: int64, availableSpareThreshold: int64,
    percentageUsed: int64, mediaErrors: int64, numErrLogEntries: int64)

  /** Total uncorrected errors of the read and the write error counter log. */
  datatype ScsiLog = ScsiLog(read: Option<int64>, write: Option<int64>)

  /** `labels` stands for the descriptive texts that only end up in metric labels. */
  datatype Output = Output(
    version: seq<int>, exitStatus: int, protocol: string, labels: seq<string>,
    firmwareVersion: string, passed: bool, temperature: Option<int64>,
    powerOnHours: Option<int64>, powerCycleCount: Option<int64>,
    ata: Option<seq<Attribute>>, nvme: Option<Nvme>, scsi: Option<ScsiLog>)

  const EXIT_DISK_FAILING := 8
  const EXIT_PREFAIL_BELOW := 16
  const EXIT_BELOW_PAST := 32

  /** `bit` is a power of two. The quotient is rounded down, as in two's complement. */
  predicate HasExitBit(o: Output, bit: int)
    requires bit > 0
  {
    (o.exitStatus / bit) % 2 == 1
  }

  predicate Breached(value: int, threshold: int) {
    0 < threshold <= 0xFD && 0 < value <= threshold
  }

  predicate IsAttributeFailingNow(a: Attribute) {
    a.whenFailed == "now" || EqualFold(a.whenFailed, "failing_now") || Breached(a.value, a.threshold)
  }

  predicate IsAttributeFailedInPast(a: Attribute) {
    a.whenFailed == "past" || EqualFold(a.whenFailed, "in_the_past") || Breached(a.worst, a.threshold)
  }

  /** The last table entry with this ID. */
  function LastRaw(table: seq<Attribute>, id: int): (r: Option<int64>)
    ensures r.Some? ==> exists a :: a in table && a.id == id && a.raw == r.value
    ensures r.None? <==> forall a :: a in table ==> a.id != id
  {
    if table == [] then None
    else if table[|table| - 1].id == id then
      assert table[|table| - 1] in table;
      Some(table[|table| - 1].raw)
    else
      assert table == table[..|table| - 1] + [table[|table| - 1]];
      LastRaw(table[..|table| - 1], id)
  }

  /** Entry `i` is the last one of the table with this ID. */
  predicate IsLastOf(table: seq<Attribute>, id: int, i: int) {
    0 <= i < |table| && table[i].id == id && forall j :: i < j < |table| ==> table[j].id != id
  }

  lemma {:induction false} LastRawMeaning(table: seq<Attribute>, id: int, i: int)
    requires IsLastOf(table, id, i)
    ensures LastRaw(table, id) == Some(table[i].raw)
    decreases |table|
  {
    var n := |table| - 1;
    if i < n {
      var rest := table[..n];
      assert forall j :: 0 <= j < n ==> rest[j] == table[j];
      assert table[n].id != id;
      LastRawMeaning(rest, id, i);
    }
  }

  /** What makes an attribute fail: the drive says so, or the normalized value has reached a
      threshold from 1 to 253; values of zero do not count. */
  lemma AttributeStates(a: Attribute)
    ensures IsAttributeFailingNow(a) <==>
              || a.whenFailed == "now" || EqualFold(a.whenFailed, "failing_now")
              || (1 <= a.threshold <= 253 && 1 <= a.value <= a.threshold)
    ensures IsAttributeFailedInPast(a) <==>
              || a.whenFailed == "past" || EqualFold(a.whenFailed, "in_the_past")
              || (1 <= a.threshold <= 253 && 1 <= a.worst <= a.threshold)
  {
  }

  /** 64-bit addition is addition modulo 2^64. */
  lemma AddWraps(x: int64, y: int64)
    ensures Add(x, y) == Wrap(x + y) && (Add(x, y) - x - y) % 0x1_0000_0000_0000_0000 == 0
  {
  }

  lemma {:induction false} LastRawConcat(a: seq<Attribute>, b: seq<Attribute>, id: int)
    ensures LastRaw(a + b, id) == if LastRaw(b, id).Some? then LastRaw(b, id) else LastRaw(a, id)
    decreases |b|
  {
    if b == [] {
      assert a + b == a;
    } else {
      assert (a + b)[..|a + b| - 1] == a + b[..|b| - 1];
      LastRawConcat(a, b[..|b| - 1], id);
    }
  }

  function OrZero(v: Option<int64>): int64 { if v.Some? then v.value else 0 }
}
