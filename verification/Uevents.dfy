/**
 * Decoding libudev messages, the filter for disk changes, and the receive loop.
 *
 * A message is a sequence of bytes, written as characters with codes 0 to 255.
 */
module Uevents {
  import opened Wrappers
  import opened Text
  import Discovery
  import InventoryProtocol

  type Env = map<string, string>

  const NUL: char := 0 as char
  const PREFIX: string := "libudev" + [NUL]
  const MAGIC := 0xfeed_cafe
  const MAGIC_OFF := 8
  const PROPS_OFF := 16
  const MIN_HEADER := 40
  const TWO_32 := 0x1_0000_0000

  datatype Endian = BigEndian | LittleEndian

  function Word(e: Endian, a: char, b: char, c: char, d: char): int {
    match e
    case BigEndian => ((a as int * 256 + b as int) * 256 + c as int) * 256 + d as int
    case LittleEndian => ((d as int * 256 + c as int) * 256 + b as int) * 256 + a as int
  }

  function Word32(e: Endian, b: string, off: nat): int
    requires off + 4 <= |b|
  {
    Word(e, b[off], b[off + 1], b[off + 2], b[off + 3])
  }

  datatype MessageError = NotLibudev | BadMagic | BadOffset(off: int)

  function AddField(env: Env, field: string): Env {
    var (k, v, ok) := Cut(field, '=');
    if ok && k != "" then env[k := v] else env
  }

  function AddFields(env: Env, fields: seq<string>): Env
    decreases |fields|
  {
    if fields == [] then env else AddFields(AddField(env, fields[0]), fields[1..])
  }

  /** Where the properties start, if the header is acceptable. The length is compared as a
      32-bit number. */
  function Header(native: Endian, b: string): Result<nat, MessageError> {
    if |b| < MIN_HEADER || !(PREFIX <= b) then Err(NotLibudev)
    else if Word32(BigEndian, b, MAGIC_OFF) != MAGIC then Err(BadMagic)
    else
      var off := Word32(native, b, PROPS_OFF);
      if off < MIN_HEADER || off >= |b| % TWO_32 then Err(BadOffset(off)) else Ok(off)
  }

  /** Every accepted offset lies behind the header and inside the message. */
  lemma OffsetInBounds(native: Endian, b: string)
    requires Header(native, b).Ok?
    ensures MIN_HEADER <= Header(native, b).value < |b|
  {
  }

  function Parse(native: Endian, b: string): Result<Env, MessageError> {
    match Header(native, b)
    case Err(e) => Err(e)
    case Ok(off) => if off <= |b| then Ok(AddFields(map[], Split(b[off..], NUL))) else Err(BadOffset(off))
  }

  method ParseMessage(native: Endian, b: string) returns (r: Result<Env, MessageError>)
    ensures r == Parse(native, b)
  {
    if |b| < MIN_HEADER || !(PREFIX <= b) {
      return Err(NotLibudev);
    }
    if Word32(BigEndian, b, MAGIC_OFF) != MAGIC {
      return Err(BadMagic);
    }
    var off := Word32(native, b, PROPS_OFF);
    if off < MIN_HEADER || off >= |b| % TWO_32 {
      return Err(BadOffset(off));
    }
    OffsetInBounds(native, b);
    var env: Env := map[];
    var fields := Split(b[off..], NUL);
    for i := 0 to |fields|
      invariant AddFields(map[], fields) == AddFields(env, fields[i..])
    {
      assert fields[i..][0] == fields[i] && fields[i..][1..] == fields[i + 1..];
      var (k, v, ok) := Cut(fields[i], '=');
      if ok && k != "" {
        env := env[k := v];
      }
    }
    return Ok(env);
  }

  // ----- Encoding

  function Bytes32(e: Endian, n: nat): string
    requires n < TWO_32
  {
    var a, b, c, d := (n / 0x100_0000) as char, (n / 0x1_0000 % 0x100) as char, (n / 0x100 % 0x100) as char, (n % 0x100) as char;
    match e
    case BigEndian => [a, b, c, d]
    case LittleEndian => [d, c, b, a]
  }

  lemma BytesWord(e: Endian, n: nat)
    requires n < TWO_32
    ensures Word32(e, Bytes32(e, n), 0) == n
  {
    FourDigits(n);
  }

  lemma FourDigits(n: nat)
    ensures ((n / 0x100_0000 * 256 + n / 0x1_0000 % 0x100) * 256 + n / 0x100 % 0x100) * 256 + n % 0x100 == n
  {
    Digit(n, 0x100);
    Digit(n, 0x1_0000);
  }

  lemma Digit(n: nat, base: nat)
    requires base == 0x100 || base == 0x1_0000
    ensures n / base == n / (base * 0x100) * 0x100 + n / base % 0x100
  {
    assert n / base / 0x100 == n / (base * 0x100);
  }

  /** The header udev writes in front of the properties: prefix, magic, header size, properties
      offset, and 20 bytes the listener does not look at. */
  function HeaderBytes(native: Endian, unused: string): string
    requires |unused| == 20
  {
    PREFIX + Bytes32(BigEndian, MAGIC) + Bytes32(native, MIN_HEADER) + Bytes32(native, MIN_HEADER) + unused
  }

  /** Every property as KEY=VALUE, each followed by NUL. */
  function Payload(props: seq<(string, string)>): string {
    if props == [] then "" else props[0].0 + "=" + props[0].1 + [NUL] + Payload(props[1..])
  }

  function Fields(props: seq<(string, string)>): seq<string> {
    if props == [] then [""] else [props[0].0 + "=" + props[0].1] + Fields(props[1..])
  }

  /** The environment a list of properties describes; a repeated key keeps its last value. */
  function EnvOf(env: Env, props: seq<(string, string)>): Env
    decreases |props|
  {
    if props == [] then env else EnvOf(env[props[0].0 := props[0].1], props[1..])
  }

  predicate Encodable(p: (string, string)) {
    p.0 != "" && '=' !in p.0 && NUL !in p.0 && NUL !in p.1
  }

  lemma {:induction false} PayloadSplits(props: seq<(string, string)>)
    requires forall p :: p in props ==> Encodable(p)
    ensures Payload(props) == Join(Fields(props), NUL)
    ensures forall f :: f in Fields(props) ==> NUL !in f
  {
    if props != [] {
      PayloadSplits(props[1..]);
      assert Encodable(props[0]);
      assert Fields(props)[1..] == Fields(props[1..]);
    }
  }

  lemma {:induction false} FieldsRead(env: Env, props: seq<(string, string)>)
    requires forall p :: p in props ==> Encodable(p)
    ensures AddFields(env, Fields(props)) == EnvOf(env, props)
    decreases |props|
  {
    if props == [] {
      assert [""][1..] == [];
    } else {
      var (k, v) := props[0];
      assert Encodable((k, v));
      CutAt(k, '=', v);
      FieldsRead(env[k := v], props[1..]);
      assert Fields(props)[1..] == Fields(props[1..]);
    }
  }

  lemma HeaderReads(native: Endian, unused: string, payload: string)
    requires |unused| == 20 && payload != "" && |payload| + MIN_HEADER < TWO_32
    ensures var b := HeaderBytes(native, unused) + payload;
            Header(native, b) == Ok(MIN_HEADER) && b[MIN_HEADER..] == payload
  {
    var m, h := Bytes32(BigEndian, MAGIC), Bytes32(native, MIN_HEADER);
    var b := HeaderBytes(native, unused) + payload;
    BytesWord(BigEndian, MAGIC);
    BytesWord(native, MIN_HEADER);
    assert |PREFIX| == 8;
    assert b[..8] == PREFIX;
    assert b[8..12] == m && b[16..20] == h;
    assert b[8] == m[0] && b[9] == m[1] && b[10] == m[2] && b[11] == m[3];
    assert b[16] == h[0] && b[17] == h[1] && b[18] == h[2] && b[19] == h[3];
  }

  /** Every non-empty environment survives encoding and parsing, on either byte order. */
  lemma MessageRoundTrip(native: Endian, unused: string, props: seq<(string, string)>)
    requires |unused| == 20 && props != [] && (forall p :: p in props ==> Encodable(p))
    requires |Payload(props)| + MIN_HEADER < TWO_32
    ensures Parse(native, HeaderBytes(native, unused) + Payload(props)) == Ok(EnvOf(map[], props))
  {
    HeaderReads(native, unused, Payload(props));
    PayloadSplits(props);
    SplitJoin(Fields(props), NUL);
    FieldsRead(map[], props);
  }

  // ----- The fields of any message

  predicate IsFieldOf(field: string, k: string) { k != "" && '=' !in k && k + "=" <= field }

  /** Field `i` is the last one with key `k`. */
  predicate IsLastField(fields: seq<string>, k: string, i: int) {
    0 <= i < |fields| && IsFieldOf(fields[i], k) && forall j :: i < j < |fields| ==> !IsFieldOf(fields[j], k)
  }

  lemma AddFieldMeaning(env: Env, field: string, k: string)
    ensures var e := AddField(env, field);
            if IsFieldOf(field, k) then k in e && e[k] == field[|k| + 1..]
            else (k in e <==> k in env) && (k in env ==> e[k] == env[k])
  {
    if IsFieldOf(field, k) {
      CutAt(k, '=', field[|k| + 1..]);
      assert field == k + "=" + field[|k| + 1..];
    } else {
      var (key, v, found) := Cut(field, '=');
      if found {
        assert field[..|key|] == key && field[|key|] == '=';
        assert key + "=" == field[..|key| + 1];
      }
    }
  }

  lemma {:induction false} AddFieldsMeaning(env: Env, fields: seq<string>, k: string)
    ensures var e := AddFields(env, fields);
            && (k in e <==> k in env || exists f :: f in fields && IsFieldOf(f, k))
            && (forall i :: IsLastField(fields, k, i) ==> e[k] == fields[i][|k| + 1..])
            && (k in env && !(exists f :: f in fields && IsFieldOf(f, k)) ==> e[k] == env[k])
    decreases |fields|
  {
    hide AddField;
    if fields != [] {
      var rest := fields[1..];
      AddFieldMeaning(env, fields[0], k);
      AddFieldsMeaning(AddField(env, fields[0]), rest, k);
      assert forall f :: f in fields <==> f == fields[0] || f in rest;
      forall i | IsLastField(fields, k, i) ensures AddFields(env, fields)[k] == fields[i][|k| + 1..] {
        assert forall j :: 0 < j < |fields| ==> fields[j] == rest[j - 1];
        if i > 0 {
          assert IsLastField(rest, k, i - 1);
        } else {
          assert forall f :: f in rest ==> !IsFieldOf(f, k);
        }
      }
    }
  }

  /** What an accepted message says, field by field: a key is there exactly if some NUL-separated field
      starts with it and '=', and it has what follows in the last such field. No key is empty. */
  lemma ParsedFields(native: Endian, b: string, k: string)
    requires Parse(native, b).Ok?
    ensures var env, fields := Parse(native, b).value, Split(b[Header(native, b).value..], NUL);
            && (k in env <==> k != "" && '=' !in k && exists f :: f in fields && k + "=" <= f)
            && (forall i :: IsLastField(fields, k, i) ==> k in env && env[k] == fields[i][|k| + 1..])
  {
    hide Header, AddFields;
    var fields := Split(b[Header(native, b).value..], NUL);
    AddFieldsMeaning(map[], fields, k);
    if f :| f in fields && IsFieldOf(f, k) {
      assert k + "=" <= f;
    }
    if k != "" && '=' !in k {
      assert forall f :: f in fields ==> (k + "=" <= f <==> IsFieldOf(f, k));
    }
  }

  // ----- The wire format

  predicate IsBytes(b: string) { forall i :: 0 <= i < |b| ==> b[i] as int < 256 }

  /** Which headers are accepted: at least 40 bytes, "libudev" and NUL, the magic number with its most
      significant byte first, and a properties offset in the byte order of the machine that lies
      behind the header and inside the message. */
  lemma WireFormat(native: Endian, b: string)
    requires IsBytes(b) && |b| < 0x1_0000_0000
    ensures Header(native, b).Ok? <==>
              && |b| >= 40 && b[..7] == "libudev" && b[7] as int == 0
              && b[8] as int == 0xfe && b[9] as int == 0xed && b[10] as int == 0xca && b[11] as int == 0xfe
              && 40 <= OffsetAt16(native, b) < |b|
    ensures Header(native, b).Ok? ==> Header(native, b).value == OffsetAt16(native, b)
  {
    assert TWO_32 == 0x1_0000_0000 && |b| % 0x1_0000_0000 == |b|;
    if |b| >= 40 {
      PrefixIs(b);
      MagicIs(b);
    }
  }

  /** The number in bytes 16 to 19. */
  function OffsetAt16(native: Endian, b: string): int
    requires |b| >= 40
  {
    var b16, b17, b18, b19 := b[16] as int, b[17] as int, b[18] as int, b[19] as int;
    match native
    case LittleEndian => b16 + 0x100 * b17 + 0x1_0000 * b18 + 0x100_0000 * b19
    case BigEndian => b19 + 0x100 * b18 + 0x1_0000 * b17 + 0x100_0000 * b16
  }

  lemma PrefixIs(b: string)
    requires |b| >= 8
    ensures PREFIX <= b <==> b[..7] == "libudev" && b[7] as int == 0
  {
    assert PREFIX[..7] == "libudev" && PREFIX[7] == NUL;
    if b[..7] == "libudev" && b[7] as int == 0 {
      assert b[7] == NUL;
      assert b[..8] == b[..7] + [b[7]];
    }
    if PREFIX <= b {
      assert b[..8] == PREFIX;
      assert b[..7] == b[..8][..7];
    }
  }

  lemma MagicIs(b: string)
    requires |b| >= 40 && IsBytes(b)
    ensures Word32(BigEndian, b, MAGIC_OFF) == MAGIC <==>
              b[8] as int == 0xfe && b[9] as int == 0xed && b[10] as int == 0xca && b[11] as int == 0xfe
  {
  }

  // ----- The filter

  /** path.Base: the last element, ignoring trailing slashes. */
  function Base(path: string): string {
    var p := TrimRight(path, IsSlash);
    var parts := Split(p, '/');
    if path == "" then "." else if p == "" then "/" else parts[|parts| - 1]
  }

  predicate IsSlash(c: char) { c == '/' }

  lemma TrailingSlashIgnored(path: string)
    requires path != ""
    ensures Base(path + "/") == Base(path) && Base("/") == "/" && Base("") == "."
  {
    var s := path + "/";
    assert s[..|s| - 1] == path && s[|s| - 1] == '/';
    assert "/"[..0] == "";
  }

  predicate IsDiskChange(env: Env) {
    && Discovery.Prop(env, "SUBSYSTEM") == "block"
    && Discovery.Prop(env, "DEVTYPE") == "disk"
    && Discovery.Prop(env, "ACTION") in ["add", "remove"]
    && !Discovery.ShouldIgnore(Base(Discovery.Prop(env, "DEVPATH")), env)
  }

  lemma {:induction false} LastPart(dir: string, name: string)
    requires '/' !in name
    ensures var parts := Split(dir + "/" + name, '/');
            parts[|parts| - 1] == name
    decreases |dir|
  {
    var s := dir + "/" + name;
    var i := IndexOf(s, '/');
    hide Split;
    LastSplit(s);
    SlashAt(dir, name, i);
    if i < |dir| {
      assert s[i + 1..] == dir[i + 1..] + "/" + name;
      LastPart(dir[i + 1..], name);
    } else {
      assert s[i + 1..] == name;
      OnePart(name);
    }
  }

  lemma SlashAt(dir: string, name: string, i: nat)
    requires i == IndexOf(dir + "/" + name, '/')
    ensures i <= |dir|
  {
    var s := dir + "/" + name;
    assert s[|dir|] == '/';
    assert forall k :: 0 <= k < i ==> s[k] == s[..i][k] && s[k] != '/';
  }

  lemma OnePart(name: string)
    requires '/' !in name
    ensures Split(name, '/') == [name]
  {
    IndexOfPrefix(name, '/', "");
  }

  lemma LastSplit(s: string)
    ensures var i, parts := IndexOf(s, '/'), Split(s, '/');
            i < |s| ==> var rest := Split(s[i + 1..], '/'); parts[|parts| - 1] == rest[|rest| - 1]
  {
  }

  lemma BaseOf(dir: string, name: string)
    requires '/' !in name && name != ""
    ensures Base(dir + "/" + name) == name
  {
    var s := dir + "/" + name;
    assert s[|s| - 1] == name[|name| - 1];
    assert name[|name| - 1] in name;
    LastPart(dir, name);
  }

  /** For an add or remove event of a whole disk, the listener reacts exactly when the scan's
      own filter keeps a record with the same kernel name and the same ID_* values. */
  lemma FiltersAgree(env: Env, dir: string, name: string, props: Discovery.Props)
    requires Discovery.Prop(env, "SUBSYSTEM") == "block" && Discovery.Prop(env, "DEVTYPE") == "disk"
    requires Discovery.Prop(env, "ACTION") in ["add", "remove"]
    requires Discovery.Prop(env, "DEVPATH") == dir + "/" + name && '/' !in name && name != ""
    requires forall k :: k in ["ID_BUS", "ID_PATH", "ID_VENDOR", "ID_MODEL"] ==>
                           Discovery.Prop(env, k) == Discovery.Prop(props, k)
    ensures IsDiskChange(env) <==> !Discovery.ShouldIgnore(name, props)
  {
    BaseOf(dir, name);
    var ks := ["ID_BUS", "ID_PATH", "ID_VENDOR", "ID_MODEL"];
    assert ks[0] in ks && ks[1] in ks && ks[2] in ks && ks[3] in ks;
  }

  /** The filter for every message, not only for the disks: it lets exactly the events through that
      add or remove a block device of type disk which a scan would not ignore. A change event, an
      event about a partition or about another subsystem is none of them. */
  lemma EventAlarmsIff(native: Endian, unused: string, props: seq<(string, string)>, dir: string, name: string)
    requires |unused| == 20 && props != [] && (forall p :: p in props ==> Encodable(p))
    requires |Payload(props)| + MIN_HEADER < TWO_32
    requires Discovery.Prop(EnvOf(map[], props), "DEVPATH") == dir + "/" + name && '/' !in name && name != ""
    ensures var env := EnvOf(map[], props);
            Hints(native, Data(HeaderBytes(native, unused) + Payload(props))) <==>
              && Discovery.Prop(env, "SUBSYSTEM") == "block" && Discovery.Prop(env, "DEVTYPE") == "disk"
              && (Discovery.Prop(env, "ACTION") == "add" || Discovery.Prop(env, "ACTION") == "remove")
              && !Discovery.ShouldIgnore(name, env)
  {
    hide Parse, Payload, HeaderBytes, Discovery.ShouldIgnore, Base;
    MessageRoundTrip(native, unused, props);
    BaseOf(dir, name);
  }

  // ----- The receive loop

  /** What one receive call yields. `Closed` is the end of the context. */
  datatype Receive =
    | Data(message: string)
    | Truncated(message: string)
    | NoBufferSpace
    | Interrupted
    | ReceiveFailed
    | Closed

  /** Does this outcome make the listener call trigger? */
  predicate Hints(native: Endian, r: Receive) {
    match r
    case Data(b) => Parse(native, b).Ok? && IsDiskChange(Parse(native, b).value)
    case Truncated(_) => true
    case NoBufferSpace => true
    case _ => false
  }

  predicate Ends(r: Receive) { r.ReceiveFailed? || r.Closed? }

  /** Trigger calls caused by the outcomes up to the one that ends the loop. */
  function HintCount(native: Endian, rs: seq<Receive>): nat {
    if rs == [] || Ends(rs[0]) then 0
    else (if Hints(native, rs[0]) then 1 else 0) + HintCount(native, rs[1..])
  }

  /** Does the socket fail before the context ends? */
  predicate FailsFirst(rs: seq<Receive>) {
    rs != [] && (rs[0].ReceiveFailed? || (!Ends(rs[0]) && FailsFirst(rs[1..])))
  }

  /** What every single outcome contributes. A full buffer and a truncated datagram alarm whatever was
      lost, an interrupted call is repeated, and a failure or the end of the context ends the loop. */
  lemma {:induction false} OutcomeCounts(native: Endian, a: seq<Receive>, r: Receive, b: seq<Receive>)
    requires forall x :: x in a ==> !x.ReceiveFailed? && !x.Closed?
    ensures HintCount(native, a + [r] + b)
         == HintCount(native, a)
            + match r
              case ReceiveFailed => 0
              case Closed => 0
              case Interrupted => HintCount(native, b)
              case NoBufferSpace => 1 + HintCount(native, b)
              case Truncated(_) => 1 + HintCount(native, b)
              case Data(m) => (if Parse(native, m).Ok? && IsDiskChange(Parse(native, m).value) then 1 else 0) + HintCount(native, b)
    ensures FailsFirst(a + [r] + b) <==> r.ReceiveFailed? || (!r.Closed? && FailsFirst(b))
    decreases |a|
  {
    hide Parse, IsDiskChange;
    if a == [] {
      assert [] + [r] + b == [r] + b && ([r] + b)[1..] == b;
    } else {
      assert (a + [r] + b)[0] == a[0] && (a + [r] + b)[1..] == a[1..] + [r] + b;
      assert a[0] in a;
      OutcomeCounts(native, a[1..], r, b);
    }
  }

  /** The channel `dirty` of capacity one; `calls` counts the attempts to send. */
  class Dirty {
    var full: bool
    var calls: nat

    constructor ()
      ensures !full && calls == 0
    {
      full, calls := false, 0;
    }

    /** A send that never blocks. */
    method Trigger()
      modifies this
      ensures full && calls == old(calls) + 1
    {
      calls := calls + 1;
      if !full {
        full := true;
      }
    }
  }

  /** Reads datagrams until the context ends or the socket fails. It triggers once because the
      socket is bound and once for every lost, truncated or relevant datagram; nothing empties
      the channel here. It returns false when the socket failed. */
  method Listen(native: Endian, rs: seq<Receive>, dirty: Dirty) returns (ok: bool)
    modifies dirty
    ensures dirty.calls == old(dirty.calls) + 1 + HintCount(native, rs)
    ensures dirty.full
    ensures ok == !FailsFirst(rs)
  {
    dirty.Trigger();
    for i := 0 to |rs|
      invariant dirty.full && FailsFirst(rs) == FailsFirst(rs[i..])
      invariant dirty.calls + HintCount(native, rs[i..]) == old(dirty.calls) + 1 + HintCount(native, rs)
    {
      var r := rs[i];
      assert rs[i..][0] == r && rs[i..][1..] == rs[i + 1..];
      match r {
        case NoBufferSpace => dirty.Trigger();
        case Truncated(_) => dirty.Trigger();
        case Interrupted =>
        case ReceiveFailed => return false;
        case Closed => return true;
        case Data(b) =>
          var env := ParseMessage(native, b);
          if env.Ok? && IsDiskChange(env.value) {
            dirty.Trigger();
          }
      }
    }
    return true;
  }

  // ----- The listener of the protocol

  /** `props` are the properties udev broadcasts when the whole disk `name` appears or vanishes,
      and `record` is its record in the udev database, with the same four ID values. */
  ghost predicate Announces(props: seq<(string, string)>, dir: string, name: string, record: Discovery.Props) {
    var env := EnvOf(map[], props);
    && (forall p :: p in props ==> Encodable(p))
    && Discovery.Prop(env, "SUBSYSTEM") == "block" && Discovery.Prop(env, "DEVTYPE") == "disk"
    && Discovery.Prop(env, "ACTION") in ["add", "remove"]
    && Discovery.Prop(env, "DEVPATH") == dir + "/" + name && '/' !in name && name != ""
    && forall k :: k in ["ID_BUS", "ID_PATH", "ID_VENDOR", "ID_MODEL"] ==> Discovery.Prop(env, k) == Discovery.Prop(record, k)
  }

  /** From bytes to filter: the listener is alarmed by the encoded message exactly when a scan
      would not ignore the disk on the strength of its record. */
  lemma MessageAlarmsIff(native: Endian, unused: string, props: seq<(string, string)>, dir: string, name: string,
                         record: Discovery.Props)
    requires |unused| == 20 && |Payload(props)| + MIN_HEADER < TWO_32 && Announces(props, dir, name, record)
    ensures Hints(native, Data(HeaderBytes(native, unused) + Payload(props))) <==> !Discovery.ShouldIgnore(name, record)
  {
    hide Parse, Payload, HeaderBytes, IsDiskChange, Discovery.ShouldIgnore;
    assert props != [];
    MessageRoundTrip(native, unused, props);
    FiltersAgree(EnvOf(map[], props), dir, name, record);
  }

  /** The protocol's datagram announces a change exactly when the scan's filter keeps the disk.
      On receiving it the protocol's listener goes to its trigger call exactly when the receive
      loop, given the bytes, calls trigger. */
  lemma ReceiveRefines(p: InventoryProtocol.Params, s: InventoryProtocol.State, native: Endian, unused: string,
                       props: seq<(string, string)>, dir: string, name: string, record: Discovery.Props,
                       long: bool, v: nat)
    requires |unused| == 20 && |Payload(props)| + MIN_HEADER < TWO_32 && Announces(props, dir, name, record)
    requires InventoryProtocol.Enabled(p, s, InventoryProtocol.Receive) && !s.lost
    requires s.queue[0] == InventoryProtocol.Datagram(if Discovery.ShouldIgnore(name, record) then None else Some(v), long)
    ensures var b := HeaderBytes(native, unused) + Payload(props);
            var alarmed := InventoryProtocol.Apply(p, s, InventoryProtocol.Receive).listener == InventoryProtocol.Hint;
            alarmed <==> Hints(native, if long then Truncated(b) else Data(b))
  {
    hide Parse, Payload, HeaderBytes, IsDiskChange, Discovery.ShouldIgnore, Announces;
    MessageAlarmsIff(native, unused, props, dir, name, record);
  }
}
