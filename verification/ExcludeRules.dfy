/** Exclusion rules: what they match, and how they are parsed and printed. */
module ExcludeRules {
  import opened Wrappers
  import opened Text
  import opened DiskInfos

  datatype Key = Node | Name | Vendor | Model | Serial | Wwn | Bus

  datatype ExcludeRule = ExcludeRule(
    node: string, name: string, vendor: string, model: string, serial: string, wwn: string, bus: string)

  const EMPTY := ExcludeRule("", "", "", "", "", "", "")

  /** The flag names, in the stable order of the fields. */
  const KEYS: seq<Key> := [Node, Name, Vendor, Model, Serial, Wwn, Bus]

  function KeyName(k: Key): (s: string) {
    match k
    case Node => "node"
    case Name => "name"
    case Vendor => "vendor"
    case Model => "model"
    case Serial => "serial"
    case Wwn => "wwn"
    case Bus => "bus"
  }

  /** Looks a flag name up among the fields. */
  function Lookup(s: string, keys: seq<Key>): (k: Option<Key>)
    ensures k.Some? ==> KeyName(k.value) == s && k.value in keys
    ensures k.None? ==> forall q :: q in keys ==> KeyName(q) != s
  {
    if keys == [] then None else if KeyName(keys[0]) == s then Some(keys[0]) else Lookup(s, keys[1..])
  }

  function KeyOf(s: string): Option<Key> { Lookup(s, KEYS) }

  lemma KeyNamesDiffer(a: Key, b: Key)
    requires KeyName(a) == KeyName(b)
    ensures a == b
  {
    assert KeyName(a)[0] == KeyName(b)[0] && KeyName(a)[1] == KeyName(b)[1];
  }

  lemma EveryKey(k: Key)
    ensures k in KEYS
  {
    assert KEYS[0] == Node && KEYS[1] == Name && KEYS[2] == Vendor && KEYS[3] == Model;
    assert KEYS[4] == Serial && KEYS[5] == Wwn && KEYS[6] == Bus;
  }

  lemma KeyOfName(k: Key)
    ensures KeyOf(KeyName(k)) == Some(k)
  {
    EveryKey(k);
    KeyNamesDiffer(k, if KeyOf(KeyName(k)).Some? then KeyOf(KeyName(k)).value else k);
  }

  lemma KeyNameClean(k: Key)
    ensures TrimSpace(KeyName(k)) == KeyName(k) && KeyName(k) != ""
    ensures '=' !in KeyName(k) && ',' !in KeyName(k)
  {
    TrimNothing(KeyName(k), IsSpace);
  }

  function Get(r: ExcludeRule, k: Key): string {
    match k
    case Node => r.node
    case Name => r.name
    case Vendor => r.vendor
    case Model => r.model
    case Serial => r.serial
    case Wwn => r.wwn
    case Bus => r.bus
  }

  function Set(r: ExcludeRule, k: Key, v: string): ExcludeRule {
    match k
    case Node => r.(node := v)
    case Name => r.(name := v)
    case Vendor => r.(vendor := v)
    case Model => r.(model := v)
    case Serial => r.(serial := v)
    case Wwn => r.(wwn := v)
    case Bus => r.(bus := v)
  }

  predicate Empty(r: ExcludeRule) {
    r.node == "" && r.name == "" && r.vendor == "" && r.model == "" && r.serial == "" && r.wwn == "" && r.bus == ""
  }

  // ----- Matching

  predicate Matches(r: ExcludeRule, nodeName: string, d: DiskInfo) {
    && !Empty(r)
    && (r.node == "" || r.node == nodeName)
    && (r.name == "" || r.name == d.name)
    && (r.vendor == "" || r.vendor == d.vendor)
    && (r.model == "" || r.model == d.model)
    && (r.serial == "" || r.serial == d.serial)
    && (r.wwn == "" || EqualFold(r.wwn, d.wwn))
    && (r.bus == "" || r.bus == d.bus)
  }

  /** A rule with one criterion matches exactly the disks with that value. Only the WWN is compared
      without regard to case. */
  lemma OneCriterion(v: string, nodeName: string, d: DiskInfo)
    requires v != ""
    ensures Matches(EMPTY.(node := v), nodeName, d) <==> nodeName == v
    ensures Matches(EMPTY.(name := v), nodeName, d) <==> d.name == v
    ensures Matches(EMPTY.(vendor := v), nodeName, d) <==> d.vendor == v
    ensures Matches(EMPTY.(model := v), nodeName, d) <==> d.model == v
    ensures Matches(EMPTY.(serial := v), nodeName, d) <==> d.serial == v
    ensures Matches(EMPTY.(wwn := v), nodeName, d) <==> EqualFold(v, d.wwn)
    ensures Matches(EMPTY.(bus := v), nodeName, d) <==> d.bus == v
  {
  }

  /** A rule with several criteria matches where each of them does, and the empty rule nowhere. */
  lemma AllCriteria(r: ExcludeRule, nodeName: string, d: DiskInfo)
    ensures Matches(r, nodeName, d) <==>
              && r != EMPTY
              && (r.node != "" ==> Matches(EMPTY.(node := r.node), nodeName, d))
              && (r.name != "" ==> Matches(EMPTY.(name := r.name), nodeName, d))
              && (r.vendor != "" ==> Matches(EMPTY.(vendor := r.vendor), nodeName, d))
              && (r.model != "" ==> Matches(EMPTY.(model := r.model), nodeName, d))
              && (r.serial != "" ==> Matches(EMPTY.(serial := r.serial), nodeName, d))
              && (r.wwn != "" ==> Matches(EMPTY.(wwn := r.wwn), nodeName, d))
              && (r.bus != "" ==> Matches(EMPTY.(bus := r.bus), nodeName, d))
  {
    hide EqualFold;
  }

  function FindMatchingRule(nodeName: string, d: DiskInfo, rules: seq<ExcludeRule>): Option<ExcludeRule> {
    if rules == [] then None
    else if Matches(rules[0], nodeName, d) then Some(rules[0])
    else FindMatchingRule(nodeName, d, rules[1..])
  }

  predicate IsFirstMatch(nodeName: string, d: DiskInfo, rules: seq<ExcludeRule>, i: int) {
    0 <= i < |rules| && Matches(rules[i], nodeName, d) && forall j :: 0 <= j < i ==> !Matches(rules[j], nodeName, d)
  }

  /** A rule is found exactly when some rule matches, and then it is the first one. */
  lemma {:induction false} FirstMatchFound(nodeName: string, d: DiskInfo, rules: seq<ExcludeRule>)
    ensures var r := FindMatchingRule(nodeName, d, rules);
            && (r.None? <==> forall i :: 0 <= i < |rules| ==> !Matches(rules[i], nodeName, d))
            && (r.Some? ==> exists i :: IsFirstMatch(nodeName, d, rules, i) && rules[i] == r.value)
    decreases |rules|
  {
    if rules != [] {
      if Matches(rules[0], nodeName, d) {
        assert IsFirstMatch(nodeName, d, rules, 0);
      } else {
        var rest := rules[1..];
        FirstMatchFound(nodeName, d, rest);
        assert forall i :: 0 < i < |rules| ==> rules[i] == rest[i - 1];
        if FindMatchingRule(nodeName, d, rest).Some? {
          var i :| IsFirstMatch(nodeName, d, rest, i) && rest[i] == FindMatchingRule(nodeName, d, rest).value;
          assert IsFirstMatch(nodeName, d, rules, i + 1);
        }
      }
    }
  }

  predicate IsExcluded(nodeName: string, d: DiskInfo, rules: seq<ExcludeRule>) {
    FindMatchingRule(nodeName, d, rules).Some?
  }

  // ----- Parsing

  datatype ParseError = Invalid(part: string) | Unsupported(key: string) | Duplicate(key: string)

  /** One comma-separated part as key and value, if it is well formed. */
  function ParsePart(part: string): Result<(Key, string), ParseError> {
    var (k, v, found) := Cut(part, '=');
    var key, val := TrimSpace(k), TrimSpace(v);
    if !found || key == "" || val == "" then Err(Invalid(part))
    else if KeyOf(key).None? then Err(Unsupported(key))
    else Ok((KeyOf(key).value, val))
  }

  function AddParts(r: ExcludeRule, parts: seq<string>): Result<ExcludeRule, ParseError>
    decreases |parts|
  {
    if parts == [] then Ok(r)
    else
      match ParsePart(parts[0])
      case Err(e) => Err(e)
      case Ok((k, v)) =>
        if Get(r, k) != "" then Err(Duplicate(KeyName(k)))
        else AddParts(Set(r, k, v), parts[1..])
  }

  function Parse(value: string): Result<ExcludeRule, ParseError> {
    AddParts(EMPTY, Split(value, ','))
  }

  /** The loop that writes the rule's fields one after the other. */
  method ParseExcludeRule(value: string) returns (r: Result<ExcludeRule, ParseError>)
    ensures r == Parse(value)
  {
    var rule := EMPTY;
    var parts := Split(value, ',');
    for i := 0 to |parts|
      invariant Parse(value) == AddParts(rule, parts[i..])
    {
      var part := parts[i];
      assert parts[i..][0] == part && parts[i..][1..] == parts[i + 1..];
      var (k, v, ok) := Cut(part, '=');
      var key := TrimSpace(k);
      var val := TrimSpace(v);
      if !ok || key == "" || val == "" {
        return Err(Invalid(part));
      }
      var field := KeyOf(key);
      if field.None? {
        return Err(Unsupported(key));
      }
      if Get(rule, field.value) != "" {
        return Err(Duplicate(key));
      }
      rule := Set(rule, field.value, val);
    }
    return Ok(rule);
  }

  // ----- Printing

  function Part(k: Key, v: string): string { KeyName(k) + "=" + v }

  function Parts(r: ExcludeRule, keys: seq<Key>): seq<string> {
    if keys == [] then []
    else if Get(r, keys[0]) != "" then [Part(keys[0], Get(r, keys[0]))] + Parts(r, keys[1..])
    else Parts(r, keys[1..])
  }

  function String(r: ExcludeRule): string { Join(Parts(r, KEYS), ',') }

  method PrintExcludeRule(r: ExcludeRule) returns (s: string)
    ensures s == String(r)
  {
    s := PrintFields(r, KEYS);
  }

  lemma PartsStep(r: ExcludeRule, fields: seq<Key>, i: nat, parts: seq<string>)
    requires i < |fields|
    ensures parts + Parts(r, fields[i..])
         == (if Get(r, fields[i]) != "" then parts + [Part(fields[i], Get(r, fields[i]))] else parts)
            + Parts(r, fields[i + 1..])
  {
    assert fields[i..][0] == fields[i] && fields[i..][1..] == fields[i + 1..];
  }

  method PrintFields(r: ExcludeRule, fields: seq<Key>) returns (s: string)
    ensures s == Join(Parts(r, fields), ',')
  {
    var parts: seq<string> := [];
    for i := 0 to |fields|
      invariant parts + Parts(r, fields[i..]) == Parts(r, fields)
    {
      var k := fields[i];
      PartsStep(r, fields, i, parts);
      if Get(r, k) != "" {
        parts := parts + [Part(k, Get(r, k))];
      }
    }
    assert fields[|fields|..] == [] && parts + [] == parts;
    return Join(parts, ',');
  }

  // ----- Round trip

  lemma GetSet(r: ExcludeRule, k: Key, v: string, j: Key)
    ensures Get(Set(r, k, v), j) == if j == k then v else Get(r, j)
  {
  }

  lemma SameFields(r: ExcludeRule, q: ExcludeRule)
    requires forall k :: Get(r, k) == Get(q, k)
    ensures r == q
  {
    assert Get(r, Node) == Get(q, Node) && Get(r, Name) == Get(q, Name) && Get(r, Vendor) == Get(q, Vendor);
    assert Get(r, Model) == Get(q, Model) && Get(r, Serial) == Get(q, Serial);
    assert Get(r, Wwn) == Get(q, Wwn) && Get(r, Bus) == Get(q, Bus);
  }

  lemma EmptyFields(r: ExcludeRule)
    ensures Empty(r) <==> forall k :: Get(r, k) == ""
  {
    if forall k :: Get(r, k) == "" {
      assert Get(r, Node) == Get(r, Name) == Get(r, Vendor) == Get(r, Model) == "";
      assert Get(r, Serial) == Get(r, Wwn) == Get(r, Bus) == "";
    }
  }

  /** No value has a comma or blanks at its ends. An equals sign is allowed. */
  ghost predicate Printable(r: ExcludeRule) {
    forall k :: Clean(Get(r, k))
  }

  predicate Clean(v: string) { TrimSpace(v) == v && ',' !in v }

  lemma PartValue(part: string)
    requires ParsePart(part).Ok?
    ensures var v := ParsePart(part).value.1;
            v != "" && TrimSpace(v) == v && (forall c :: c in v ==> c in part)
  {
    var (k, v, found) := Cut(part, '=');
    TrimEnds(v, IsSpace);
    TrimNothing(TrimSpace(v), IsSpace);
  }

  lemma PartOf(k: Key, v: string)
    requires v != "" && TrimSpace(v) == v
    ensures ParsePart(Part(k, v)) == Ok((k, v))
  {
    KeyNameClean(k);
    CutAt(KeyName(k), '=', v);
    KeyOfName(k);
  }

  lemma {:induction false} AddedIsPrintable(r: ExcludeRule, parts: seq<string>)
    requires Printable(r) && AddParts(r, parts).Ok? && (forall p :: p in parts ==> ',' !in p)
    ensures Printable(AddParts(r, parts).value)
    ensures parts != [] || !Empty(r) ==> !Empty(AddParts(r, parts).value)
    decreases |parts|
  {
    if parts != [] {
      PartValue(parts[0]);
      assert parts[0] in parts;
      var (k, v) := ParsePart(parts[0]).value;
      var q := Set(r, k, v);
      forall j ensures Clean(Get(q, j)) {
        GetSet(r, k, v, j);
      }
      GetSet(r, k, v, k);
      EmptyFields(q);
      AddedIsPrintable(q, parts[1..]);
    }
  }

  /** Every rule that parsing accepts is non-empty and can be printed. */
  lemma ParsedIsPrintable(s: string)
    requires Parse(s).Ok?
    ensures Printable(Parse(s).value) && !Empty(Parse(s).value)
  {
    hide AddParts, Get;
    SplitParts(s, ',');
    EmptyPrintable();
    AddedIsPrintable(EMPTY, Split(s, ','));
  }

  lemma EmptyPrintable()
    ensures Printable(EMPTY)
  {
  }

  ghost predicate Remaining(q: ExcludeRule, r: ExcludeRule, keys: seq<Key>) {
    forall k :: Get(q, k) == if k in keys then "" else Get(r, k)
  }

  lemma {:induction false} AddPrinted(q: ExcludeRule, r: ExcludeRule, keys: seq<Key>)
    requires Printable(r) && Remaining(q, r, keys)
    requires forall i, j :: 0 <= i < j < |keys| ==> keys[i] != keys[j]
    ensures AddParts(q, Parts(r, keys)) == Ok(r)
    decreases |keys|
  {
    if keys == [] {
      SameFields(q, r);
    } else {
      var k, v := keys[0], Get(r, keys[0]);
      assert keys == [k] + keys[1..];
      if v == "" {
        assert Remaining(q, r, keys[1..]);
        AddPrinted(q, r, keys[1..]);
        assert Parts(r, keys) == Parts(r, keys[1..]);
      } else {
        assert Clean(v);
        PartOf(k, v);
        forall j ensures Get(Set(q, k, v), j) == if j in keys[1..] then "" else Get(r, j) {
          GetSet(q, k, v, j);
        }
        AddPrinted(Set(q, k, v), r, keys[1..]);
        assert Parts(r, keys)[1..] == Parts(r, keys[1..]);
      }
    }
  }

  lemma {:induction false} PartsClean(r: ExcludeRule, keys: seq<Key>)
    requires Printable(r)
    ensures forall p :: p in Parts(r, keys) ==> ',' !in p
    ensures Parts(r, keys) == [] <==> forall k :: k in keys ==> Get(r, k) == ""
    decreases |keys|
  {
    if keys != [] {
      KeyNameClean(keys[0]);
      assert Clean(Get(r, keys[0]));
      PartsClean(r, keys[1..]);
    }
  }

  lemma PrintedParses(r: ExcludeRule, keys: seq<Key>)
    requires !Empty(r) && Printable(r) && keys == KEYS
    ensures AddParts(EMPTY, Split(Join(Parts(r, keys), ','), ',')) == Ok(r)
  {
    hide Get, Parts, Split, Join, AddParts;
    forall k ensures k in keys {
      EveryKey(k);
    }
    PartsClean(r, keys);
    EmptyFields(r);
    SplitJoin(Parts(r, keys), ',');
    EmptyFields(EMPTY);
    assert Remaining(EMPTY, r, keys);
    AddPrinted(EMPTY, r, keys);
  }

  /** Printing a rule and parsing it again gives the rule back exactly when it is non-empty and
      its values are free of commas and of blanks at the ends. */
  lemma PrintParseRoundTrip(r: ExcludeRule)
    ensures Parse(String(r)) == Ok(r) <==> !Empty(r) && Printable(r)
  {
    if !Empty(r) && Printable(r) {
      PrintedParses(r, KEYS);
    } else if Parse(String(r)) == Ok(r) {
      ParsedIsPrintable(String(r));
    }
  }

  /** For every accepted text, printing the rule and parsing again changes nothing. */
  lemma ParsePrintParse(s: string)
    requires Parse(s).Ok?
    ensures Parse(String(Parse(s).value)) == Parse(s)
  {
    ParsedIsPrintable(s);
    PrintParseRoundTrip(Parse(s).value);
  }

  lemma OneFieldParsed(k: Key, v: string, part: string)
    requires Clean(v) && v != "" && part == KeyName(k) + "=" + v
    ensures Parse(part) == Ok(Set(EMPTY, k, v))
  {
    hide Get, Set, ParsePart, KeyName, TrimSpace;
    KeyNameClean(k);
    PartOf(k, v);
    IndexOfPrefix(part, ',', "");
    assert Split(part, ',') == [part];
    EmptyFields(EMPTY);
    var parts := [part];
    assert parts[1..] == [];
    assert Get(EMPTY, k) == "";
    assert AddParts(Set(EMPTY, k, v), []) == Ok(Set(EMPTY, k, v));
    assert AddParts(EMPTY, parts) == AddParts(Set(EMPTY, k, v), parts[1..]);
  }

  /** Every flag name sets its own field. */
  lemma FieldsParsed(v: string)
    requires Clean(v) && v != ""
    ensures Parse("node=" + v) == Ok(EMPTY.(node := v)) && Parse("name=" + v) == Ok(EMPTY.(name := v))
    ensures Parse("vendor=" + v) == Ok(EMPTY.(vendor := v)) && Parse("model=" + v) == Ok(EMPTY.(model := v))
    ensures Parse("serial=" + v) == Ok(EMPTY.(serial := v)) && Parse("wwn=" + v) == Ok(EMPTY.(wwn := v))
    ensures Parse("bus=" + v) == Ok(EMPTY.(bus := v))
  {
    hide Parse, Clean;
    OneFieldParsed(Node, v, "node=" + v);
    OneFieldParsed(Name, v, "name=" + v);
    OneFieldParsed(Vendor, v, "vendor=" + v);
    OneFieldParsed(Model, v, "model=" + v);
    OneFieldParsed(Serial, v, "serial=" + v);
    OneFieldParsed(Wwn, v, "wwn=" + v);
    OneFieldParsed(Bus, v, "bus=" + v);
  }

  /** The spelling: every field under its flag name, in a fixed order. */
  lemma Spelling(r: ExcludeRule)
    requires r.node != "" && r.name != "" && r.vendor != "" && r.model != "" && r.serial != "" && r.wwn != "" && r.bus != ""
    ensures String(r) == "node=" + r.node + "," + ("name=" + r.name + "," + ("vendor=" + r.vendor + ","
                         + ("model=" + r.model + "," + ("serial=" + r.serial + "," + ("wwn=" + r.wwn + "," + ("bus=" + r.bus))))))
  {
    hide Join, Parts, Get, Part;
    PartIs(r);
    forall j | 0 <= j < 7 ensures Get(r, KEYS[j]) != "" {
      FieldsAreSet(r, j);
    }
    FieldFirst(r, 6);
    FieldFirst(r, 5);
    FieldFirst(r, 4);
    FieldFirst(r, 3);
    FieldFirst(r, 2);
    FieldFirst(r, 1);
    FieldFirst(r, 0);
    assert KEYS[0..] == KEYS;
  }

  lemma PartIs(r: ExcludeRule)
    ensures Part(KEYS[0], Get(r, KEYS[0])) == "node=" + r.node && Part(KEYS[1], Get(r, KEYS[1])) == "name=" + r.name
    ensures Part(KEYS[2], Get(r, KEYS[2])) == "vendor=" + r.vendor && Part(KEYS[3], Get(r, KEYS[3])) == "model=" + r.model
    ensures Part(KEYS[4], Get(r, KEYS[4])) == "serial=" + r.serial && Part(KEYS[5], Get(r, KEYS[5])) == "wwn=" + r.wwn
    ensures Part(KEYS[6], Get(r, KEYS[6])) == "bus=" + r.bus
  {
  }

  lemma FieldsAreSet(r: ExcludeRule, j: nat)
    requires r.node != "" && r.name != "" && r.vendor != "" && r.model != "" && r.serial != "" && r.wwn != "" && r.bus != ""
    requires j < 7
    ensures Get(r, KEYS[j]) != ""
  {
  }

  lemma FieldFirst(r: ExcludeRule, i: nat)
    requires i < 7 && forall j :: 0 <= j < 7 ==> Get(r, KEYS[j]) != ""
    ensures var rest := Join(Parts(r, KEYS[i + 1..]), ',');
            var first := Part(KEYS[i], Get(r, KEYS[i]));
            Join(Parts(r, KEYS[i..]), ',') == if i == 6 then first else first + "," + rest
  {
    hide Get, Part;
    var rest := KEYS[i + 1..];
    assert KEYS[i..][0] == KEYS[i] && KEYS[i..][1..] == rest;
    var parts := Parts(r, KEYS[i..]);
    assert parts == [Part(KEYS[i], Get(r, KEYS[i]))] + Parts(r, rest);
    assert parts[1..] == Parts(r, rest);
    if i < 6 {
      assert rest[0] == KEYS[i + 1];
      assert |Parts(r, rest)| > 0;
    }
  }

  // ----- Order of the parts

  /** Both fail, or both yield the same rule. Which error is reported depends on the order. */
  predicate Agree(a: Result<ExcludeRule, ParseError>, b: Result<ExcludeRule, ParseError>) {
    a.Ok? == b.Ok? && (a.Ok? ==> a.value == b.value)
  }

  lemma SetTwo(r: ExcludeRule, j: Key, v: string, k: Key, w: string)
    requires j != k
    ensures Set(Set(r, j, v), k, w) == Set(Set(r, k, w), j, v)
  {
  }

  lemma TwoParts(r: ExcludeRule, x: string, y: string, rest: seq<string>)
    ensures Agree(AddParts(r, [x, y] + rest), AddParts(r, [y, x] + rest))
  {
    hide ParsePart, Get, Set;
    assert ([x, y] + rest)[1..] == [y] + rest && ([y] + rest)[1..] == rest;
    assert ([y, x] + rest)[1..] == [x] + rest && ([x] + rest)[1..] == rest;
    if ParsePart(x).Ok? && ParsePart(y).Ok? {
      var (j, v) := ParsePart(x).value;
      var (k, w) := ParsePart(y).value;
      PartValue(x);
      PartValue(y);
      GetSet(r, j, v, k);
      GetSet(r, k, w, j);
      if j != k {
        SetTwo(r, j, v, k, w);
      }
    }
  }

  lemma Regrouped(a: seq<string>, x: string, b: seq<string>)
    requires a != []
    ensures a + [x] + b == [a[0]] + (a[1..] + [x] + b)
    ensures [x] + (a + b) == [x, a[0]] + (a[1..] + b) && [a[0]] + ([x] + (a[1..] + b)) == [a[0], x] + (a[1..] + b)
  {
  }

  /** Adding the parts that begin with `y`: they fail with `y`, or go on from the rule with it. */
  lemma AddFirst(r: ExcludeRule, y: string, rest: seq<string>)
    ensures ParsePart(y).Err? ==> AddParts(r, [y] + rest).Err?
    ensures ParsePart(y).Ok? ==>
              var (k, v) := ParsePart(y).value;
              if Get(r, k) != "" then AddParts(r, [y] + rest).Err?
              else AddParts(r, [y] + rest) == AddParts(Set(r, k, v), rest)
  {
    hide ParsePart, Get, Set;
    assert ([y] + rest)[1..] == rest;
  }

  lemma {:induction false} MoveToFront(r: ExcludeRule, a: seq<string>, x: string, b: seq<string>)
    ensures Agree(AddParts(r, a + [x] + b), AddParts(r, [x] + (a + b)))
    decreases |a|
  {
    if a == [] {
      assert a + [x] + b == [x] + (a + b);
    } else {
      hide ParsePart, Get, Set;
      var y, rest := a[0], a[1..];
      Regrouped(a, x, b);
      TwoParts(r, x, y, rest + b);
      AddFirst(r, y, rest + [x] + b);
      AddFirst(r, y, [x] + (rest + b));
      if ParsePart(y).Ok? {
        MoveToFront(Set(r, ParsePart(y).value.0, ParsePart(y).value.1), rest, x, b);
      }
    }
  }

  lemma {:induction false} AddPermuted(r: ExcludeRule, t: seq<string>, u: seq<string>)
    requires multiset(t) == multiset(u)
    ensures Agree(AddParts(r, t), AddParts(r, u))
    decreases |t|
  {
    if t == [] {
      assert |multiset(u)| == 0;
    } else {
      var x, rest := t[0], t[1..];
      var a, b := Without(t, u);
      MoveToFront(r, a, x, b);
      assert t == [x] + rest && ([x] + (a + b))[1..] == a + b;
      if ParsePart(x).Ok? {
        var (k, v) := ParsePart(x).value;
        AddPermuted(Set(r, k, v), rest, a + b);
      }
    }
  }

  lemma TakenOut(a: seq<string>, b: seq<string>, x: string)
    ensures multiset(a + b) == multiset(a + [x] + b) - multiset{x}
  {
    assert multiset(a + [x] + b) == multiset(a) + multiset{x} + multiset(b);
    assert multiset(a + b) == multiset(a) + multiset(b);
  }

  lemma Without(t: seq<string>, u: seq<string>) returns (a: seq<string>, b: seq<string>)
    requires t != [] && multiset(t) == multiset(u)
    ensures u == a + [t[0]] + b && multiset(t[1..]) == multiset(a + b)
  {
    var x := t[0];
    assert x in multiset(u);
    var i :| 0 <= i < |u| && u[i] == x;
    a, b := u[..i], u[i + 1..];
    assert u == a + [x] + b;
    assert t == [] + [x] + t[1..] && [] + t[1..] == t[1..];
    TakenOut([], t[1..], x);
    TakenOut(a, b, x);
  }

  /** The order of the comma-separated parts does not matter. */
  lemma PartOrderIrrelevant(t: seq<string>, u: seq<string>)
    requires t != [] && multiset(t) == multiset(u) && (forall p :: p in t ==> ',' !in p)
    ensures Agree(Parse(Join(t, ',')), Parse(Join(u, ',')))
  {
    assert |multiset(t)| == |t| && |multiset(u)| == |u|;
    forall p | p in u ensures ',' !in p {
      assert p in multiset(t);
    }
    SplitJoin(t, ',');
    SplitJoin(u, ',');
    AddPermuted(EMPTY, t, u);
  }
}
