/** Kubernetes-compatible names of disks, and the choice of the most stable device path. */
module Naming {
  import opened Wrappers
  import opened Text
  import opened DiskInfos

  predicate IsAlnum(c: char) { 'a' <= c <= 'z' || '0' <= c <= '9' }

  /** Characters the sanitizer keeps; every run of others becomes one hyphen. */
  predicate IsKept(c: char) { IsAlnum(c) || c == '.' }

  predicate IsNameChar(c: char) { IsKept(c) || c == '-' }

  predicate IsTrimmed(c: char) { c == '-' || c == '.' }

  function Hyphenate(s: string, afterInvalid: bool): string {
    if s == "" then ""
    else if IsKept(s[0]) then [s[0]] + Hyphenate(s[1..], false)
    else (if afterInvalid then "" else "-") + Hyphenate(s[1..], true)
  }

  function Sanitize(s: string): string {
    Trim(Hyphenate(ToLower(s), false), IsTrimmed)
  }

  /** Eight hexadecimal digits computed from a text; stands for the prefix of its SHA-256. */
  type ShortHash = h: string -> string | forall s :: IsHex8(h(s)) witness (s => "00000000")

  predicate IsHex8(h: string) {
    |h| == 8 && forall c :: c in h ==> '0' <= c <= '9' || 'a' <= c <= 'f'
  }

  const MAX_NAME := 253

  function Basename(path: string): string {
    var parts := Split(path, '/');
    parts[|parts| - 1]
  }

  function RawId(d: DiskInfo): string {
    if d.wwn != "" then d.wwn
    else if d.serialShort != "" then d.serialShort
    else if d.serial != "" then d.serial
    else if d.path != "" then Basename(d.path)
    else d.name
  }

  function OrDefault(s: string, default: string): string { if s == "" then default else s }

  function CleanNode(nodeName: string): string { OrDefault(Sanitize(nodeName), "node") }

  function CleanId(d: DiskInfo): string { OrDefault(Sanitize(RawId(d)), "disk") }

  function FullName(nodeName: string, d: DiskInfo): string { CleanNode(nodeName) + "-" + CleanId(d) }

  /** The part of a long name that is kept in front of the hash. */
  function Kept(name: string): string
    requires |name| > MAX_NAME
  {
    TrimRight(name[..MAX_NAME - 9], IsTrimmed)
  }

  function GenerateCRName(nodeName: string, d: DiskInfo, hash: ShortHash): string {
    var name := FullName(nodeName, d);
    if |name| <= MAX_NAME then name else Kept(name) + "-" + hash(name)
  }

  // ----- Shape of names

  predicate NameChars(s: string) { forall i :: 0 <= i < |s| ==> IsNameChar(s[i]) }

  predicate NoDoubleHyphen(s: string) { forall i :: 0 < i < |s| ==> s[i - 1] != '-' || s[i] != '-' }

  predicate AlnumEnds(s: string) { s != "" && IsAlnum(s[0]) && IsAlnum(s[|s| - 1]) }

  predicate WellShaped(s: string) { NameChars(s) && NoDoubleHyphen(s) && AlnumEnds(s) }

  lemma {:induction false} HyphenateShape(s: string, afterInvalid: bool)
    ensures var r := Hyphenate(s, afterInvalid);
            NameChars(r) && NoDoubleHyphen(r) && (afterInvalid && r != "" ==> r[0] != '-')
    decreases |s|
  {
    if s != "" {
      HyphenateShape(s[1..], !IsKept(s[0]));
    }
  }

  lemma SliceShape(s: string, from: nat, to: nat)
    requires NameChars(s) && NoDoubleHyphen(s) && from <= to <= |s|
    ensures NameChars(s[from..to]) && NoDoubleHyphen(s[from..to])
  {
    assert forall i :: 0 <= i < to - from ==> s[from..to][i] == s[from + i];
  }

  lemma SanitizeShape(s: string)
    ensures Sanitize(s) == "" || WellShaped(Sanitize(s))
  {
    hide Hyphenate, ToLower, NameChars, NoDoubleHyphen, AlnumEnds, TrimLeft, TrimRight, IsTrimmed;
    var h := Hyphenate(ToLower(s), false);
    HyphenateShape(ToLower(s), false);
    var l := TrimLeft(h, IsTrimmed);
    TrimLeftSuffix(h, IsTrimmed);
    SliceShape(h, |h| - |l|, |h|);
    var r := TrimRight(l, IsTrimmed);
    TrimRightPrefix(l, IsTrimmed);
    SliceShape(l, 0, |r|);
    assert l[0..|r|] == r && h[|h| - |l|..|h|] == l;
    if r != "" {
      assert r[0] == l[0];
      UntrimmedEnds(r);
    }
  }

  lemma UntrimmedEnds(s: string)
    requires s != "" && NameChars(s) && !IsTrimmed(s[0]) && !IsTrimmed(s[|s| - 1])
    ensures AlnumEnds(s)
  {
  }

  lemma {:induction false} HyphenateNothing(s: string, afterInvalid: bool)
    requires NameChars(s) && NoDoubleHyphen(s) && (afterInvalid && s != "" ==> s[0] != '-')
    ensures Hyphenate(s, afterInvalid) == s
    decreases |s|
  {
    if s != "" {
      assert s == [s[0]] + s[1..];
      assert |s| > 1 ==> s[1..][0] == s[1];
      HyphenateNothing(s[1..], !IsKept(s[0]));
    }
  }

  lemma SanitizeNothing(s: string)
    requires s == "" || WellShaped(s)
    ensures Sanitize(s) == s
  {
    assert forall i :: 0 <= i < |s| ==> Lower(s[i]) == s[i];
    assert ToLower(s) == s;
    HyphenateNothing(s, false);
    TrimNothing(s, IsTrimmed);
  }

  /** Sanitizing twice is the same as sanitizing once. */
  lemma SanitizeIdempotent(s: string)
    ensures Sanitize(Sanitize(s)) == Sanitize(s)
  {
    SanitizeShape(s);
    SanitizeNothing(Sanitize(s));
  }

  lemma FullNameShape(nodeName: string, d: DiskInfo)
    ensures WellShaped(CleanNode(nodeName)) && WellShaped(CleanId(d)) && WellShaped(FullName(nodeName, d))
  {
    SanitizeShape(nodeName);
    SanitizeShape(RawId(d));
    ShapeConcat(CleanNode(nodeName), CleanId(d));
  }

  lemma ShapeConcat(a: string, b: string)
    requires WellShaped(a) && WellShaped(b)
    ensures WellShaped(a + "-" + b)
  {
    var s := a + "-" + b;
    forall i | 0 <= i < |s| ensures IsNameChar(s[i]) && (i > 0 ==> s[i - 1] != '-' || s[i] != '-') {
      if i < |a| {
        assert s[i] == a[i];
      } else if i > |a| {
        assert s[i] == b[i - |a| - 1];
      }
    }
  }

  lemma KeptShape(name: string)
    requires WellShaped(name) && |name| > MAX_NAME
    ensures WellShaped(Kept(name)) && Kept(name) <= name[..MAX_NAME - 9]
  {
    TrimRightPrefix(name[..MAX_NAME - 9], IsTrimmed);
    var k := Kept(name);
    assert k == name[..|k|];
    TrimKeepsFirst(name[..MAX_NAME - 9]);
  }

  lemma {:induction false} TrimKeepsFirst(s: string)
    requires s != "" && !IsTrimmed(s[0])
    ensures TrimRight(s, IsTrimmed) != ""
    decreases |s|
  {
    if IsTrimmed(s[|s| - 1]) {
      TrimKeepsFirst(s[..|s| - 1]);
    }
  }

  /** Every generated name is short enough, uses only [a-z0-9.-], starts and ends
      alphanumeric, and has no two hyphens in a row. */
  lemma CRNameShape(nodeName: string, d: DiskInfo, hash: ShortHash)
    ensures |GenerateCRName(nodeName, d, hash)| <= MAX_NAME && WellShaped(GenerateCRName(nodeName, d, hash))
  {
    FullNameShape(nodeName, d);
    var name := FullName(nodeName, d);
    if |name| > MAX_NAME {
      KeptShape(name);
      var h := hash(name);
      assert IsHex8(h);
      assert forall i :: 0 <= i < |h| ==> h[i] in h;
      assert WellShaped(h);
      ShapeConcat(Kept(name), h);
    }
  }

  // ----- Which name a disk gets

  /** The case of ASCII letters does not matter, and a well-shaped string is kept as it is: so an
      identifier in capitals is turned into the one in small letters. */
  lemma SanitizeInAnyCase(s: string, t: string)
    requires SameButCase(s, t)
    ensures Sanitize(s) == Sanitize(t)
    ensures t == "" || WellShaped(t) ==> Sanitize(s) == t
  {
    hide Hyphenate, ToLower;
    CaseIgnored(s, t);
    if t == "" || WellShaped(t) {
      SanitizeNothing(t);
    }
  }

  /** `id` is the identifier of a disk: its WWN, else its short serial, else its serial, else the last
      element of its path, else its kernel name. */
  ghost predicate Identifies(d: DiskInfo, id: string) {
    && id != "" && '/' !in id
    && (d.wwn != "" ==> id == d.wwn)
    && (d.wwn == "" && d.serialShort != "" ==> id == d.serialShort)
    && (d.wwn == "" && d.serialShort == "" && d.serial != "" ==> id == d.serial)
    && (d.wwn == "" && d.serialShort == "" && d.serial == "" && d.path != "" ==>
          d.path == id || exists dir: string :: d.path == dir + "/" + id)
    && (d.wwn == "" && d.serialShort == "" && d.serial == "" && d.path == "" ==> id == d.name)
  }

  lemma RawIdIs(d: DiskInfo, id: string)
    requires Identifies(d, id)
    ensures RawId(d) == id
  {
    if d.wwn == "" && d.serialShort == "" && d.serial == "" && d.path != "" {
      if d.path == id {
        IndexOfPrefix(id, '/', "");
      } else {
        var dir: string :| d.path == dir + "/" + id;
        LastElement(dir, id);
      }
    }
  }

  lemma {:induction false} LastElement(dir: string, id: string)
    requires '/' !in id
    ensures Basename(dir + "/" + id) == id
    decreases |dir|
  {
    var s := dir + "/" + id;
    var i := IndexOf(s, '/');
    assert s[|dir|] == '/';
    assert i <= |dir| by {
      assert forall k :: 0 <= k < i ==> s[k] == s[..i][k] && s[k] != '/';
    }
    if i < |dir| {
      assert s[i + 1..] == dir[i + 1..] + "/" + id;
      LastElement(dir[i + 1..], id);
    } else {
      assert s[i + 1..] == id;
      IndexOfPrefix(id, '/', "");
      assert Split(id, '/') == [id];
    }
  }

  /** Cutting a long name to `k` characters leaves out the hyphens and periods in front of the cut. */
  predicate IsCut(full: string, k: int) {
    0 < k <= 244 < |full| && full[k - 1] != '-' && full[k - 1] != '.' && forall j :: k <= j < 244 ==> full[j] == '-' || full[j] == '.'
  }

  /** A disk is named after its node and its identifier, both in small letters. Up to 253 characters
      the name is just that; a longer one keeps at most 244 of them, less the hyphens and periods in
      front of the cut, and the hash of the whole name. */
  lemma NamedAfter(nodeName: string, d: DiskInfo, hash: ShortHash, rawId: string, node: string, id: string)
    requires Identifies(d, rawId) && SameButCase(rawId, id) && SameButCase(nodeName, node)
    requires WellShaped(node) && WellShaped(id)
    ensures var full, name := node + "-" + id, GenerateCRName(nodeName, d, hash);
            if |full| <= 253 then name == full
            else
              exists k :: IsCut(full, k) && name == full[..k] + "-" + hash(full)
  {
    hide FullName, Identifies, SameButCase, Kept, WellShaped, IsCut;
    FullNameIs(nodeName, d, rawId, node, id);
    var full := node + "-" + id;
    if |full| > 253 {
      ShapeConcat(node, id);
      KeptEnds(full);
    }
  }

  lemma FullNameIs(nodeName: string, d: DiskInfo, rawId: string, node: string, id: string)
    requires Identifies(d, rawId) && SameButCase(rawId, id) && SameButCase(nodeName, node)
    requires WellShaped(node) && WellShaped(id)
    ensures FullName(nodeName, d) == node + "-" + id
  {
    hide Identifies, SameButCase, Sanitize, NameChars, NoDoubleHyphen, RawId;
    RawIdIs(d, rawId);
    SanitizeInAnyCase(nodeName, node);
    SanitizeInAnyCase(rawId, id);
  }

  lemma KeptEnds(name: string)
    requires WellShaped(name) && |name| > MAX_NAME
    ensures IsCut(name, |Kept(name)|) && Kept(name) == name[..|Kept(name)|]
  {
    KeptShape(name);
    var cut := name[..MAX_NAME - 9];
    TrimmedRest(cut);
    assert forall j :: 0 <= j < |cut| ==> cut[j] == name[j];
    var k := Kept(name);
    assert k == name[..|k|] && IsAlnum(k[|k| - 1]);
  }

  lemma {:induction false} TrimmedRest(s: string)
    ensures var r := TrimRight(s, IsTrimmed); |r| <= |s| && forall j :: |r| <= j < |s| ==> s[j] == '-' || s[j] == '.'
    decreases |s|
  {
    if s != "" && IsTrimmed(s[|s| - 1]) {
      TrimmedRest(s[..|s| - 1]);
      assert forall j :: 0 <= j < |s| - 1 ==> s[..|s| - 1][j] == s[j];
    }
  }

  /** Without a usable node name or identifier, placeholders take their place. */
  lemma Placeholders(hash: ShortHash)
    ensures GenerateCRName("", DiskInfo("", "", "", [], 0, 0, "", "", "", "", "", "", "", ""), hash) == "node-disk"
  {
    assert ToLower("") == "";
    assert Sanitize("") == "";
  }

  // ----- RFC 1123 subdomains

  predicate IsLabel(l: string) {
    AlnumEnds(l) && forall i :: 0 <= i < |l| ==> IsAlnum(l[i]) || l[i] == '-'
  }

  /** Dot-separated labels, as in the pattern of spec.nodeName. */
  predicate IsSubdomain(s: string) {
    forall l :: l in Split(s, '.') ==> IsLabel(l)
  }

  /** Every period has an alphanumeric character on both sides. */
  predicate DotsFlanked(s: string) {
    forall i :: 0 <= i < |s| && s[i] == '.' ==> 0 < i < |s| - 1 && IsAlnum(s[i - 1]) && IsAlnum(s[i + 1])
  }

  /** Subdomains can be told by looking at characters and their neighbours only. */
  lemma {:induction false} SubdomainIff(s: string)
    ensures IsSubdomain(s) <==> NameChars(s) && AlnumEnds(s) && DotsFlanked(s)
    decreases |s|
  {
    var i := IndexOf(s, '.');
    var parts := Split(s, '.');
    if i < |s| {
      var l, rest := s[..i], s[i + 1..];
      SubdomainIff(rest);
      assert parts == [l] + Split(rest, '.');
      assert forall p :: p in parts <==> p == l || p in Split(rest, '.');
      assert forall k :: 0 <= k < |rest| ==> rest[k] == s[i + 1 + k];
      assert forall k :: 0 <= k < i ==> l[k] == s[k] && l[k] in l;
      FirstDot(s, i);
    } else {
      assert parts == [s] && s in parts;
      assert forall k :: 0 <= k < |s| ==> s[k] in s[..i];
    }
  }

  lemma FirstDot(s: string, i: nat)
    requires i < |s| && s[i] == '.' && '.' !in s[..i]
    ensures (NameChars(s) && AlnumEnds(s) && DotsFlanked(s))
       <==> (IsLabel(s[..i]) && NameChars(s[i + 1..]) && AlnumEnds(s[i + 1..]) && DotsFlanked(s[i + 1..]))
  {
    if NameChars(s) && AlnumEnds(s) && DotsFlanked(s) {
      SplitAtDot(s, i);
    }
    if IsLabel(s[..i]) && NameChars(s[i + 1..]) && AlnumEnds(s[i + 1..]) && DotsFlanked(s[i + 1..]) {
      JoinAtDot(s, i);
    }
  }

  lemma SplitAtDot(s: string, i: nat)
    requires i < |s| && s[i] == '.' && '.' !in s[..i]
    requires NameChars(s) && AlnumEnds(s) && DotsFlanked(s)
    ensures IsLabel(s[..i]) && NameChars(s[i + 1..]) && AlnumEnds(s[i + 1..]) && DotsFlanked(s[i + 1..])
  {
    var l, r := s[..i], s[i + 1..];
    assert forall k :: 0 <= k < |r| ==> r[k] == s[i + 1 + k];
    assert forall k :: 0 <= k < i ==> s[k] == l[k] && l[k] in l;
    forall k | 0 <= k < |r| && r[k] == '.' ensures 0 < k < |r| - 1 && IsAlnum(r[k - 1]) && IsAlnum(r[k + 1]) {
      assert s[i + 1 + k] == '.';
      assert s[i + 1] != '.';
    }
  }

  lemma JoinAtDot(s: string, i: nat)
    requires i < |s| && s[i] == '.' && '.' !in s[..i]
    requires IsLabel(s[..i]) && NameChars(s[i + 1..]) && AlnumEnds(s[i + 1..]) && DotsFlanked(s[i + 1..])
    ensures NameChars(s) && AlnumEnds(s) && DotsFlanked(s)
  {
    var l, r := s[..i], s[i + 1..];
    assert s[0] == l[0] && s[|s| - 1] == r[|r| - 1];
    forall k | 0 <= k < |s| ensures IsNameChar(s[k])
      ensures s[k] == '.' ==> 0 < k < |s| - 1 && IsAlnum(s[k - 1]) && IsAlnum(s[k + 1])
    {
      if k < i {
        assert s[k] == l[k] && l[k] in l;
      } else if k == i {
        assert s[k - 1] == l[i - 1] && s[k + 1] == r[0];
      } else {
        assert s[k] == r[k - i - 1];
        assert k + 1 < |s| ==> s[k + 1] == r[k - i];
        assert k - 1 > i ==> s[k - 1] == r[k - i - 2];
      }
    }
  }

  lemma FlankedConcat(a: string, b: string)
    requires AlnumEnds(a) && AlnumEnds(b)
    ensures DotsFlanked(a + "-" + b) <==> DotsFlanked(a) && DotsFlanked(b)
  {
    var s := a + "-" + b;
    assert forall i :: 0 <= i < |a| ==> s[i] == a[i];
    assert forall i :: 0 <= i < |b| ==> s[|a| + 1 + i] == b[i];
    if DotsFlanked(s) {
      forall i | 0 <= i < |b| && b[i] == '.' ensures 0 < i < |b| - 1 && IsAlnum(b[i - 1]) && IsAlnum(b[i + 1]) {
        assert s[|a| + 1 + i] == '.';
      }
    }
    if DotsFlanked(a) && DotsFlanked(b) {
      forall i | 0 <= i < |s| && s[i] == '.' ensures 0 < i < |s| - 1 && IsAlnum(s[i - 1]) && IsAlnum(s[i + 1]) {
        if i > |a| {
          assert s[i] == b[i - |a| - 1];
        }
      }
    }
  }

  /** DotsFlanked read from left to right; `after` tells whether an alphanumeric came before. */
  predicate DotsOk(after: bool, s: string)
    decreases |s|
  {
    s != "" ==>
      if s[0] == '.' then after && |s| > 1 && IsAlnum(s[1]) && DotsOk(false, s[1..])
      else DotsOk(IsAlnum(s[0]), s[1..])
  }

  predicate FlankedAt(after: bool, s: string, i: int)
    requires 0 <= i < |s|
  {
    s[i] == '.' ==> i < |s| - 1 && IsAlnum(s[i + 1]) && (if i == 0 then after else IsAlnum(s[i - 1]))
  }

  lemma {:induction false} DotsOkIff(after: bool, s: string)
    ensures DotsOk(after, s) <==> forall i :: 0 <= i < |s| ==> FlankedAt(after, s, i)
    decreases |s|
  {
    if s != "" {
      var t, b := s[1..], IsAlnum(s[0]);
      DotsOkIff(b, t);
      forall i | 0 <= i < |t| ensures FlankedAt(b, t, i) <==> FlankedAt(after, s, i + 1) {
      }
      assert DotsOk(after, s) <==> FlankedAt(after, s, 0) && DotsOk(b, t);
      if forall i :: 0 <= i < |s| ==> FlankedAt(after, s, i) {
        forall i | 0 <= i < |t| ensures FlankedAt(b, t, i) {
          assert FlankedAt(after, s, i + 1);
        }
      }
      if FlankedAt(after, s, 0) && DotsOk(b, t) {
        forall i | 0 <= i < |s| ensures FlankedAt(after, s, i) {
          if i > 0 {
            assert FlankedAt(b, t, i - 1);
          }
        }
      }
    }
  }

  lemma DotsFlankedIff(s: string)
    ensures DotsFlanked(s) <==> DotsOk(false, s)
  {
    DotsOkIff(false, s);
    if DotsFlanked(s) {
      forall i | 0 <= i < |s| ensures FlankedAt(false, s, i) {
      }
    }
    if DotsOk(false, s) {
      forall i | 0 <= i < |s| && s[i] == '.' ensures 0 < i < |s| - 1 && IsAlnum(s[i - 1]) && IsAlnum(s[i + 1]) {
        assert FlankedAt(false, s, i);
      }
    }
  }

  lemma {:induction false} HyphenateDots(after: bool, s: string, afterInvalid: bool)
    requires DotsOk(after, s) && NameChars(s)
    ensures DotsOk(after, Hyphenate(s, afterInvalid))
    decreases |s|
  {
    if s != "" {
      var t := s[1..];
      var r := Hyphenate(s, afterInvalid);
      if IsKept(s[0]) {
        HyphenateDots(IsAlnum(s[0]), t, false);
        assert r[1..] == Hyphenate(t, false);
      } else {
        HyphenateDots(false, t, true);
        if afterInvalid {
          assert r == Hyphenate(t, true);
        } else {
          assert r[1..] == Hyphenate(t, true);
        }
      }
    }
  }

  lemma {:induction false} HyphenateEnds(s: string, afterInvalid: bool)
    requires s != "" && IsAlnum(s[|s| - 1])
    ensures var r := Hyphenate(s, afterInvalid);
            r != "" && r[|r| - 1] == s[|s| - 1]
    decreases |s|
  {
    var t := s[1..];
    if t == "" {
      assert Hyphenate(t, false) == "" && s[0] == s[|s| - 1];
    } else {
      HyphenateEnds(t, !IsKept(s[0]));
      assert t[|t| - 1] == s[|s| - 1];
      EndsWith(if IsKept(s[0]) then [s[0]] else if afterInvalid then "" else "-", Hyphenate(t, !IsKept(s[0])));
    }
  }

  lemma EndsWith(a: string, b: string)
    requires b != ""
    ensures (a + b)[|a + b| - 1] == b[|b| - 1]
  {
  }

  /** A node name that matches the pattern of spec.nodeName stays a subdomain. */
  lemma NodeStaysSubdomain(node: string)
    requires IsSubdomain(node)
    ensures IsSubdomain(Sanitize(node)) && CleanNode(node) == Sanitize(node)
  {
    SubdomainIff(node);
    assert forall i :: 0 <= i < |node| ==> Lower(node[i]) == node[i];
    assert ToLower(node) == node;
    var h := Hyphenate(node, false);
    HyphenateShape(node, false);
    HyphenateEnds(node, false);
    assert h[0] == node[0];
    TrimNothing(h, IsTrimmed);
    DotsFlankedIff(node);
    HyphenateDots(false, node, false);
    DotsFlankedIff(h);
    SubdomainIff(h);
  }

  /** How much of the full name the generated one keeps. */
  function KeptLength(node: string, d: DiskInfo): nat {
    var name := FullName(node, d);
    if |name| <= MAX_NAME then |name| else |Kept(name)|
  }

  /** Every period of the cleaned identifier that the name keeps stands between alphanumerics. */
  predicate KeptDotsFlanked(node: string, d: DiskInfo) {
    var id, from := CleanId(d), |CleanNode(node)| + 1;
    forall j :: 0 <= j < |id| && id[j] == '.' && from + j < KeptLength(node, d) ==>
      0 < j < |id| - 1 && IsAlnum(id[j - 1]) && IsAlnum(id[j + 1])
  }

  /** On a node whose name matches the pattern, a generated name of any length is a subdomain
      exactly when every period of the identifier that it keeps stands between alphanumerics. */
  lemma CRNameSubdomainIff(node: string, d: DiskInfo, hash: ShortHash)
    requires IsSubdomain(node)
    ensures IsSubdomain(GenerateCRName(node, d, hash)) <==> KeptDotsFlanked(node, d)
  {
    hide Sanitize, Kept, IsSubdomain, DotsFlanked, CleanNode, CleanId, NameChars, NoDoubleHyphen, AlnumEnds;
    NodeStaysSubdomain(node);
    SubdomainIff(CleanNode(node));
    FullNameShape(node, d);
    CRNameShape(node, d, hash);
    SubdomainIff(GenerateCRName(node, d, hash));
    var name := FullName(node, d);
    if |name| <= MAX_NAME {
      KeptPartFlanked(CleanNode(node), CleanId(d), name);
    } else {
      var k := Kept(name);
      KeptShape(name);
      KeptPartFlanked(CleanNode(node), CleanId(d), k);
      HashFlanked(hash(name));
      FlankedConcat(k, hash(name));
    }
  }

  /** A prefix of `node-id` whose node part is flanked: only periods of the identifier count. */
  lemma KeptPartFlanked(node: string, id: string, k: string)
    requires DotsFlanked(node) && AlnumEnds(id) && AlnumEnds(k) && k <= node + "-" + id
    ensures DotsFlanked(k) <==>
              forall j :: 0 <= j < |id| && id[j] == '.' && |node| + 1 + j < |k| ==>
                            0 < j < |id| - 1 && IsAlnum(id[j - 1]) && IsAlnum(id[j + 1])
  {
    var from := |node| + 1;
    assert forall i :: 0 <= i < |k| && i < |node| ==> k[i] == node[i];
    assert forall i :: from <= i < |k| ==> k[i] == id[i - from];
    assert |node| < |k| ==> k[|node|] == '-';
    if DotsFlanked(k) {
      forall j | 0 <= j < |id| && id[j] == '.' && from + j < |k|
        ensures 0 < j < |id| - 1 && IsAlnum(id[j - 1]) && IsAlnum(id[j + 1])
      {
        assert k[from + j] == '.' && from + j < |k| - 1;
        assert id[j + 1] == k[from + j + 1];
        assert j > 0 ==> id[j - 1] == k[from + j - 1];
      }
    }
  }

  /** On a conforming node the identifier "a._b" gives a name that is no subdomain, exactly unless
      the name is too long and the hash takes the identifier's place. */
  lemma InvalidName(node: string, d: DiskInfo, hash: ShortHash)
    requires IsSubdomain(node) && RawId(d) == "a._b"
    ensures !IsSubdomain(GenerateCRName(node, d, hash)) <==> |FullName(node, d)| <= MAX_NAME
  {
    hide IsSubdomain, Sanitize, Kept, GenerateCRName;
    SanitizeExamples();
    var id := CleanId(d);
    assert id == "a.-b" && id[1] == '.' && id[2] == '-';
    var name := FullName(node, d);
    if |name| > MAX_NAME {
      FullNameShape(node, d);
      KeptShape(name);
      assert |CleanNode(node)| + 1 + 4 == |name|;
      assert KeptLength(node, d) <= |CleanNode(node)| + 1;
    }
    CRNameSubdomainIff(node, d, hash);
  }

  /** The same for one disk on one node. */
  lemma InvalidNameExample(hash: ShortHash)
    ensures var d := DiskInfo("", "", "sda", [], 8, 0, "", "", "", "", "a._b", "", "", "");
            IsSubdomain("n1") && !IsSubdomain(GenerateCRName("n1", d, hash))
  {
    hide IsSubdomain, Sanitize, Kept, GenerateCRName;
    var d := DiskInfo("", "", "sda", [], 8, 0, "", "", "", "", "a._b", "", "", "");
    SanitizeExamples();
    SubdomainIff("n1");
    InvalidName("n1", d, hash);
  }

  lemma SanitizeExamples()
    ensures Sanitize("n1") == "n1" && Sanitize("a._b") == "a.-b"
  {
    assert ToLower("n1") == "n1" && ToLower("a._b") == "a._b";
    assert "n1"[1..] == "1" && "1"[1..] == "";
    assert Hyphenate("n1", false) == "n1";
    assert "a._b"[1..] == "._b" && "._b"[1..] == "_b" && "_b"[1..] == "b" && "b"[1..] == "";
    assert Hyphenate("b", true) == "b";
    assert Hyphenate("_b", false) == "-b";
    assert Hyphenate("._b", false) == ".-b";
    assert Hyphenate("a._b", false) == "a.-b";
    TrimNothing("n1", IsTrimmed);
    TrimNothing("a.-b", IsTrimmed);
  }

  lemma HashFlanked(h: string)
    requires IsHex8(h)
    ensures DotsFlanked(h) && AlnumEnds(h)
  {
    assert forall i :: 0 <= i < |h| ==> h[i] in h;
  }

  // ----- Predictable paths

  function TrimPrefix(s: string, prefix: string): string {
    if prefix <= s then s[|prefix|..] else s
  }

  function DevicePath(link: string): string {
    "/dev/" + TrimPrefix(TrimPrefix(link, "/dev/"), "/")
  }

  const PREFIXES: seq<string> := [
    "/dev/disk/by-id/wwn-", "/dev/disk/by-id/nvme-eui.", "/dev/disk/by-id/ata-",
    "/dev/disk/by-id/nvme-", "/dev/disk/by-id/scsi-", "/dev/disk/by-path/"]

  function FirstWith(prefix: string, links: seq<string>): Option<string> {
    if links == [] then None
    else if prefix <= DevicePath(links[0]) then Some(DevicePath(links[0]))
    else FirstWith(prefix, links[1..])
  }

  function Choose(prefixes: seq<string>, links: seq<string>): Option<string> {
    if prefixes == [] then None
    else if FirstWith(prefixes[0], links).Some? then FirstWith(prefixes[0], links)
    else Choose(prefixes[1..], links)
  }

  function ResolvePredictablePath(devName: string, links: seq<string>): string {
    match Choose(PREFIXES, links)
    case Some(path) => path
    case None => if devName != "" then "/dev/" + TrimPrefix(devName, "/dev/") else ""
  }

  predicate HasAny(prefix: string, links: seq<string>) {
    exists j :: 0 <= j < |links| && prefix <= DevicePath(links[j])
  }

  /** `links[j]` is the first link of the family. */
  predicate IsFirst(prefix: string, links: seq<string>, j: int) {
    0 <= j < |links| && prefix <= DevicePath(links[j])
    && forall k :: 0 <= k < j ==> !(prefix <= DevicePath(links[k]))
  }

  lemma {:induction false} FirstWithMeaning(prefix: string, links: seq<string>)
    ensures FirstWith(prefix, links).Some? <==> HasAny(prefix, links)
    ensures FirstWith(prefix, links).Some? ==>
              exists j :: IsFirst(prefix, links, j) && FirstWith(prefix, links).value == DevicePath(links[j])
    decreases |links|
  {
    if links != [] && !(prefix <= DevicePath(links[0])) {
      var rest := links[1..];
      FirstWithMeaning(prefix, rest);
      assert forall k :: 0 < k < |links| ==> links[k] == rest[k - 1];
      if FirstWith(prefix, rest).Some? {
        var j :| IsFirst(prefix, rest, j) && FirstWith(prefix, rest).value == DevicePath(rest[j]);
        assert IsFirst(prefix, links, j + 1);
      }
    } else if links != [] {
      assert IsFirst(prefix, links, 0);
    }
  }

  /** The choice is made in the first family that has any link. */
  lemma {:induction false} ChooseMeaning(prefixes: seq<string>, links: seq<string>)
    ensures Choose(prefixes, links).None? <==> forall i :: 0 <= i < |prefixes| ==> !HasAny(prefixes[i], links)
    ensures Choose(prefixes, links).Some? ==>
              exists i :: 0 <= i < |prefixes| && HasAny(prefixes[i], links)
                          && Choose(prefixes, links) == FirstWith(prefixes[i], links)
                          && forall h :: 0 <= h < i ==> !HasAny(prefixes[h], links)
    decreases |prefixes|
  {
    if prefixes != [] {
      FirstWithMeaning(prefixes[0], links);
      var rest := prefixes[1..];
      ChooseMeaning(rest, links);
      if FirstWith(prefixes[0], links).None? {
        assert forall h :: 0 < h < |prefixes| ==> prefixes[h] == rest[h - 1];
        if Choose(rest, links).Some? {
          var i :| 0 <= i < |rest| && HasAny(rest[i], links) && Choose(rest, links) == FirstWith(rest[i], links)
                   && forall h :: 0 <= h < i ==> !HasAny(rest[h], links);
          assert prefixes[i + 1] == rest[i];
        }
      }
    }
  }

  /** `links[j]` is the first link of the most stable family that has any, which is family `i`. */
  predicate IsMostStable(links: seq<string>, i: int, j: int) {
    0 <= i < |PREFIXES| && IsFirst(PREFIXES[i], links, j) && forall h :: 0 <= h < i ==> !HasAny(PREFIXES[h], links)
  }

  /** The resolved path is the first link of the most stable family any link belongs to; only if
      no link belongs to a family it is the kernel's path, or empty without a kernel name. */
  lemma MostStableLinkChosen(devName: string, links: seq<string>)
    ensures var path := ResolvePredictablePath(devName, links);
            if exists i :: 0 <= i < |PREFIXES| && HasAny(PREFIXES[i], links)
            then exists i, j :: 0 <= j < |links| && IsMostStable(links, i, j) && path == DevicePath(links[j])
            else path == if devName == "" then "" else "/dev/" + TrimPrefix(devName, "/dev/")
  {
    hide DevicePath, HasAny, FirstWith, TrimPrefix;
    ChooseMeaning(PREFIXES, links);
    if Choose(PREFIXES, links).Some? {
      var i :| 0 <= i < |PREFIXES| && HasAny(PREFIXES[i], links)
               && Choose(PREFIXES, links) == FirstWith(PREFIXES[i], links)
               && forall h :: 0 <= h < i ==> !HasAny(PREFIXES[h], links);
      FirstWithMeaning(PREFIXES[i], links);
      var j :| IsFirst(PREFIXES[i], links, j) && FirstWith(PREFIXES[i], links).value == DevicePath(links[j]);
      assert IsMostStable(links, i, j);
    }
  }

  /** How a link becomes a path: relative to /dev, or absolute already. */
  lemma DevicePathIs(rest: string)
    requires !("/" <= rest) && !("/dev/" <= rest)
    ensures DevicePath(rest) == "/dev/" + rest && DevicePath("/dev/" + rest) == "/dev/" + rest
    ensures DevicePath("/" + rest) == "/dev/" + rest || "dev/" <= rest
  {
    assert ("/dev/" + rest)[5..] == rest && ("/" + rest)[1..] == rest;
    if "/dev/" <= "/" + rest {
      assert ("/" + rest)[1..5] == "dev/" == rest[..4];
    }
  }

  /** The families from most to least stable: the path is of the first family that has a link. */
  lemma FamilyOrder(devName: string, links: seq<string>)
    ensures var path := ResolvePredictablePath(devName, links);
            if HasAny("/dev/disk/by-id/wwn-", links) then "/dev/disk/by-id/wwn-" <= path
            else if HasAny("/dev/disk/by-id/nvme-eui.", links) then "/dev/disk/by-id/nvme-eui." <= path
            else if HasAny("/dev/disk/by-id/ata-", links) then "/dev/disk/by-id/ata-" <= path
            else if HasAny("/dev/disk/by-id/nvme-", links) then "/dev/disk/by-id/nvme-" <= path
            else if HasAny("/dev/disk/by-id/scsi-", links) then "/dev/disk/by-id/scsi-" <= path
            else if HasAny("/dev/disk/by-path/", links) then "/dev/disk/by-path/" <= path
            else path == if devName == "" then "" else "/dev/" + TrimPrefix(devName, "/dev/")
  {
    hide DevicePath, HasAny, TrimPrefix, ResolvePredictablePath, IsFirst;
    MostStableLinkChosen(devName, links);
    var ps := PREFIXES;
    assert |ps| == 6;
    assert ps[0] == "/dev/disk/by-id/wwn-" && ps[1] == "/dev/disk/by-id/nvme-eui." && ps[2] == "/dev/disk/by-id/ata-";
    assert ps[3] == "/dev/disk/by-id/nvme-" && ps[4] == "/dev/disk/by-id/scsi-" && ps[5] == "/dev/disk/by-path/";
    if exists i :: 0 <= i < |ps| && HasAny(ps[i], links) {
      var i, j :| 0 <= j < |links| && IsMostStable(links, i, j) && ResolvePredictablePath(devName, links) == DevicePath(links[j]);
      FirstHas(ps[i], links, j);
    }
  }

  lemma FirstHas(prefix: string, links: seq<string>, j: int)
    requires IsFirst(prefix, links, j)
    ensures HasAny(prefix, links) && prefix <= DevicePath(links[j])
  {
  }
}
