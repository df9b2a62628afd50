/**
 * Strings as sequences of runes, and the library functions the parsers use.
 *
 * The case mappings are exact wherever the result can be an ASCII character; every other
 * character maps to itself.
 */
module Text {

  function Lower(c: char): char {
    if 'A' <= c <= 'Z' then c + 32 as char
    else if c == '\U{0130}' then 'i'
    else if c == '\U{212A}' then 'k'
    else c
  }

  function Upper(c: char): char {
    if 'a' <= c <= 'z' then c - 32 as char
    else if c == '\U{0131}' then 'I'
    else if c == '\U{017F}' then 'S'
    else c
  }

  /** The representative of a character's case-folding orbit. */
  function Fold(c: char): char {
    if 'A' <= c <= 'Z' then c + 32 as char
    else if c == '\U{212A}' then 'k'
    else if c == '\U{017F}' then 's'
    else c
  }

  function ToLower(s: string): (r: string)
    ensures |r| == |s|
  {
    seq(|s|, i requires 0 <= i < |s| => Lower(s[i]))
  }

  function ToUpper(s: string): (r: string)
    ensures |r| == |s|
  {
    seq(|s|, i requires 0 <= i < |s| => Upper(s[i]))
  }

  predicate EqualFold(a: string, b: string) {
    |a| == |b| && forall i :: 0 <= i < |a| ==> Fold(a[i]) == Fold(b[i])
  }

  predicate IsSpace(c: char) {
    || '\U{0009}' <= c <= '\U{000D}' || c == ' ' || c == '\U{0085}' || c == '\U{00A0}'
    || c == '\U{1680}' || '\U{2000}' <= c <= '\U{200A}' || c == '\U{2028}' || c == '\U{2029}'
    || c == '\U{202F}' || c == '\U{205F}' || c == '\U{3000}'
  }

  /** The ASCII blanks are tab to carriage return and the space. */
  lemma AsciiSpace(c: char)
    requires c as int < 128
    ensures IsSpace(c) <==> 9 <= c as int <= 13 || c as int == 32
  {
  }

  // ----- Trimming

  function TrimLeft(s: string, drop: char -> bool): string {
    if s != [] && drop(s[0]) then TrimLeft(s[1..], drop) else s
  }

  function TrimRight(s: string, drop: char -> bool): string {
    if s != [] && drop(s[|s| - 1]) then TrimRight(s[..|s| - 1], drop) else s
  }

  function Trim(s: string, drop: char -> bool): string {
    TrimRight(TrimLeft(s, drop), drop)
  }

  function TrimSpace(s: string): string { Trim(s, IsSpace) }

  lemma {:induction false} TrimLeftSuffix(s: string, drop: char -> bool)
    ensures var r := TrimLeft(s, drop);
            && |r| <= |s| && r == s[|s| - |r|..] && (r == [] || !drop(r[0]))
  {
    if s != [] && drop(s[0]) {
      TrimLeftSuffix(s[1..], drop);
    }
  }

  lemma {:induction false} TrimRightPrefix(s: string, drop: char -> bool)
    ensures var r := TrimRight(s, drop);
            r <= s && (r == [] || !drop(r[|r| - 1]))
  {
    if s != [] && drop(s[|s| - 1]) {
      TrimRightPrefix(s[..|s| - 1], drop);
    }
  }

  /** A result of trimming has nothing left to trim, and every character of it is from `s`. */
  lemma TrimEnds(s: string, drop: char -> bool)
    ensures var r := Trim(s, drop);
            && (r != [] ==> !drop(r[0]) && !drop(r[|r| - 1]))
            && (forall c :: c in r ==> c in s)
  {
    TrimLeftSuffix(s, drop);
    TrimRightPrefix(TrimLeft(s, drop), drop);
    var l := TrimLeft(s, drop);
    var r := TrimRight(l, drop);
    assert forall i :: 0 <= i < |r| ==> r[i] == l[i] == s[|s| - |l| + i];
  }

  lemma TrimNothing(s: string, drop: char -> bool)
    requires s == [] || (!drop(s[0]) && !drop(s[|s| - 1]))
    ensures Trim(s, drop) == s
  {
  }

  // ----- Splitting and joining

  function IndexOf(s: string, c: char): (i: nat)
    ensures i <= |s| && c !in s[..i]
    ensures i < |s| ==> s[i] == c
  {
    if s == [] || s[0] == c then 0
    else
      var j := IndexOf(s[1..], c);
      assert s[..1 + j] == [s[0]] + s[1..][..j];
      1 + j
  }

  lemma IndexOfPrefix(a: string, c: char, b: string)
    requires c !in a
    ensures IndexOf(a + [c] + b, c) == |a|
    ensures IndexOf(a, c) == |a|
  {
    var s := a + [c] + b;
    assert s[|a|] == c;
    assert forall k :: 0 <= k < |a| ==> s[k] == a[k];
  }

  /** strings.Cut: the text before and after the first `sep`, and whether there is one. */
  function Cut(s: string, sep: char): (string, string, bool) {
    var i := IndexOf(s, sep);
    if i < |s| then (s[..i], s[i + 1..], true) else (s, "", false)
  }

  lemma CutAt(a: string, sep: char, b: string)
    requires sep !in a
    ensures Cut(a + [sep] + b, sep) == (a, b, true)
  {
    IndexOfPrefix(a, sep, b);
    var s := a + [sep] + b;
    assert s[..|a|] == a && s[|a| + 1..] == b;
  }

  /** strings.Split with a one-character separator. */
  function Split(s: string, sep: char): (parts: seq<string>)
    ensures |parts| > 0
  {
    var i := IndexOf(s, sep);
    if i < |s| then [s[..i]] + Split(s[i + 1..], sep) else [s]
  }

  function Join(parts: seq<string>, sep: char): string {
    if parts == [] then ""
    else if |parts| == 1 then parts[0]
    else parts[0] + [sep] + Join(parts[1..], sep)
  }

  lemma {:induction false} SplitParts(s: string, sep: char)
    ensures Join(Split(s, sep), sep) == s
    ensures forall p :: p in Split(s, sep) ==> sep !in p
  {
    var i := IndexOf(s, sep);
    if i < |s| {
      SplitParts(s[i + 1..], sep);
      assert s == s[..i] + [sep] + s[i + 1..];
      assert Split(s, sep)[1..] == Split(s[i + 1..], sep);
    }
  }

  lemma {:induction false} SplitJoin(parts: seq<string>, sep: char)
    requires |parts| > 0 && forall p :: p in parts ==> sep !in p
    ensures Split(Join(parts, sep), sep) == parts
  {
    if |parts| == 1 {
      IndexOfPrefix(parts[0], sep, "");
    } else {
      var rest := Join(parts[1..], sep);
      IndexOfPrefix(parts[0], sep, rest);
      SplitJoin(parts[1..], sep);
      var s := parts[0] + [sep] + rest;
      assert s[..|parts[0]|] == parts[0] && s[|parts[0]| + 1..] == rest;
      assert [parts[0]] + parts[1..] == parts;
    }
  }

  predicate Contains(s: string, sub: string) {
    exists i {:trigger s[i..]} :: 0 <= i <= |s| && sub <= s[i..]
  }

  /** It contains what stands anywhere in it. */
  lemma ContainsMeaning(s: string, sub: string)
    ensures Contains(s, sub) <==> exists before: string, after: string :: s == before + sub + after
  {
    if Contains(s, sub) {
      var i :| 0 <= i <= |s| && sub <= s[i..];
      var before, after := s[..i], s[i..][|sub|..];
      assert s[i..] == sub + after;
      assert s == before + sub + after;
    }
    if before: string, after: string :| s == before + sub + after {
      assert s[|before|..] == sub + after;
    }
  }

  // ----- Case

  /** `b` is `a` except that some ASCII letters are in the other case. */
  predicate SameButCase(a: string, b: string) {
    |a| == |b| && forall i :: 0 <= i < |a| ==> a[i] == b[i] || OtherCase(a[i], b[i]) || OtherCase(b[i], a[i])
  }

  predicate OtherCase(upper: char, lower: char) {
    'A' <= upper <= 'Z' && lower as int == upper as int + 32
  }

  /** The case mappings and the comparison do not tell such strings apart, and they leave a
      string alone that has no letter of the wrong case. */
  lemma CaseIgnored(a: string, b: string)
    requires SameButCase(a, b)
    ensures ToLower(a) == ToLower(b) && ToUpper(a) == ToUpper(b) && EqualFold(a, b)
  {
  }

  predicate IsAscii(s: string) { forall i :: 0 <= i < |s| ==> s[i] as int < 128 }

  lemma OwnCase(s: string)
    requires IsAscii(s)
    ensures (forall i :: 0 <= i < |s| ==> !('A' <= s[i] <= 'Z')) ==> ToLower(s) == s
    ensures (forall i :: 0 <= i < |s| ==> !('a' <= s[i] <= 'z')) ==> ToUpper(s) == s
  {
  }
}
