/**
 * The handful of Python string operations the core relies on: strip, lower,
 * isalnum/isdigit, split/join, startswith, str(int)/int(str), and the
 * code-point ordering Python uses to compare strings.
 *
 * Python's character classes are Unicode-wide; here they are small explicit
 * tables (ASCII plus the Cyrillic block the school's data is written in).
 */
module Text {
  import opened Wrappers

  // ---------------------------------------------------------------------
  // Character classes

  /** Whitespace removed by str.strip(). */
  predicate IsSpace(c: char) {
    c == ' ' || c == '\t' || c == '\n' || c == '\r' || c == '\U{000B}' || c == '\U{000C}'
    || ('\U{001C}' <= c <= '\U{001F}') || c == '\U{0085}' || c == '\U{00A0}'
  }

  predicate IsAsciiLetter(c: char) {
    ('a' <= c <= 'z') || ('A' <= c <= 'Z')
  }

  /** Basic Cyrillic letters, including Ё and ё. */
  predicate IsCyrillicLetter(c: char) {
    ('А' <= c <= 'я') || c == 'Ё' || c == 'ё'
  }

  /** The decimal digits int() accepts. */
  predicate IsDecimal(c: char) {
    '0' <= c <= '9'
  }

  /** str.isdigit(): decimal digits and also the superscript digits, which int() rejects. */
  predicate IsDigit(c: char) {
    IsDecimal(c) || c == '²' || c == '³' || c == '¹'
    || c == '⁰' || ('⁴' <= c <= '⁹')
  }

  /** str.isalnum() on one character. */
  predicate IsAlnum(c: char) {
    IsAsciiLetter(c) || IsCyrillicLetter(c) || IsDigit(c)
  }

  /** The upper-case letters LowerChar folds: Latin A-Z and Cyrillic А-Я and Ё. */
  predicate IsUpper(c: char) {
    'A' <= c <= 'Z' || 'А' <= c <= 'Я' || c == 'Ё'
  }

  /** str.lower() on one character: upper-case letters fold, everything else stays. */
  function LowerChar(c: char): (r: char)
    ensures !IsUpper(r)
    ensures !IsUpper(c) ==> r == c
    ensures IsAlnum(c) <==> IsAlnum(r)
  {
    if 'A' <= c <= 'Z' then (c as int + 32) as char
    else if 'А' <= c <= 'Я' then (c as int + 32) as char
    else if c == 'Ё' then 'ё'
    else c
  }

  // ---------------------------------------------------------------------
  // Whole-string predicates and transformations

  predicate AllDigits(s: string) {
    s != [] && forall i :: 0 <= i < |s| ==> IsDigit(s[i])
  }

  predicate AllDecimal(s: string) {
    forall i :: 0 <= i < |s| ==> IsDecimal(s[i])
  }

  predicate StartsWith(s: string, prefix: string) {
    |prefix| <= |s| && s[..|prefix|] == prefix
  }

  predicate EndsWith(s: string, suffix: string) {
    |suffix| <= |s| && s[|s| - |suffix|..] == suffix
  }

  /** str.lower() */
  function Lower(s: string): (r: string)
    ensures |r| == |s| && forall i :: 0 <= i < |r| ==> !IsUpper(r[i])
  {
    seq(|s|, i requires 0 <= i < |s| => LowerChar(s[i]))
  }

  /** str.lstrip() */
  function StripLeft(s: string): string {
    if s != [] && IsSpace(s[0]) then StripLeft(s[1..]) else s
  }

  /** lstrip() drops a whitespace prefix and stops at the first other character. */
  lemma {:induction false} StripLeftMeaning(s: string)
    ensures var r := StripLeft(s);
      && |r| <= |s| && r == s[|s| - |r|..]
      && (r == [] || !IsSpace(r[0]))
      && (forall i :: 0 <= i < |s| - |r| ==> IsSpace(s[i]))
  {
    if s != [] && IsSpace(s[0]) {
      var t := s[1..];
      StripLeftMeaning(t);
      var r := StripLeft(t);
      assert StripLeft(s) == r;
      assert t[|t| - |r|..] == s[|s| - |r|..];
      forall i | 0 <= i < |s| - |r| ensures IsSpace(s[i]) {
        if i > 0 {
          assert s[i] == t[i - 1];
        }
      }
    }
  }

  /** str.rstrip() */
  function StripRight(s: string): string {
    if s != [] && IsSpace(s[|s| - 1]) then StripRight(s[..|s| - 1]) else s
  }

  /** rstrip() drops a whitespace suffix and stops at the last other character. */
  lemma {:induction false} StripRightMeaning(s: string)
    ensures var r := StripRight(s);
      && |r| <= |s| && r == s[..|r|]
      && (r == [] || !IsSpace(r[|r| - 1]))
      && (forall i :: |r| <= i < |s| ==> IsSpace(s[i]))
  {
    if s != [] && IsSpace(s[|s| - 1]) {
      var t := s[..|s| - 1];
      StripRightMeaning(t);
      var r := StripRight(t);
      assert StripRight(s) == r;
      assert t[..|r|] == s[..|r|];
      forall i | |r| <= i < |s| ensures IsSpace(s[i]) {
        if i < |s| - 1 {
          assert s[i] == t[i];
        }
      }
    }
  }

  /**
   * str.strip(): the slice of s left after dropping whitespace at both
   * ends, which has no whitespace at either end.
   */
  function Strip(s: string): (r: string)
    ensures r == [] || (!IsSpace(r[0]) && !IsSpace(r[|r| - 1]))
    ensures r == [] <==> forall i :: 0 <= i < |s| ==> IsSpace(s[i])
    ensures exists a, b :: 0 <= a <= b <= |s| && r == s[a..b] && forall i :: 0 <= i < a || b <= i < |s| ==> IsSpace(s[i])
    ensures forall i :: 0 <= i < |r| ==> r[i] in s
  {
    StripBoth(s);
    StripRight(StripLeft(s))
  }

  lemma StripBoth(s: string)
    ensures var r := StripRight(StripLeft(s));
      && (r == [] || (!IsSpace(r[0]) && !IsSpace(r[|r| - 1])))
      && (r == [] <==> forall i :: 0 <= i < |s| ==> IsSpace(s[i]))
      && (exists a, b :: 0 <= a <= b <= |s| && r == s[a..b] && forall i :: 0 <= i < a || b <= i < |s| ==> IsSpace(s[i]))
      && (forall i :: 0 <= i < |r| ==> r[i] in s)
  {
    StripEnds(s);
    StripEmpty(s);
    StripFrom(s);
  }

  lemma StripEnds(s: string)
    ensures var r := StripRight(StripLeft(s));
      r == [] || (!IsSpace(r[0]) && !IsSpace(r[|r| - 1]))
  {
    var l := StripLeft(s);
    StripLeftMeaning(s);
    StripRightMeaning(l);
    var r := StripRight(l);
    if r != [] {
      assert r[0] == l[0];
    }
  }

  lemma StripEmpty(s: string)
    ensures StripRight(StripLeft(s)) == [] <==> forall i :: 0 <= i < |s| ==> IsSpace(s[i])
  {
    var l := StripLeft(s);
    StripLeftMeaning(s);
    StripRightMeaning(l);
    var r := StripRight(l);
    if r == [] {
      if l != [] {
        assert false;
      }
    } else {
      assert r[0] == l[0] == s[|s| - |l|];
    }
  }

  lemma StripFrom(s: string)
    ensures var r := StripRight(StripLeft(s));
      && (exists a, b :: 0 <= a <= b <= |s| && r == s[a..b] && forall i :: 0 <= i < a || b <= i < |s| ==> IsSpace(s[i]))
      && (forall i :: 0 <= i < |r| ==> r[i] in s)
  {
    var l := StripLeft(s);
    StripLeftMeaning(s);
    StripRightMeaning(l);
    var r := StripRight(l);
    var a := |s| - |l|;
    var b := a + |r|;
    assert r == s[a..b];
    forall i | 0 <= i < |r| ensures r[i] in s {
      assert r[i] == s[a + i];
    }
    forall i | 0 <= i < a || b <= i < |s| ensures IsSpace(s[i]) {
      if b <= i {
        assert s[i] == l[i - a];
      }
    }
  }

  /** A Python truthy optional string: present and not empty. */
  predicate Truthy(o: Option<string>) {
    o.Some? && o.value != []
  }

  /** s has no whitespace at either end. */
  predicate Stripped(s: string) {
    s == [] || (!IsSpace(s[0]) && !IsSpace(s[|s| - 1]))
  }

  /** strip() leaves an already stripped string alone. */
  lemma StripStripped(s: string)
    requires Stripped(s)
    ensures Strip(s) == s
  {
    assert StripLeft(s) == s;
    assert StripRight(s) == s;
  }

  /** ''.join(c for c in s if c.isalnum()) */
  function KeepAlnum(s: string): (r: string)
    ensures |r| <= |s|
    ensures forall i :: 0 <= i < |r| ==> IsAlnum(r[i])
    ensures (forall i :: 0 <= i < |s| ==> IsAlnum(s[i])) ==> r == s
    ensures |s| == 1 ==> r == if IsAlnum(s[0]) then s else []
    ensures forall i :: 0 <= i < |r| ==> r[i] in s
  {
    if s == [] then []
    else if IsAlnum(s[0]) then [s[0]] + KeepAlnum(s[1..])
    else KeepAlnum(s[1..])
  }

  /**
   * The filter distributes over concatenation; with the one-character cases
   * this pins it as keeping every alphanumeric character, in order.
   */
  lemma {:induction false} KeepAlnumAppend(a: string, b: string)
    ensures KeepAlnum(a + b) == KeepAlnum(a) + KeepAlnum(b)
  {
    if a == [] {
      assert a + b == b;
    } else {
      assert (a + b)[0] == a[0] && (a + b)[1..] == a[1..] + b;
      KeepAlnumAppend(a[1..], b);
    }
  }

  // ---------------------------------------------------------------------
  // Splitting and joining on a separator (str.split(sep), sep.join(parts))

  /** sep occurs in s starting at index j. */
  predicate OccursAt(s: string, sep: string, j: nat) {
    j + |sep| <= |s| && s[j..j + |sep|] == sep
  }

  /** sep occurs somewhere inside s. */
  predicate Contains(s: string, sep: string) {
    exists j: nat | j <= |s| :: OccursAt(s, sep, j)
  }

  lemma OccursShift(s: string, sep: string, j: nat)
    requires s != []
    ensures OccursAt(s, sep, j + 1) == OccursAt(s[1..], sep, j)
  {
    if j + 1 + |sep| <= |s| {
      assert s[j + 1..j + 1 + |sep|] == s[1..][j..j + |sep|];
    }
  }

  lemma OccursPrefix(s: string, sep: string, n: nat, j: nat)
    requires n <= |s| && j + |sep| <= n
    ensures OccursAt(s[..n], sep, j) == OccursAt(s, sep, j)
  {
    assert s[..n][j..j + |sep|] == s[j..j + |sep|];
  }

  /** str.find(sep), with None for -1. */
  function IndexOf(s: string, sep: string): (r: Option<nat>)
    requires sep != []
    ensures r.Some? ==> OccursAt(s, sep, r.value)
    ensures r.Some? ==> forall j: nat :: j < r.value ==> !OccursAt(s, sep, j)
    ensures r.None? <==> !Contains(s, sep)
    decreases |s|
  {
    if |s| < |sep| then None
    else if s[..|sep|] == sep then
      assert OccursAt(s, sep, 0);
      Some(0)
    else
      assert !OccursAt(s, sep, 0);
      var rest := IndexOf(s[1..], sep);
      assert forall j: nat :: OccursAt(s, sep, j + 1) == OccursAt(s[1..], sep, j) by {
        forall j: nat ensures OccursAt(s, sep, j + 1) == OccursAt(s[1..], sep, j) {
          OccursShift(s, sep, j);
        }
      }
      match rest
      case None =>
        assert forall j: nat :: !OccursAt(s, sep, j) by {
          forall j: nat ensures !OccursAt(s, sep, j) {
            if j > 0 { assert !OccursAt(s[1..], sep, j - 1); }
          }
        }
        None
      case Some(i) =>
        assert forall j: nat :: j < i + 1 ==> !OccursAt(s, sep, j) by {
          forall j: nat | j < i + 1 ensures !OccursAt(s, sep, j) {
            if j > 0 { assert !OccursAt(s[1..], sep, j - 1); }
          }
        }
        Some(i + 1)
  }

  function Join(parts: seq<string>, sep: string): string {
    if |parts| == 0 then ""
    else if |parts| == 1 then parts[0]
    else parts[0] + sep + Join(parts[1..], sep)
  }

  /** str.split(sep): the pieces between the non-overlapping occurrences of sep, left to right. */
  function Split(s: string, sep: string): (parts: seq<string>)
    requires sep != []
    ensures |parts| >= 1
    ensures Join(parts, sep) == s
    ensures forall k :: 0 <= k < |parts| ==> !Contains(parts[k], sep)
    decreases |s|
  {
    match IndexOf(s, sep)
    case None => [s]
    case Some(i) =>
      var head := s[..i];
      var rest := Split(s[i + |sep|..], sep);
      assert s == head + sep + s[i + |sep|..];
      assert !Contains(head, sep) by {
        forall j: nat ensures !OccursAt(head, sep, j) {
          if j + |sep| <= i { OccursPrefix(s, sep, i, j); }
        }
      }
      [head] + rest
  }

  /** Splitting the join of separator-free pieces on a one-character separator gives the pieces back. */
  lemma {:induction false} SplitJoin(parts: seq<string>, sep: string)
    requires |sep| == 1 && |parts| >= 1
    requires forall k :: 0 <= k < |parts| ==> !Contains(parts[k], sep)
    ensures Split(Join(parts, sep), sep) == parts
    decreases |parts|
  {
    var s := Join(parts, sep);
    var p := parts[0];
    if |parts| == 1 {
      assert IndexOf(s, sep).None?;
    } else {
      var tail := Join(parts[1..], sep);
      assert s == p + sep + tail;
      FirstOccurrenceAfter(p, sep, tail);
      assert s[..|p|] == p;
      assert s[|p| + |sep|..] == tail;
      SplitJoin(parts[1..], sep);
    }
  }

  /** A one-character separator occurs in s exactly when that character does. */
  lemma ContainsChar(s: string, c: char)
    ensures Contains(s, [c]) <==> c in s
  {
    if c in s {
      var i :| 0 <= i < |s| && s[i] == c;
      assert OccursAt(s, [c], i);
    }
    if Contains(s, [c]) {
      var j: nat :| j <= |s| && OccursAt(s, [c], j);
      assert s[j] == c;
    }
  }

  /** In p + sep + tail, with sep of one character absent from p, the first sep is the one after p. */
  lemma FirstOccurrenceAfter(p: string, sep: string, tail: string)
    requires |sep| == 1 && !Contains(p, sep)
    ensures IndexOf(p + sep + tail, sep) == Some(|p|)
  {
    var s := p + sep + tail;
    assert s[..|p|] == p;
    assert OccursAt(s, sep, |p|);
    forall j: nat | j < |p| ensures !OccursAt(s, sep, j) {
      OccursPrefix(s, sep, |p|, j);
    }
  }

  // ---------------------------------------------------------------------
  // str(n) and int(s)

  function DigitChar(d: nat): (c: char)
    requires d < 10
    ensures IsDecimal(c)
  {
    ('0' as int + d) as char
  }

  function DigitValue(c: char): (d: nat)
    requires IsDecimal(c)
    ensures d < 10 && DigitChar(d) == c
  {
    c as int - '0' as int
  }

  /** str(n) for n >= 0: decimal digits, no leading zeros. */
  function NatToString(n: nat): (r: string)
    ensures r != [] && AllDecimal(r)
    ensures |r| > 1 ==> r[0] != '0'
  {
    if n < 10 then [DigitChar(n)] else NatToString(n / 10) + [DigitChar(n % 10)]
  }

  /** str(n) */
  function IntToString(n: int): (r: string)
    ensures r != []
    ensures n >= 0 <==> AllDecimal(r)
  {
    if n < 0 then
      var r := "-" + NatToString(-n);
      assert !IsDecimal(r[0]);
      r
    else NatToString(n)
  }

  /** int(s) for a string made of decimal digits only. */
  function DecimalValue(s: string): nat
    requires AllDecimal(s)
  {
    if s == [] then 0 else DecimalValue(s[..|s| - 1]) * 10 + DigitValue(s[|s| - 1])
  }

  /** int(str(n)) == n */
  lemma {:induction false} DecimalRoundTrip(n: nat)
    ensures DecimalValue(NatToString(n)) == n
  {
    var s := NatToString(n);
    if n >= 10 {
      DecimalRoundTrip(n / 10);
      assert s[..|s| - 1] == NatToString(n / 10);
      assert DigitValue(s[|s| - 1]) == n % 10;
    }
  }

  // ---------------------------------------------------------------------
  // Python's string order

  /** a <= b in Python's order on str: code point by code point, a proper prefix first. */
  predicate LexLe(a: string, b: string)
    decreases |a|
  {
    a == [] || (b != [] && (a[0] < b[0] || (a[0] == b[0] && LexLe(a[1..], b[1..]))))
  }

  lemma {:induction false} LexLeTotal(a: string, b: string)
    ensures LexLe(a, b) || LexLe(b, a)
    decreases |a|
  {
    if a != [] && b != [] && a[0] == b[0] {
      LexLeTotal(a[1..], b[1..]);
    }
  }

  lemma {:induction false} LexLeTransitive(a: string, b: string, c: string)
    requires LexLe(a, b) && LexLe(b, c)
    ensures LexLe(a, c)
    decreases |a|
  {
    if a != [] && a[0] == b[0] && b[0] == c[0] {
      LexLeTransitive(a[1..], b[1..], c[1..]);
    }
  }

  lemma {:induction false} LexLeAntisymmetric(a: string, b: string)
    requires LexLe(a, b) && LexLe(b, a)
    ensures a == b
    decreases |a|
  {
    if a != [] {
      LexLeAntisymmetric(a[1..], b[1..]);
      assert a == [a[0]] + a[1..] && b == [b[0]] + b[1..];
    }
  }
}
