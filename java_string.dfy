/** The parts of java.lang.String and java.lang.Integer that the claim code relies on:
    case mapping, case-insensitive comparison, splitting on a delimiter, decimal
    formatting and parsing of `int`, literal replacement and lexicographic order.
    Case mapping covers the ASCII letters only. */
module JavaString {
  import opened Wrappers
  import opened JavaInt

  predicate IsUpperAscii(c: char) { 'A' <= c <= 'Z' }
  predicate IsLowerAscii(c: char) { 'a' <= c <= 'z' }
  predicate IsDigit(c: char) { '0' <= c <= '9' }

  function ToLowerChar(c: char): (r: char)
    ensures IsUpperAscii(c) ==> IsLowerAscii(r) && r as int == c as int + 32
    ensures !IsUpperAscii(c) ==> r == c
  {
    if IsUpperAscii(c) then (c as int + 32) as char else c
  }

  function ToUpperChar(c: char): (r: char)
    ensures IsLowerAscii(c) ==> IsUpperAscii(r) && r as int + 32 == c as int
    ensures !IsLowerAscii(c) ==> r == c
  {
    if IsLowerAscii(c) then (c as int - 32) as char else c
  }

  /** `String.toLowerCase()`. */
  function ToLower(s: string): (r: string)
    ensures |r| == |s|
    ensures forall i :: 0 <= i < |s| ==> r[i] == ToLowerChar(s[i])
  {
    seq(|s|, i requires 0 <= i < |s| => ToLowerChar(s[i]))
  }

  /** No upper-case letter: what `toLowerCase` leaves as it is. */
  predicate IsLowerCase(s: string)
  {
    forall i :: 0 <= i < |s| ==> !IsUpperAscii(s[i])
  }

  lemma LowerCaseFixed(s: string)
    requires IsLowerCase(s)
    ensures ToLower(s) == s
  {
  }

  /** Lower-casing twice is lower-casing once. */
  lemma ToLowerIdempotent(s: string)
    ensures ToLower(ToLower(s)) == ToLower(s)
  {
  }

  /** `String.equalsIgnoreCase`. */
  predicate EqualsIgnoreCase(a: string, b: string)
  {
    ToLower(a) == ToLower(b)
  }

  /** Two characters with the same upper case have the same lower case. */
  lemma SameUpperSameLower(x: char, y: char)
    requires ToUpperChar(x) == ToUpperChar(y)
    ensures ToLowerChar(x) == ToLowerChar(y)
  {
  }

  /** `equalsIgnoreCase` as `String.regionMatches` decides it: equal lengths, and each
      pair of characters equal as they are, after upper-casing or after lower-casing. */
  lemma EqualsIgnoreCaseMeans(a: string, b: string)
    ensures EqualsIgnoreCase(a, b) <==>
      |a| == |b| && forall i :: 0 <= i < |a| ==>
        a[i] == b[i] || ToUpperChar(a[i]) == ToUpperChar(b[i]) || ToLowerChar(a[i]) == ToLowerChar(b[i])
  {
    if |a| == |b| && forall i :: 0 <= i < |a| ==>
        a[i] == b[i] || ToUpperChar(a[i]) == ToUpperChar(b[i]) || ToLowerChar(a[i]) == ToLowerChar(b[i])
    {
      forall i | 0 <= i < |a|
        ensures ToLower(a)[i] == ToLower(b)[i]
      {
        if ToUpperChar(a[i]) == ToUpperChar(b[i]) {
          SameUpperSameLower(a[i], b[i]);
        }
      }
    }
  }

  /** Joins the parts with the delimiter between consecutive parts. */
  function Join(parts: seq<string>, sep: char): (r: string)
    requires |parts| >= 1
    decreases |parts|
  {
    if |parts| == 1 then parts[0] else parts[0] + [sep] + Join(parts[1..], sep)
  }

  /** Every piece between delimiters, including empty ones. */
  function RawSplit(s: string, sep: char): (r: seq<string>)
    ensures |r| >= 1
    ensures forall i :: 0 <= i < |r| ==> sep !in r[i]
    ensures Join(r, sep) == s
    decreases |s|
  {
    if |s| == 0 then [""]
    else
      var rest := RawSplit(s[1..], sep);
      if s[0] == sep then ([""] + rest)
      else
        assert Join(rest, sep) == s[1..];
        var r := [[s[0]] + rest[0]] + rest[1..];
        assert r[1..] == rest[1..];
        r
  }

  function DropTrailingEmpty(parts: seq<string>): (r: seq<string>)
    ensures r <= parts
    ensures |r| > 0 ==> r[|r| - 1] != ""
    ensures forall i :: |r| <= i < |parts| ==> parts[i] == ""
  {
    if |parts| == 0 then []
    else if parts[|parts| - 1] == "" then DropTrailingEmpty(parts[..|parts| - 1])
    else parts
  }

  /** `String.split` with a one-character delimiter that is not a regular-expression
      metacharacter: the pieces between delimiters, trailing empty pieces removed,
      and the whole string when the delimiter does not occur. */
  function Split(s: string, sep: char): (r: seq<string>)
    ensures sep !in s ==> r == [s]
    ensures forall i :: 0 <= i < |r| ==> sep !in r[i]
  {
    if sep !in s then [s] else DropTrailingEmpty(RawSplit(s, sep))
  }

  /** Splitting a joined list of delimiter-free parts gives the parts back. */
  lemma {:induction false} RawSplitJoin(parts: seq<string>, sep: char)
    requires |parts| >= 1
    requires forall i :: 0 <= i < |parts| ==> sep !in parts[i]
    ensures RawSplit(Join(parts, sep), sep) == parts
    decreases |parts|
  {
    if |parts| == 1 {
      RawSplitNoSep(parts[0], sep);
    } else {
      var tail := Join(parts[1..], sep);
      RawSplitJoin(parts[1..], sep);
      RawSplitPrefix(parts[0], tail, sep);
    }
  }

  lemma {:induction false} RawSplitNoSep(s: string, sep: char)
    requires sep !in s
    ensures RawSplit(s, sep) == [s]
    decreases |s|
  {
    if |s| > 0 {
      RawSplitNoSep(s[1..], sep);
      assert [s[0]] + s[1..] == s;
    }
  }

  lemma {:induction false} RawSplitPrefix(a: string, tail: string, sep: char)
    requires sep !in a
    ensures RawSplit(a + [sep] + tail, sep) == [a] + RawSplit(tail, sep)
    decreases |a|
  {
    if |a| == 0 {
      assert a + [sep] + tail == [sep] + tail;
      assert ([sep] + tail)[1..] == tail;
    } else {
      assert (a + [sep] + tail)[1..] == a[1..] + [sep] + tail;
      RawSplitPrefix(a[1..], tail, sep);
      assert [a[0]] + a[1..] == a;
    }
  }

  lemma JoinContainsSep(parts: seq<string>, sep: char)
    requires |parts| >= 2
    ensures sep in Join(parts, sep)
  {
    assert Join(parts, sep) == parts[0] + [sep] + Join(parts[1..], sep);
    assert Join(parts, sep)[|parts[0]|] == sep;
  }

  /** `Split` inverts `Join` when there are at least two parts, no part contains the
      delimiter and the last part is not empty. */
  lemma SplitJoin(parts: seq<string>, sep: char)
    requires |parts| >= 2
    requires forall i :: 0 <= i < |parts| ==> sep !in parts[i]
    requires parts[|parts| - 1] != ""
    ensures Split(Join(parts, sep), sep) == parts
  {
    JoinContainsSep(parts, sep);
    RawSplitJoin(parts, sep);
  }

  // ----- decimal formatting and parsing of int -----

  function DigitChar(d: nat): (c: char)
    requires d < 10
    ensures IsDigit(c) && c as int - '0' as int == d
  {
    ('0' as int + d) as char
  }

  /** The value of a string of decimal digits. */
  function DigitsValue(s: string): (v: nat)
    requires forall i :: 0 <= i < |s| ==> IsDigit(s[i])
    decreases |s|
  {
    if |s| == 0 then 0
    else DigitsValue(s[..|s| - 1]) * 10 + DigitValue(s[|s| - 1])
  }

  function DigitValue(c: char): (d: nat)
    requires IsDigit(c)
    ensures d < 10
  {
    c as int - '0' as int
  }

  /** Decimal digits of a natural number, without leading zeros. */
  function NatToString(n: nat): (s: string)
    ensures |s| >= 1
    ensures forall i :: 0 <= i < |s| ==> IsDigit(s[i])
    ensures DigitsValue(s) == n
    decreases n
  {
    if n < 10 then [DigitChar(n)]
    else
      var s := NatToString(n / 10) + [DigitChar(n % 10)];
      assert s[..|s| - 1] == NatToString(n / 10);
      s
  }

  /** `Integer.toString(int)`, which is also what `StringBuilder.append(int)` appends. */
  function IntToString(n: int): (s: string)
    ensures |s| >= 1
    ensures ';' !in s
    ensures n >= 0 ==> s == NatToString(n)
    ensures n < 0 ==> s == "-" + NatToString(-n)
  {
    if n < 0 then "-" + NatToString(-n) else NatToString(n)
  }

  predicate AllDigits(s: string) { forall i :: 0 <= i < |s| ==> IsDigit(s[i]) }

  /** The digits of a number as written: the string less a leading sign. */
  function Unsigned(s: string): (d: string)
    requires |s| >= 1
    ensures |d| == |s| || (|d| == |s| - 1 && (s[0] == '-' || s[0] == '+'))
  {
    if s[0] == '-' || s[0] == '+' then s[1..] else s
  }

  /** `Integer.parseInt(String)` over ASCII digits: an optional sign, at least one digit,
      and a value that fits in an `int`; None where Java throws NumberFormatException.
      The value is the digits' decimal value, negated after a leading minus. */
  function ParseInt(s: string): (r: Option<int32>)
    ensures r.Some? <==>
      |s| >= 1 && |Unsigned(s)| >= 1 && AllDigits(Unsigned(s))
      && InInt32(if s[0] == '-' then -(DigitsValue(Unsigned(s)) as int) else DigitsValue(Unsigned(s)))
    ensures r.Some? ==>
      r.value as int == if s[0] == '-' then -(DigitsValue(Unsigned(s)) as int) else DigitsValue(Unsigned(s))
  {
    if |s| == 0 then None
    else
      var negative := s[0] == '-';
      var digits := if s[0] == '-' || s[0] == '+' then s[1..] else s;
      if |digits| == 0 || !AllDigits(digits) then None
      else
        var magnitude: int := DigitsValue(digits);
        var value := if negative then -magnitude else magnitude;
        if InInt32(value) then Some(value) else None
  }

  lemma ParseIntToString(n: int32)
    ensures ParseInt(IntToString(n)) == Some(n)
  {
    if n < 0 {
      ParseNegative(NatToString(-(n as int)));
    } else {
      ParseUnsigned(NatToString(n));
    }
  }

  lemma ParseNegative(digits: string)
    requires |digits| >= 1 && AllDigits(digits)
    requires InInt32(-(DigitsValue(digits) as int))
    ensures ParseInt("-" + digits) == Some(-(DigitsValue(digits) as int))
  {
    var s := "-" + digits;
    assert s[0] == '-';
    assert s[1..] == digits;
  }

  lemma ParseUnsigned(digits: string)
    requires |digits| >= 1 && AllDigits(digits)
    requires InInt32(DigitsValue(digits))
    ensures ParseInt(digits) == Some(DigitsValue(digits))
  {
    assert IsDigit(digits[0]);
  }

  // ----- replacement and ordering -----

  /** `String.replace(target, replacement)`: every non-overlapping occurrence of the
      target, scanning left to right, is replaced. */
  function Replace(s: string, target: string, replacement: string): string
    requires |target| > 0
    decreases |s|
  {
    if |s| < |target| then s
    else if s[..|target|] == target then replacement + Replace(s[|target|..], target, replacement)
    else [s[0]] + Replace(s[1..], target, replacement)
  }

  /** A string the target does not occur in comes back unchanged. */
  lemma {:induction false} ReplaceAbsent(s: string, target: string, replacement: string)
    requires |target| > 0 && !Occurs(s, target)
    ensures Replace(s, target, replacement) == s
    decreases |s|
  {
    if |s| >= |target| {
      assert !OccursAt(s, target, 0);
      OccursInTail(s, target);
      ReplaceAbsent(s[1..], target, replacement);
      assert [s[0]] + s[1..] == s;
    }
  }

  /** An occurrence after the first character is an occurrence. */
  lemma OccursInTail(s: string, target: string)
    requires |s| >= 1
    ensures Occurs(s[1..], target) ==> Occurs(s, target)
  {
    if Occurs(s[1..], target) {
      var k :| 0 <= k <= |s[1..]| && OccursAt(s[1..], target, k);
      assert s[k + 1..k + 1 + |target|] == s[1..][k..k + |target|];
      assert OccursAt(s, target, k + 1);
    }
  }

  predicate OccursAt(s: string, target: string, k: int)
  {
    0 <= k && k + |target| <= |s| && s[k..k + |target|] == target
  }

  predicate Occurs(s: string, target: string)
  {
    exists k :: 0 <= k <= |s| && OccursAt(s, target, k)
  }

  /** A string without the target's first character holds no occurrence of it. */
  lemma NoFirstCharNoOccurrence(s: string, target: string)
    requires |target| > 0 && target[0] !in s
    ensures !Occurs(s, target)
  {
  }

  /** A target at the start is replaced, and the scan goes on after it. */
  lemma ReplaceAtStart(target: string, q: string, replacement: string)
    requires |target| > 0
    ensures Replace(target + q, target, replacement) == replacement + Replace(q, target, replacement)
  {
    var s := target + q;
    assert s[..|target|] == target && s[|target|..] == q;
  }

  /** A first character other than the target's is kept, and the scan goes on after it. */
  lemma ReplacePastFirst(s: string, target: string, replacement: string)
    requires |target| > 0 && |s| >= 1 && s[0] != target[0]
    ensures Replace(s, target, replacement) == [s[0]] + Replace(s[1..], target, replacement)
  {
    if |s| >= |target| {
      assert s[..|target|][0] == s[0];
    }
    else {
      assert [s[0]] + s[1..] == s;
    }
  }

  /** Replacing a target that occurs once, as the only place its first character
      appears, splices the replacement in at that place. */
  lemma {:induction false} ReplaceSingle(p: string, target: string, q: string, replacement: string)
    requires |target| > 0 && target[0] !in p && target[0] !in q
    ensures Replace(p + target + q, target, replacement) == p + replacement + q
    decreases |p|
  {
    if |p| == 0 {
      assert p + target + q == target + q;
      ReplaceAtStart(target, q, replacement);
      NoFirstCharNoOccurrence(q, target);
      ReplaceAbsent(q, target, replacement);
    } else {
      var s := p + target + q;
      assert s[0] == p[0];
      ReplacePastFirst(s, target, replacement);
      assert s[1..] == p[1..] + target + q;
      ReplaceSingle(p[1..], target, q, replacement);
      calc {
        Replace(s, target, replacement);
        [p[0]] + Replace(p[1..] + target + q, target, replacement);
        [p[0]] + (p[1..] + replacement + q);
        { assert [p[0]] + p[1..] == p; }
        p + replacement + q;
      }
    }
  }

  /** `a.compareTo(b) < 0`: lexicographic order on characters, a proper prefix being
      smaller. A Dafny `char` is a Unicode scalar value, where Java compares UTF-16 code
      units; the two orders agree on the Basic Multilingual Plane. */
  predicate LexLess(a: string, b: string)
    decreases |a|
  {
    if |a| == 0 then |b| > 0
    else if |b| == 0 then false
    else if a[0] != b[0] then a[0] < b[0]
    else LexLess(a[1..], b[1..])
  }

  lemma {:induction false} LexLessIrreflexive(a: string)
    ensures !LexLess(a, a)
    decreases |a|
  {
    if |a| > 0 { LexLessIrreflexive(a[1..]); }
  }

  lemma {:induction false} LexLessAsymmetric(a: string, b: string)
    requires LexLess(a, b)
    ensures !LexLess(b, a)
    decreases |a|
  {
    if |a| > 0 && |b| > 0 && a[0] == b[0] { LexLessAsymmetric(a[1..], b[1..]); }
  }

  lemma {:induction false} LexLessTransitive(a: string, b: string, c: string)
    requires LexLess(a, b) && LexLess(b, c)
    ensures LexLess(a, c)
    decreases |a|
  {
    if |a| > 0 && a[0] == b[0] && b[0] == c[0] { LexLessTransitive(a[1..], b[1..], c[1..]); }
  }
}
