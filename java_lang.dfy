/**
 * The parts of java.lang and commons-lang that the modelled code relies on, stated
 * on Dafny strings and unbounded integers: 32-bit wrap-around, String.hashCode,
 * String.compareTo, case mapping, trimming, substring search, splitting, joining and
 * decimal conversion of ints.
 */
module JavaLang {
  import opened Wrappers

  const INT_MIN: int := -0x8000_0000
  const INT_MAX: int := 0x7fff_ffff

  predicate IsInt32(x: int) { INT_MIN <= x <= INT_MAX }

  /** Two's complement wrap-around of int arithmetic. */
  function Wrap32(x: int): (r: int)
    ensures IsInt32(r)
    ensures (r - x) % 0x1_0000_0000 == 0
    ensures IsInt32(x) ==> r == x
  {
    (x - INT_MIN) % 0x1_0000_0000 + INT_MIN
  }

  /**
   * How many times `while (n-- != 0)` runs its body: n times for n >= 0, and for a negative n
   * until the decrement has wrapped around past INT_MIN back to 0.
   */
  function DecrementCount(n: int): (r: nat)
    requires IsInt32(n)
    ensures n >= 0 ==> r == n
  {
    if n >= 0 then n else n + 0x1_0000_0000
  }

  /** One pass of `n-- != 0` uses up one iteration. */
  lemma DecrementOnce(n: int)
    requires IsInt32(n) && n != 0
    ensures DecrementCount(Wrap32(n - 1)) == DecrementCount(n) - 1
  {
    if n == INT_MIN {
      assert Wrap32(n - 1) == INT_MAX;
    }
  }

  /**
   * String.hashCode: h = 31 * h + c over the characters, in int arithmetic. Java runs this
   * over UTF-16 code units, so the two agree on text within the Basic Multilingual Plane.
   */
  function StringHash(s: string): (r: int)
    ensures IsInt32(r)
  {
    if |s| == 0 then 0 else Wrap32(31 * StringHash(s[..|s| - 1]) + s[|s| - 1] as int)
  }

  /**
   * String.compareTo: the difference of the first differing characters, or else the
   * difference of the lengths. Java compares UTF-16 code units, so the two agree on text
   * within the Basic Multilingual Plane.
   */
  function StringCompare(a: string, b: string): (r: int)
    ensures r == 0 <==> a == b
    ensures r < 0 <==> StringLess(a, b)
    ensures r > 0 <==> StringLess(b, a)
    decreases |a|
  {
    if |a| == 0 || |b| == 0 then |a| - |b|
    else if a[0] != b[0] then a[0] as int - b[0] as int
    else StringCompare(a[1..], b[1..])
  }

  /** The strict lexicographic order that StringCompare's sign follows. */
  predicate StringLess(a: string, b: string)
    decreases |a|
  {
    if |a| == 0 || |b| == 0 then |a| < |b|
    else if a[0] != b[0] then a[0] < b[0]
    else StringLess(a[1..], b[1..])
  }

  lemma {:induction false} StringLessIrreflexive(a: string)
    ensures !StringLess(a, a)
    decreases |a|
  {
    if |a| > 0 { StringLessIrreflexive(a[1..]); }
  }

  lemma {:induction false} StringLessAsymmetric(a: string, b: string)
    requires StringLess(a, b)
    ensures !StringLess(b, a)
    decreases |a|
  {
    if |a| > 0 && |b| > 0 && a[0] == b[0] { StringLessAsymmetric(a[1..], b[1..]); }
  }

  lemma {:induction false} StringLessTransitive(a: string, b: string, c: string)
    requires StringLess(a, b) && StringLess(b, c)
    ensures StringLess(a, c)
    decreases |a|
  {
    if |a| > 0 && |b| > 0 && |c| > 0 && a[0] == b[0] && b[0] == c[0] {
      StringLessTransitive(a[1..], b[1..], c[1..]);
    }
  }

  lemma {:induction false} StringLessTotal(a: string, b: string)
    requires a != b
    ensures StringLess(a, b) || StringLess(b, a)
    decreases |a|
  {
    if |a| > 0 && |b| > 0 && a[0] == b[0] {
      assert a == [a[0]] + a[1..] && b == [b[0]] + b[1..];
      StringLessTotal(a[1..], b[1..]);
    }
  }

  /** Character.toLowerCase on the ASCII letters; other characters are unchanged. */
  function LowerChar(c: char): char
  {
    if 'A' <= c <= 'Z' then (c as int + 32) as char else c
  }

  /** Character.toUpperCase on the ASCII letters; other characters are unchanged. */
  function UpperChar(c: char): char
  {
    if 'a' <= c <= 'z' then (c as int - 32) as char else c
  }

  function ToLower(s: string): (r: string)
    ensures |r| == |s|
    ensures forall i :: 0 <= i < |s| ==> r[i] == LowerChar(s[i])
  {
    seq(|s|, i requires 0 <= i < |s| => LowerChar(s[i]))
  }

  predicate StartsWith(s: string, prefix: string)
  {
    |prefix| <= |s| && s[..|prefix|] == prefix
  }

  /** Whether `sub` occurs in `s` starting at position i. */
  predicate OccursAt(s: string, sub: string, i: int)
  {
    0 <= i && i + |sub| <= |s| && s[i..i + |sub|] == sub
  }

  predicate Contains(s: string, sub: string)
  {
    exists i :: 0 <= i <= |s| && OccursAt(s, sub, i)
  }

  /** String.indexOf(sub, from): the first occurrence at or after `from`, or -1. */
  function IndexOfFrom(s: string, sub: string, from: nat): (r: int)
    ensures r == -1 || (from <= r && OccursAt(s, sub, r))
    ensures r == -1 ==> forall i :: from <= i ==> !OccursAt(s, sub, i)
    ensures r != -1 ==> forall i :: from <= i < r ==> !OccursAt(s, sub, i)
    decreases |s| - from
  {
    if from + |sub| > |s| then -1
    else if OccursAt(s, sub, from) then from
    else IndexOfFrom(s, sub, from + 1)
  }

  /** String.indexOf(char): the first position of c, or -1. */
  function IndexOfChar(s: string, c: char): (r: int)
    ensures -1 <= r < |s|
    ensures r == -1 <==> c !in s
    ensures r >= 0 ==> s[r] == c && c !in s[..r]
  {
    if |s| == 0 then -1
    else if s[0] == c then 0
    else var k := IndexOfChar(s[1..], c); if k == -1 then -1 else k + 1
  }

  /** String.trim: removes the leading and trailing characters at or below ' '. */
  function Trim(s: string): (r: string)
    ensures |r| <= |s|
    ensures |r| > 0 ==> r[0] > ' ' && r[|r| - 1] > ' '
  {
    TrimEnd(TrimStart(s))
  }

  /** No character at or below ' ' at either end, as String.trim leaves a string. */
  predicate Trimmed(s: string)
  {
    |s| > 0 ==> s[0] > ' ' && s[|s| - 1] > ' '
  }

  /** Trimming a trimmed string changes nothing. */
  lemma TrimTrimmed(s: string)
    requires Trimmed(s)
    ensures Trim(s) == s
  {
    assert TrimStart(s) == s;
    assert TrimEnd(s) == s;
  }

  function TrimStart(s: string): (r: string)
    ensures |r| <= |s| && r == s[|s| - |r|..]
    ensures |r| > 0 ==> r[0] > ' '
  {
    if |s| > 0 && s[0] <= ' ' then TrimStart(s[1..]) else s
  }

  function TrimEnd(s: string): (r: string)
    ensures |r| <= |s| && r == s[..|r|]
    ensures |r| > 0 ==> r[|r| - 1] > ' '
    ensures |s| > 0 && s[0] > ' ' ==> |r| > 0 && r[0] == s[0]
  {
    if |s| > 0 && s[|s| - 1] <= ' ' then TrimEnd(s[..|s| - 1]) else s
  }

  /** StringUtils.isNotBlank: some character is not whitespace. */
  predicate IsNotBlank(s: string)
  {
    exists i :: 0 <= i < |s| && !IsJavaWhitespace(s[i])
  }

  /**
   * Character.isWhitespace: the controls U+0009-U+000D and U+001C-U+001F, and the space,
   * line and paragraph separators except the non-breaking U+00A0, U+2007 and U+202F
   * (U+180E counts as a space separator, as in the Unicode 6.2 tables of Java 8).
   */
  predicate IsJavaWhitespace(c: char)
  {
    var n := c as int;
    (0x09 <= n <= 0x0D) || (0x1C <= n <= 0x20) || n == 0x1680 || n == 0x180E ||
    (0x2000 <= n <= 0x2006) || (0x2008 <= n <= 0x200A) || n == 0x2028 || n == 0x2029 ||
    n == 0x205F || n == 0x3000
  }

  /** String.replace(old, new) for single-character targets. */
  function ReplaceChar(s: string, c: char, with: string): (r: string)
    ensures c !in with ==> c !in r
  {
    if |s| == 0 then []
    else (if s[0] == c then with else [s[0]]) + ReplaceChar(s[1..], c, with)
  }

  /** String.replace(target, with) for a non-empty literal target, scanning left to right. */
  function ReplaceAll(s: string, target: string, with: string): (r: string)
    requires |target| > 0
    decreases |s|
  {
    if |s| < |target| then s
    else if s[..|target|] == target then with + ReplaceAll(s[|target|..], target, with)
    else [s[0]] + ReplaceAll(s[1..], target, with)
  }

  // ---------------------------------------------------------------------------
  // StringUtils.split(s, separatorChars): maximal runs of non-separators.

  /** Length of the leading run of non-separator characters. */
  function RunLength(s: string, seps: set<char>): (n: nat)
    ensures n <= |s|
    ensures forall i :: 0 <= i < n ==> s[i] !in seps
    ensures n < |s| ==> s[n] in seps
  {
    if |s| == 0 || s[0] in seps then 0 else 1 + RunLength(s[1..], seps)
  }

  /** StringUtils.split: the non-empty maximal runs of characters outside `seps`, in order. */
  function Split(s: string, seps: set<char>): (r: seq<string>)
    ensures forall i :: 0 <= i < |r| ==> |r[i]| > 0 && forall j :: 0 <= j < |r[i]| ==> r[i][j] !in seps
    decreases |s|
  {
    if |s| == 0 then []
    else if s[0] in seps then Split(s[1..], seps)
    else var n := RunLength(s, seps); [s[..n]] + Split(s[n..], seps)
  }

  /** Joiner.on(sep).join(parts). */
  function Join(parts: seq<string>, sep: string): (r: string)
  {
    if |parts| == 0 then []
    else if |parts| == 1 then parts[0]
    else parts[0] + sep + Join(parts[1..], sep)
  }

  /** Joining one more part adds the separator and the part at the end. */
  lemma {:induction false} JoinSnoc(parts: seq<string>, x: string, sep: string)
    requires |parts| > 0
    ensures Join(parts + [x], sep) == Join(parts, sep) + sep + x
    decreases |parts|
  {
    if |parts| == 1 {
      assert (parts + [x])[1..] == [x];
    } else {
      assert (parts + [x])[1..] == parts[1..] + [x];
      JoinSnoc(parts[1..], x, sep);
    }
  }

  // ---------------------------------------------------------------------------
  // String.split(sep) and String.split(sep, limit) for a one-character separator.

  /** The fields of s between occurrences of c, empty ones included: String.split(c, -1). */
  function Fields(s: string, c: char): (r: seq<string>)
    ensures |r| >= 1
    ensures forall i :: 0 <= i < |r| ==> c !in r[i]
    ensures (c !in s) <==> r == [s]
    decreases |s|
  {
    var i := IndexOfChar(s, c);
    if i < 0 then [s] else [s[..i]] + Fields(s[i + 1..], c)
  }

  /** String.split(c, limit) for limit >= 1: at most limit fields, the last one holding the rest. */
  function SplitAtMost(s: string, c: char, limit: nat): (r: seq<string>)
    requires limit >= 1
    ensures 1 <= |r| <= limit
    ensures forall i :: 0 <= i < |r| - 1 ==> c !in r[i]
    decreases limit
  {
    var i := IndexOfChar(s, c);
    if limit == 1 || i < 0 then [s] else [s[..i]] + SplitAtMost(s[i + 1..], c, limit - 1)
  }

  /** Drops the empty strings at the end of fields. */
  function DropTrailingEmpty(fields: seq<string>): (r: seq<string>)
    ensures |r| <= |fields| && r == fields[..|r|]
    ensures |r| > 0 ==> r[|r| - 1] != []
    ensures forall i :: |r| <= i < |fields| ==> fields[i] == []
  {
    if |fields| == 0 || fields[|fields| - 1] != [] then fields
    else DropTrailingEmpty(fields[..|fields| - 1])
  }

  /**
   * String.split(c): the fields with trailing empty ones removed; a string without c is
   * its own single field, even when empty.
   */
  function SplitFields(s: string, c: char): (r: seq<string>)
    ensures forall i :: 0 <= i < |r| ==> c !in r[i]
  {
    if c !in s then [s] else DropTrailingEmpty(Fields(s, c))
  }

  /** Fields undoes a join on a separator that no part contains. */
  lemma {:induction false} FieldsJoin(parts: seq<string>, c: char)
    requires |parts| >= 1
    requires forall i :: 0 <= i < |parts| ==> c !in parts[i]
    ensures Fields(Join(parts, [c]), c) == parts
    decreases |parts|
  {
    if |parts| > 1 {
      var rest := Join(parts[1..], [c]);
      assert Join(parts, [c]) == parts[0] + [c] + rest;
      FieldsAfter(parts[0], c, rest);
      FieldsJoin(parts[1..], c);
      assert parts == [parts[0]] + parts[1..];
    }
  }

  /** A first field without c is split off at the first c. */
  lemma FieldsAfter(a: string, c: char, b: string)
    requires c !in a
    ensures Fields(a + [c] + b, c) == [a] + Fields(b, c)
  {
    var s := a + [c] + b;
    IndexOfCharAfter(a, c, b);
    assert s[..|a|] == a;
    assert s[|a| + 1..] == b;
  }

  /** With a limit of two or more, a first field without c is split off at the first c. */
  lemma SplitAtMostAfter(a: string, c: char, b: string, limit: nat)
    requires c !in a && limit >= 2
    ensures SplitAtMost(a + [c] + b, c, limit) == [a] + SplitAtMost(b, c, limit - 1)
  {
    var s := a + [c] + b;
    IndexOfCharAfter(a, c, b);
    assert s[..|a|] == a;
    assert s[|a| + 1..] == b;
  }

  /** String.split(c, n) undoes a join of n parts when only the last part may contain c. */
  lemma {:induction false} SplitAtMostJoin(parts: seq<string>, c: char)
    requires |parts| >= 1
    requires forall i :: 0 <= i < |parts| - 1 ==> c !in parts[i]
    ensures SplitAtMost(Join(parts, [c]), c, |parts|) == parts
    decreases |parts|
  {
    if |parts| > 1 {
      var rest := Join(parts[1..], [c]);
      assert Join(parts, [c]) == parts[0] + [c] + rest;
      SplitAtMostAfter(parts[0], c, rest, |parts|);
      SplitAtMostJoin(parts[1..], c);
      assert parts == [parts[0]] + parts[1..];
    }
  }

  /** String.split(c) undoes a join of two or more parts without c whose last part is not empty. */
  lemma SplitFieldsJoin(parts: seq<string>, c: char)
    requires |parts| >= 2 && parts[|parts| - 1] != []
    requires forall i :: 0 <= i < |parts| ==> c !in parts[i]
    ensures SplitFields(Join(parts, [c]), c) == parts
  {
    var s := Join(parts, [c]);
    assert s == parts[0] + [c] + Join(parts[1..], [c]);
    assert s[|parts[0]|] == c;
    FieldsJoin(parts, c);
  }

  /** The first c in a + [c] + b is the one after a, when a has none. */
  lemma {:induction false} IndexOfCharAfter(a: string, c: char, b: string)
    requires c !in a
    ensures IndexOfChar(a + [c] + b, c) == |a|
  {
    var s := a + [c] + b;
    var i := IndexOfChar(s, c);
    assert s[|a|] == c;
    assert s[..|a|] == a;
  }

  /** sep + x for each x of xs, in order: what a loop appending separated items builds. */
  function SepConcat(xs: seq<string>, sep: string): string
  {
    if |xs| == 0 then [] else SepConcat(xs[..|xs| - 1], sep) + sep + xs[|xs| - 1]
  }

  /** Appending separated items to a join is the join of the longer list. */
  lemma {:induction false} JoinThen(head: seq<string>, xs: seq<string>, sep: string)
    requires |head| > 0
    ensures Join(head, sep) + SepConcat(xs, sep) == Join(head + xs, sep)
    decreases |xs|
  {
    if |xs| == 0 {
      assert head + xs == head;
    } else {
      var init := xs[..|xs| - 1];
      var last := xs[|xs| - 1];
      JoinThen(head, init, sep);
      assert head + xs == (head + init) + [last];
      JoinSnoc(head + init, last, sep);
      calc {
        Join(head, sep) + SepConcat(xs, sep);
        Join(head, sep) + (SepConcat(init, sep) + sep + last);
        (Join(head, sep) + SepConcat(init, sep)) + sep + last;
      }
    }
  }

  predicate NoneIn(s: string, seps: set<char>)
  {
    forall j :: 0 <= j < |s| ==> s[j] !in seps
  }

  lemma {:induction false} RunLengthOfPrefix(a: string, c: char, b: string, seps: set<char>)
    requires c in seps
    ensures RunLength(a + [c] + b, seps) == RunLength(a, seps)
    decreases |a|
  {
    if |a| > 0 && a[0] !in seps {
      assert (a + [c] + b)[1..] == a[1..] + [c] + b;
      RunLengthOfPrefix(a[1..], c, b, seps);
    }
  }

  /** A separator between two strings splits them independently. */
  lemma {:induction false} SplitAround(a: string, c: char, b: string, seps: set<char>)
    requires c in seps
    ensures Split(a + [c] + b, seps) == Split(a, seps) + Split(b, seps)
    decreases |a|
  {
    var s := a + [c] + b;
    if |a| == 0 {
      assert s[1..] == b;
    } else if a[0] in seps {
      assert s[1..] == a[1..] + [c] + b;
      SplitAround(a[1..], c, b, seps);
    } else {
      RunLengthOfPrefix(a, c, b, seps);
      var n := RunLength(a, seps);
      assert s[..n] == a[..n];
      assert s[n..] == a[n..] + [c] + b;
      SplitAround(a[n..], c, b, seps);
    }
  }

  lemma SplitSingle(a: string, seps: set<char>)
    requires |a| > 0 && NoneIn(a, seps)
    ensures Split(a, seps) == [a]
  {
    var n := RunLength(a, seps);
    assert n == |a|;
    assert a[..n] == a;
    assert a[n..] == [];
    assert Split(a, seps) == [a[..n]] + Split(a[n..], seps);
  }

  /** Splitting a join on a one-character separator gives back the non-empty, separator-free parts. */
  lemma {:induction false} SplitJoin(parts: seq<string>, c: char, seps: set<char>)
    requires c in seps
    requires forall i :: 0 <= i < |parts| ==> |parts[i]| > 0 && NoneIn(parts[i], seps)
    ensures Split(Join(parts, [c]), seps) == parts
    decreases |parts|
  {
    if |parts| == 1 {
      SplitSingle(parts[0], seps);
    } else if |parts| > 1 {
      SplitJoin(parts[1..], c, seps);
      assert Join(parts, [c]) == parts[0] + [c] + Join(parts[1..], [c]);
      SplitAround(parts[0], c, Join(parts[1..], [c]), seps);
      SplitSingle(parts[0], seps);
    }
  }

  // ---------------------------------------------------------------------------
  // Integer.toString and Integer.parseInt (ASCII digits).

  predicate IsDigit(c: char) { '0' <= c <= '9' }

  predicate AllDigits(s: string) { forall i :: 0 <= i < |s| ==> IsDigit(s[i]) }

  function DigitChar(d: nat): char
    requires d < 10
  {
    ('0' as int + d) as char
  }

  /** The decimal digits of n, without leading zeros. */
  function NatToString(n: nat): (r: string)
    ensures |r| > 0 && AllDigits(r)
  {
    if n < 10 then [DigitChar(n)] else NatToString(n / 10) + [DigitChar(n % 10)]
  }

  function DigitsValue(s: string): nat
    requires AllDigits(s)
  {
    if |s| == 0 then 0 else 10 * DigitsValue(s[..|s| - 1]) + (s[|s| - 1] as int - '0' as int)
  }

  lemma {:induction false} DigitsOfNat(n: nat)
    ensures DigitsValue(NatToString(n)) == n
  {
    if n >= 10 {
      var s := NatToString(n);
      assert s[..|s| - 1] == NatToString(n / 10);
      DigitsOfNat(n / 10);
    }
  }

  /** Integer.toString. */
  function IntToString(n: int): (r: string)
    ensures |r| > 0
  {
    if n < 0 then "-" + NatToString(-n) else NatToString(n)
  }

  /** Integer.parseInt: an optional sign then at least one digit, within the int range. */
  function ParseInt(s: string): (r: Result<int>)
    ensures r.Ok? ==> IsInt32(r.value)
  {
    if |s| == 0 then Err(NumberFormat)
    else if s[0] == '-' || s[0] == '+' then
      if |s| == 1 || !AllDigits(s[1..]) then Err(NumberFormat)
      else
        var v: int := if s[0] == '-' then 0 - DigitsValue(s[1..]) as int else DigitsValue(s[1..]);
        if IsInt32(v) then Ok(v) else Err(NumberFormat)
    else if !AllDigits(s) || !IsInt32(DigitsValue(s)) then Err(NumberFormat)
    else Ok(DigitsValue(s))
  }

  /** Parsing the decimal text of an int gives it back. */
  lemma ParseIntToString(n: int)
    requires IsInt32(n)
    ensures ParseInt(IntToString(n)) == Ok(n)
  {
    var s := IntToString(n);
    if n < 0 {
      assert s[0] == '-';
      assert s[1..] == NatToString(-n);
      DigitsOfNat(-n);
      assert AllDigits(s[1..]);
    } else {
      DigitsOfNat(n);
      assert s[0] != '-' && s[0] != '+' by { assert IsDigit(s[0]); }
    }
  }

  lemma IntToStringHasNo(n: int, c: char)
    requires c != '-' && !IsDigit(c)
    ensures c !in IntToString(n)
  {
    var s := IntToString(n);
    if n < 0 {
      assert s == "-" + NatToString(-n);
      assert forall i :: 1 <= i < |s| ==> s[i] == NatToString(-n)[i - 1];
    }
  }
}
