/**
 * The few operations of Java's String that the family tree and its service rely on:
 * case-insensitive equality, the "\\d+" digit test, the value Integer.parseInt gives a
 * digit string, split(" ") and endsWith.
 */
module Text {

  /** ASCII case folding: upper-case letters map to lower case, everything else to itself. */
  function FoldChar(c: char): char
  {
    if 'A' <= c <= 'Z' then (c as int - 'A' as int + 'a' as int) as char else c
  }

  /** String.equalsIgnoreCase: same length, and the characters agree pairwise up to case. */
  predicate EqualsIgnoreCase(a: string, b: string)
  {
    |a| == |b| && forall i :: 0 <= i < |a| ==> FoldChar(a[i]) == FoldChar(b[i])
  }

  /** Only the empty string equals "" ignoring case. */
  lemma EqualsIgnoreCaseEmpty(s: string)
    ensures EqualsIgnoreCase(s, "") <==> s == ""
  {
  }

  /** Case-insensitive equality is an equivalence relation. */
  lemma EqualsIgnoreCaseIsEquivalence(a: string, b: string, c: string)
    ensures EqualsIgnoreCase(a, a)
    ensures EqualsIgnoreCase(a, b) ==> EqualsIgnoreCase(b, a)
    ensures EqualsIgnoreCase(a, b) && EqualsIgnoreCase(b, c) ==> EqualsIgnoreCase(a, c)
  {
  }

  // ----- Digits and decimal values -----

  /** The ASCII digits 0-9 (what Java's regular-expression class \d matches). */
  predicate IsDigit(c: char)
  {
    '0' <= c <= '9'
  }

  /** String.matches("\\d+"): a non-empty string of digits. */
  predicate AllDigits(s: string)
  {
    |s| > 0 && forall i :: 0 <= i < |s| ==> IsDigit(s[i])
  }

  /** The decimal value of a string of digits, read most significant digit first. */
  function DecimalValue(s: string): nat
    requires forall i :: 0 <= i < |s| ==> IsDigit(s[i])
    decreases |s|
  {
    if s == [] then 0
    else
      assert IsDigit(s[|s| - 1]);
      DecimalValue(s[..|s| - 1]) * 10 + (s[|s| - 1] as int - '0' as int)
  }

  /** The digit character for 0 <= d < 10. */
  function DigitChar(d: nat): (c: char)
    requires d < 10
    ensures IsDigit(c) && c as int - '0' as int == d
  {
    ('0' as int + d) as char
  }

  /** The canonical decimal rendering of a natural number (no leading zeros). */
  function DecimalString(n: nat): (s: string)
    ensures AllDigits(s)
    ensures n > 0 ==> s[0] != '0'
    decreases n
  {
    if n < 10 then [DigitChar(n)] else DecimalString(n / 10) + [DigitChar(n % 10)]
  }

  /** Reading the rendering of n gives back n. */
  lemma {:induction false} DecimalRoundTrip(n: nat)
    ensures DecimalValue(DecimalString(n)) == n
    decreases n
  {
    var s := DecimalString(n);
    if n < 10 {
      assert s[..|s| - 1] == [];
    } else {
      DecimalRoundTrip(n / 10);
      assert s[..|s| - 1] == DecimalString(n / 10);
    }
  }

  // ----- Splitting on single spaces -----

  /**
   * The pieces between single spaces, empty ones included: k spaces give k + 1 pieces.
   * This is the list String.split(" ") builds before dropping trailing empty pieces.
   */
  function Segments(s: string): (parts: seq<string>)
    ensures |parts| >= 1
    ensures forall i :: 0 <= i < |parts| ==> ' ' !in parts[i]
    decreases |s|
  {
    if s == [] then [""]
    else
      var rest := Segments(s[1..]);
      if s[0] == ' ' then [""] + rest else [[s[0]] + rest[0]] + rest[1..]
  }

  /** The pieces put back together with one space between neighbours. */
  function Join(parts: seq<string>): string
    requires |parts| >= 1
    decreases |parts|
  {
    if |parts| == 1 then parts[0] else parts[0] + " " + Join(parts[1..])
  }

  /** Splitting loses nothing: joining the segments gives back the string. */
  lemma {:induction false} JoinSegments(s: string)
    ensures Join(Segments(s)) == s
    decreases |s|
  {
    if s != [] {
      var rest := Segments(s[1..]);
      JoinSegments(s[1..]);
      if s[0] == ' ' {
        assert Segments(s) == [""] + rest;
        assert Join(Segments(s)) == "" + " " + Join(rest);
      } else if |rest| == 1 {
        assert Segments(s) == [[s[0]] + rest[0]];
      } else {
        var parts := Segments(s);
        assert parts == [[s[0]] + rest[0]] + rest[1..];
        assert parts[1..] == rest[1..];
        assert Join(rest) == rest[0] + " " + Join(rest[1..]);
        assert Join(parts) == ([s[0]] + rest[0]) + " " + Join(rest[1..]);
        assert s == [s[0]] + s[1..];
      }
    }
  }

  /** A string without spaces is a single segment. */
  lemma {:induction false} SegmentsOfWord(a: string)
    requires ' ' !in a
    ensures Segments(a) == [a]
    decreases |a|
  {
    if a != [] {
      SegmentsOfWord(a[1..]);
      assert [a[0]] + a[1..] == a;
    }
  }

  /** A word followed by a space is the first segment; the rest is split on its own. */
  lemma {:induction false} SegmentsAfterWord(a: string, rest: string)
    requires ' ' !in a
    ensures Segments(a + " " + rest) == [a] + Segments(rest)
    decreases |a|
  {
    var s := a + " " + rest;
    if a == [] {
      assert s[1..] == rest;
    } else {
      assert s[1..] == a[1..] + " " + rest;
      SegmentsAfterWord(a[1..], rest);
      assert [a[0]] + a[1..] == a;
    }
  }

  /** A string made only of spaces (the empty string included). */
  predicate Blank(s: string)
  {
    forall i :: 0 <= i < |s| ==> s[i] == ' '
  }

  /** A string made only of spaces splits into empty segments only. */
  lemma {:induction false} SegmentsOfBlank(s: string)
    requires Blank(s)
    ensures forall j :: 0 <= j < |Segments(s)| ==> Segments(s)[j] == ""
    decreases |s|
  {
    if s != [] {
      SegmentsOfBlank(s[1..]);
    }
  }

  /**
   * The longest prefix of parts that does not end in an empty piece: the trailing empty
   * pieces are removed, nothing else.
   */
  function DropTrailingEmpty(parts: seq<string>): (r: seq<string>)
    ensures |r| <= |parts| && r == parts[..|r|]
    ensures forall j :: |r| <= j < |parts| ==> parts[j] == ""
    ensures r == [] || r[|r| - 1] != ""
    decreases |parts|
  {
    if parts == [] then []
    else if parts[|parts| - 1] == "" then DropTrailingEmpty(parts[..|parts| - 1])
    else parts
  }

  /**
   * String.split(" "): a string without a space gives itself as the only piece; otherwise
   * the segments between spaces, with trailing empty segments removed.
   */
  function Split(s: string): seq<string>
  {
    if ' ' !in s then [s] else DropTrailingEmpty(Segments(s))
  }

  /** A single word is split into itself. */
  lemma SplitWord(s: string)
    requires ' ' !in s
    ensures Split(s) == [s]
  {
  }

  /** Joining pieces that are all empty gives only spaces. */
  lemma {:induction false} JoinOfEmpties(parts: seq<string>)
    requires |parts| >= 1 && forall j :: 0 <= j < |parts| ==> parts[j] == ""
    ensures Blank(Join(parts))
    decreases |parts|
  {
    if |parts| > 1 {
      JoinOfEmpties(parts[1..]);
      assert Join(parts) == " " + Join(parts[1..]);
    }
  }

  /** A string with a character other than a space has a non-empty segment. */
  lemma SomeSegmentNonEmpty(s: string)
    requires !Blank(s)
    ensures exists j :: 0 <= j < |Segments(s)| && Segments(s)[j] != ""
  {
    if forall j :: 0 <= j < |Segments(s)| ==> Segments(s)[j] == "" {
      JoinSegments(s);
      JoinOfEmpties(Segments(s));
      assert false;
    }
  }

  /**
   * For a first word a, a space, a second word b and a tail that is empty or starts with a
   * space, where the whole has a character other than a space, the first piece is a and the
   * second is b, or there is no second piece and b is empty. Either word may be empty, as
   * around adjacent spaces.
   */
  lemma SplitFirstTwo(a: string, b: string, tail: string)
    requires ' ' !in a && ' ' !in b
    requires tail == "" || tail[0] == ' '
    requires !Blank(a + " " + b + tail)
    ensures var parts := Split(a + " " + b + tail);
      && |parts| >= 1 && parts[0] == a
      && (if |parts| > 1 then parts[1] == b else b == "")
  {
    var s := a + " " + b + tail;
    assert s == a + " " + (b + tail);
    assert s[|a|] == ' ';
    SegmentsAfterWord(a, b + tail);
    if tail == "" {
      assert b + tail == b;
      SegmentsOfWord(b);
    } else {
      assert b + tail == b + " " + tail[1..];
      SegmentsAfterWord(b, tail[1..]);
    }
    var segs := Segments(s);
    assert segs[0] == a && segs[1] == b;
    SomeSegmentNonEmpty(s);
    var parts := DropTrailingEmpty(segs);
    assert |parts| >= 1;
  }

  /** A non-empty string of spaces splits into no pieces at all. */
  lemma SplitBlank(s: string)
    requires |s| > 0 && Blank(s)
    ensures Split(s) == []
  {
    assert s[0] == ' ';
    SegmentsOfBlank(s);
  }

  // ----- Suffixes -----

  /** String.endsWith. */
  predicate EndsWith(s: string, suffix: string)
  {
    |suffix| <= |s| && s[|s| - |suffix|..] == suffix
  }
}
