/**
  The dotted-version comparator of the `/latestRelease` route: split on `.`, `parseInt(_, 10)` each
  segment, read NaN and missing trailing segments as 0, and return the first non-zero
  `b[i] - a[i]`. A negative result puts `a` first, so higher versions sort first.
  */
module Versions {
  import opened Wrappers
  import opened JsString

  /** `version.split('.').map(num => parseInt(num, 10))`; `None` stands for NaN. */
  function Segments(v: string): seq<Option<int>>
  {
    var parts := Split(v, '.');
    seq(|parts|, i requires 0 <= i < |parts| => ParseInt(parts[i]))
  }

  /** `segments[i] || 0`: NaN and a missing segment both read as 0. */
  function At(segments: seq<Option<int>>, i: nat): int
  {
    if i < |segments| then segments[i].GetOr(0) else 0
  }

  function Max(a: nat, b: nat): nat {
    if a < b then b else a
  }

  /** The comparator's loop from index `i` on: the first non-zero difference, or 0. */
  function CompareFrom(a: seq<Option<int>>, b: seq<Option<int>>, i: nat): int
    decreases Max(|a|, |b|) - i
  {
    if i >= Max(|a|, |b|) then 0
    else
      var diff := At(b, i) - At(a, i);
      if diff != 0 then diff else CompareFrom(a, b, i + 1)
  }

  /** The comparator passed to `approvedReleases.sort`, on two version strings. */
  function Compare(x: string, y: string): int
  {
    CompareFrom(Segments(x), Segments(y), 0)
  }

  /** `x` sorts strictly before `y`: its version is strictly higher. */
  predicate Outranks(x: string, y: string) {
    Compare(x, y) < 0
  }

  /** `x` and `y` have the same segments once both are padded with zeros. */
  ghost predicate SameVersion(x: string, y: string) {
    forall i: nat :: At(Segments(x), i) == At(Segments(y), i)
  }

  /** The loop as written: `for (i = 0; i < max(len); i++) { diff = …; if (diff !== 0) return diff; } return 0`. */
  method CompareVersions(x: string, y: string) returns (diff: int)
    ensures diff == Compare(x, y)
  {
    var a := Segments(x);
    var b := Segments(y);
    var i := 0;
    while i < Max(|a|, |b|)
      invariant 0 <= i <= Max(|a|, |b|)
      invariant CompareFrom(a, b, i) == CompareFrom(a, b, 0)
    {
      CompareStep(a, b, i);
      diff := At(b, i) - At(a, i);
      if diff != 0 {
        return;
      }
      i := i + 1;
    }
    return 0;
  }

  // ------------------------------------------------------------------ properties

  /** One step of the loop, also past the end, where both segments read as 0. */
  lemma CompareStep(a: seq<Option<int>>, b: seq<Option<int>>, i: nat)
    ensures CompareFrom(a, b, i)
         == if At(b, i) - At(a, i) != 0 then At(b, i) - At(a, i) else CompareFrom(a, b, i + 1)
  {
  }

  lemma {:induction false} CompareFromAntisymmetric(a: seq<Option<int>>, b: seq<Option<int>>, i: nat)
    ensures CompareFrom(a, b, i) == -CompareFrom(b, a, i)
    decreases Max(|a|, |b|) - i
  {
    if i < Max(|a|, |b|) {
      CompareFromAntisymmetric(a, b, i + 1);
    }
  }

  /** Swapping the arguments negates the result. */
  lemma CompareAntisymmetric(x: string, y: string)
    ensures Compare(x, y) == -Compare(y, x)
  {
    CompareFromAntisymmetric(Segments(x), Segments(y), 0);
  }

  lemma {:induction false} CompareFromZero(a: seq<Option<int>>, b: seq<Option<int>>, i: nat)
    ensures CompareFrom(a, b, i) == 0 <==> forall j: nat :: i <= j ==> At(a, j) == At(b, j)
    decreases Max(|a|, |b|) - i
  {
    if i < Max(|a|, |b|) {
      CompareFromZero(a, b, i + 1);
      if CompareFrom(a, b, i) == 0 {
        forall j: nat | i <= j ensures At(a, j) == At(b, j) {
          if j > i {
            assert i + 1 <= j;
          }
        }
      }
    }
  }

  /** The comparator returns 0 exactly when the zero-padded segments agree: `"1.2"` ties `"1.2.0"`. */
  lemma CompareZeroIffSame(x: string, y: string)
    ensures Compare(x, y) == 0 <==> SameVersion(x, y)
  {
    CompareFromZero(Segments(x), Segments(y), 0);
  }

  lemma {:induction false} CompareFromTransitive(a: seq<Option<int>>, b: seq<Option<int>>, c: seq<Option<int>>, i: nat)
    requires CompareFrom(a, b, i) < 0 && CompareFrom(b, c, i) <= 0
    ensures CompareFrom(a, c, i) < 0
    decreases Max(Max(|a|, |b|), |c|) - i
  {
    CompareStep(a, b, i);
    CompareStep(b, c, i);
    CompareStep(a, c, i);
    if At(b, i) == At(a, i) && At(c, i) == At(b, i) && i < Max(Max(|a|, |b|), |c|) {
      CompareFromTransitive(a, b, c, i + 1);
    }
  }

  /** Outranking followed by not being outranked is outranking. */
  lemma CompareTransitive(x: string, y: string, z: string)
    requires Compare(x, y) < 0 && Compare(y, z) <= 0
    ensures Compare(x, z) < 0
  {
    CompareFromTransitive(Segments(x), Segments(y), Segments(z), 0);
  }

  /** If `x` outranks `z` and `y` does not, then `x` outranks `y`. */
  lemma OutranksPast(x: string, y: string, z: string)
    requires Outranks(x, z) && !Outranks(y, z)
    ensures Outranks(x, y)
  {
    CompareAntisymmetric(y, z);
    CompareTransitive(x, z, y);
  }

  // ------------------------------------------------------------- concrete versions

  /** The dotted spelling of a sequence of numbers, as `ns.join('.')` gives it. */
  function Dotted(ns: seq<nat>): string
  {
    Join(DecimalParts(ns), '.')
  }

  function DecimalParts(ns: seq<nat>): (parts: seq<string>)
    ensures |parts| == |ns|
    ensures forall i :: 0 <= i < |ns| ==> parts[i] == Decimal(ns[i])
  {
    if ns == [] then [] else [Decimal(ns[0])] + DecimalParts(ns[1..])
  }

  /** A dotted spelling of numbers reads back as those numbers. */
  lemma SegmentsOfDotted(ns: seq<nat>)
    requires ns != []
    ensures Segments(Dotted(ns)) == seq(|ns|, i requires 0 <= i < |ns| => Some(ns[i] as int))
  {
    var parts := DecimalParts(ns);
    forall i | 0 <= i < |parts| ensures '.' !in parts[i] {
      assert AllDigits(parts[i]);
    }
    SplitJoin(parts, '.');
    forall i | 0 <= i < |ns| ensures ParseInt(parts[i]) == Some(ns[i] as int) {
      ParseIntNatural(ns[i], "");
      assert Decimal(ns[i]) + "" == parts[i];
    }
  }

  /** A string without `.` is a single segment. */
  lemma SingleSegment(s: string)
    requires '.' !in s
    ensures Segments(s) == [ParseInt(s)]
  {
    SplitNoSeparator(s, '.');
  }

  /** Segments that are empty or start with a non-digit count as 0; `"2rc1"` counts as 2. */
  lemma SegmentExamples()
    ensures At(Segments(""), 0) == 0
    ensures At(Segments("v2"), 0) == 0
    ensures At(Segments("2rc1"), 0) == 2
  {
    EmptySegment();
    LetterSegment();
    SuffixSegment();
  }

  lemma EmptySegment()
    ensures At(Segments(""), 0) == 0
  {
    SingleSegment("");
    assert Unsigned("") == [];
  }

  lemma LetterSegment()
    ensures At(Segments("v2"), 0) == 0
  {
    assert "v2"[0] == 'v' && '.' !in "v2";
    NonNumericSegment("v2");
  }

  /** A single segment that starts with neither white space, a sign nor a digit is NaN. */
  lemma NonNumericSegment(s: string)
    requires s != [] && '.' !in s
    requires !IsSpace(s[0]) && !IsDigit(s[0]) && s[0] != '-' && s[0] != '+'
    ensures Segments(s) == [None]
  {
    SingleSegment(s);
    assert TrimStart(s) == s;
  }

  lemma SuffixSegment()
    ensures At(Segments("2rc1"), 0) == 2
  {
    SmallDecimals();
    LeadingNumber(2, "rc1");
    assert Decimal(2) + "rc1" == "2rc1";
  }

  lemma NoDot(d: string)
    requires AllDigits(d)
    ensures '.' !in d
  {
    forall i | 0 <= i < |d| ensures d[i] != '.' {
      assert IsDigit(d[i]);
    }
  }

  /** A single segment that starts with a number counts as that number, whatever follows it. */
  lemma LeadingNumber(n: nat, rest: string)
    requires '.' !in rest && (rest == [] || !IsDigit(rest[0]))
    ensures Segments(Decimal(n) + rest) == [Some(n as int)]
  {
    var d := Decimal(n);
    var s := d + rest;
    NoDot(d);
    assert '.' !in s;
    SingleSegment(s);
    ParseIntNatural(n, rest);
    assert ParseInt(s) == Some(n as int);
  }

  lemma DottedThree(x: nat, y: nat, z: nat)
    ensures Dotted([x, y, z]) == Decimal(x) + "." + Decimal(y) + "." + Decimal(z)
    ensures Segments(Dotted([x, y, z])) == [Some(x as int), Some(y as int), Some(z as int)]
  {
    var ns := [x, y, z];
    assert ns[1..] == [y, z] && ns[1..][1..] == [z];
    assert DecimalParts(ns) == [Decimal(x), Decimal(y), Decimal(z)];
    JoinCons(Decimal(x), [Decimal(y), Decimal(z)], '.');
    JoinCons(Decimal(y), [Decimal(z)], '.');
    assert [Decimal(x)] + [Decimal(y), Decimal(z)] == DecimalParts(ns);
    assert [Decimal(y)] + [Decimal(z)] == [Decimal(y), Decimal(z)];
    SegmentsOfDotted(ns);
  }

  lemma ThreeSegments(v: string, x: nat, y: nat, z: nat)
    requires v == Decimal(x) + "." + Decimal(y) + "." + Decimal(z)
    ensures Segments(v) == [Some(x as int), Some(y as int), Some(z as int)]
  {
    DottedThree(x, y, z);
  }

  lemma SmallDecimals()
    ensures Decimal(0) == "0" && Decimal(1) == "1" && Decimal(2) == "2"
    ensures Decimal(5) == "5" && Decimal(9) == "9" && Decimal(10) == "10"
  {
  }

  /** Differing first segments decide. */
  lemma CompareFirst(x: string, y: string, a: seq<Option<int>>, b: seq<Option<int>>)
    requires Segments(x) == a && Segments(y) == b && |a| == 3 && |b| == 3
    requires a[0].Some? && b[0].Some? && a[0] != b[0]
    ensures Compare(x, y) == b[0].value - a[0].value
  {
    CompareStep(a, b, 0);
  }

  /** Comparison is numeric, segment by segment: 2.0.0 beats 1.9.9. */
  lemma CompareMajor()
    ensures Outranks("2.0.0", "1.9.9")
  {
    SegmentsOfMajor();
    CompareFirst("2.0.0", "1.9.9", [Some(2), Some(0), Some(0)], [Some(1), Some(9), Some(9)]);
  }

  /** With equal first segments the second decides. */
  lemma CompareSecond(x: string, y: string, a: seq<Option<int>>, b: seq<Option<int>>)
    requires Segments(x) == a && Segments(y) == b && |a| == 3 && |b| == 3
    requires a[0] == b[0] && a[1].Some? && b[1].Some? && a[1] != b[1]
    ensures Compare(x, y) == b[1].value - a[1].value
  {
    CompareStep(a, b, 1);
    CompareStep(a, b, 0);
  }

  /** Comparison is numeric, not lexicographic: 1.10.0 beats 1.9.0. */
  lemma CompareNumeric()
    ensures Outranks("1.10.0", "1.9.0")
  {
    SegmentsOfNumeric();
    CompareSecond("1.10.0", "1.9.0", [Some(1), Some(10), Some(0)], [Some(1), Some(9), Some(0)]);
  }

  /** A higher minor segment wins once the major segments tie: 1.5.0 beats 1.0.0. */
  lemma CompareMinor()
    ensures Outranks("1.5.0", "1.0.0")
  {
    SegmentsOfMinor();
    CompareSecond("1.5.0", "1.0.0", [Some(1), Some(5), Some(0)], [Some(1), Some(0), Some(0)]);
  }

  lemma SegmentsOfMajor()
    ensures Segments("2.0.0") == [Some(2), Some(0), Some(0)]
    ensures Segments("1.9.9") == [Some(1), Some(9), Some(9)]
  {
    SmallDecimals();
    ThreeSegments("2.0.0", 2, 0, 0);
    ThreeSegments("1.9.9", 1, 9, 9);
  }

  lemma SegmentsOfNumeric()
    ensures Segments("1.10.0") == [Some(1), Some(10), Some(0)]
    ensures Segments("1.9.0") == [Some(1), Some(9), Some(0)]
  {
    SmallDecimals();
    ThreeSegments("1.10.0", 1, 10, 0);
    ThreeSegments("1.9.0", 1, 9, 0);
  }

  lemma SegmentsOfMinor()
    ensures Segments("1.5.0") == [Some(1), Some(5), Some(0)]
    ensures Segments("1.0.0") == [Some(1), Some(0), Some(0)]
  {
    SmallDecimals();
    ThreeSegments("1.5.0", 1, 5, 0);
    ThreeSegments("1.0.0", 1, 0, 0);
  }

  /** Missing trailing segments count as 0: 1.2 ties 1.2.0. */
  lemma ComparePadded()
    ensures Compare("1.2", "1.2.0") == 0
  {
    SmallDecimals();
    TwoSegments("1.2", 1, 2);
    ThreeSegments("1.2.0", 1, 2, 0);
    var a: seq<Option<int>>, b: seq<Option<int>> := [Some(1), Some(2)], [Some(1), Some(2), Some(0)];
    CompareStep(a, b, 2);
    CompareStep(a, b, 1);
    CompareStep(a, b, 0);
  }

  lemma TwoSegments(v: string, x: nat, y: nat)
    requires v == Decimal(x) + "." + Decimal(y)
    ensures Segments(v) == [Some(x as int), Some(y as int)]
  {
    var ns := [x, y];
    assert ns[1..] == [y];
    assert DecimalParts(ns) == [Decimal(x), Decimal(y)];
    JoinCons(Decimal(x), [Decimal(y)], '.');
    assert [Decimal(x)] + [Decimal(y)] == DecimalParts(ns);
    SegmentsOfDotted(ns);
  }
}
