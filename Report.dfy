/** What happens to the analyses before they are written out: the filter on
    self-sustaining cycles, the three sort orders, and the rendering of a
    number of seconds. Python's `list.sort` is stable, so its result is
    determined by the key: a stable insertion sort on the same key gives the
    same list. */
module Report {
  import opened Recipes
  import opened Numerals
  import opened Analysis

  // ---------------------------------------------------------------------
  // Duration value
  // ---------------------------------------------------------------------

  /** The number a total duration sorts by: the midpoint of a range. */
  function DurationValue(t: Total): (v: real)
    ensures t.Scalar? ==> v == t.value
    ensures t.Span? ==> 2.0 * v == (t.min + t.max) as real
    ensures t.Span? && t.min <= t.max ==> t.min as real <= v <= t.max as real
  {
    match t
    case Scalar(v) => v
    case Span(lo, hi) => (lo + hi) as real / 2.0
  }

  /** The value a "range" total sorts by is the "avg" total. */
  lemma RangeValueIsAverage(rs: seq<Recipe>)
    ensures DurationValue(TotalDuration(rs, "range")) == TotalDuration(rs, "avg").value
  {
    MidOfSums(rs);
    if !HasRange(rs) {
      NoRangeCollapses(rs);
    }
  }

  // ---------------------------------------------------------------------
  // Filter
  // ---------------------------------------------------------------------

  /** The self-sustaining analyses, in their original order. */
  function FilterSustaining(analyses: seq<CycleAnalysis>): (r: seq<CycleAnalysis>)
    ensures |r| <= |analyses|
    ensures forall i | 0 <= i < |r| :: r[i].isSelfSustaining && r[i] in analyses
    ensures forall i | 0 <= i < |analyses| :: analyses[i].isSelfSustaining ==> analyses[i] in r
  {
    if analyses == [] then []
    else
      FilterSustaining(analyses[..|analyses| - 1])
      + (if analyses[|analyses| - 1].isSelfSustaining then [analyses[|analyses| - 1]] else [])
  }

  /** Filtering a concatenation filters each part: the relative order of the
      kept analyses is the original one. */
  lemma {:induction false} FilterAppend(a: seq<CycleAnalysis>, b: seq<CycleAnalysis>)
    ensures FilterSustaining(a + b) == FilterSustaining(a) + FilterSustaining(b)
  {
    if b == [] {
      assert a + b == a;
    } else {
      var front := b[..|b| - 1];
      FilterAppend(a, front);
      assert (a + b)[..|a + b| - 1] == a + front;
    }
  }

  /** Exactly the self-sustaining analyses are kept, each as often as it occurs. */
  lemma {:induction false} FilterMeaning(analyses: seq<CycleAnalysis>, x: CycleAnalysis)
    ensures multiset(FilterSustaining(analyses))[x] == if x.isSelfSustaining then multiset(analyses)[x] else 0
  {
    if analyses != [] {
      var front := analyses[..|analyses| - 1];
      FilterMeaning(front, x);
      assert analyses == front + [analyses[|analyses| - 1]];
    }
  }

  // ---------------------------------------------------------------------
  // Sort
  // ---------------------------------------------------------------------

  /** A sort key: a pair compared lexicographically, smaller first. */
  datatype Key = Key(major: real, minor: real)

  predicate KeyLe(a: Key, b: Key) {
    a.major < b.major || (a.major == b.major && a.minor <= b.minor)
  }

  /** The key of each sort mode; `-True` is -1 in Python, so sustaining
      cycles come first, then longer ones. */
  function SortKey(sortBy: string, a: CycleAnalysis): Key {
    if sortBy == "self_sustaining" then
      Key(-(if a.isSelfSustaining then 1.0 else 0.0), -(|a.cycle| as real))
    else if sortBy == "length" then Key(-(|a.cycle| as real), 0.0)
    else if sortBy == "duration" then Key(-DurationValue(a.totalDuration), 0.0)
    else Key(0.0, 0.0)
  }

  predicate Sorted(sortBy: string, s: seq<CycleAnalysis>) {
    forall i, j | 0 <= i < j < |s| :: KeyLe(SortKey(sortBy, s[i]), SortKey(sortBy, s[j]))
  }

  /** Inserts `x` before the first element whose key is not smaller. */
  function Insert(sortBy: string, x: CycleAnalysis, s: seq<CycleAnalysis>): seq<CycleAnalysis> {
    if s == [] || KeyLe(SortKey(sortBy, x), SortKey(sortBy, s[0])) then [x] + s
    else [s[0]] + Insert(sortBy, x, s[1..])
  }

  function SortByKey(sortBy: string, s: seq<CycleAnalysis>): seq<CycleAnalysis> {
    if s == [] then [] else Insert(sortBy, s[0], SortByKey(sortBy, s[1..]))
  }

  /** The elements of `s` whose key is `k`, in order. */
  function WithKey(sortBy: string, s: seq<CycleAnalysis>, k: Key): seq<CycleAnalysis> {
    if s == [] then []
    else (if SortKey(sortBy, s[0]) == k then [s[0]] else []) + WithKey(sortBy, s[1..], k)
  }

  lemma {:induction false} InsertElements(sortBy: string, x: CycleAnalysis, s: seq<CycleAnalysis>)
    ensures multiset(Insert(sortBy, x, s)) == multiset(s) + multiset{x}
  {
    if !(s == [] || KeyLe(SortKey(sortBy, x), SortKey(sortBy, s[0]))) {
      InsertElements(sortBy, x, s[1..]);
      assert s == [s[0]] + s[1..];
    }
  }

  lemma {:induction false} InsertSorted(sortBy: string, x: CycleAnalysis, s: seq<CycleAnalysis>)
    requires Sorted(sortBy, s)
    ensures Sorted(sortBy, Insert(sortBy, x, s))
  {
    if !(s == [] || KeyLe(SortKey(sortBy, x), SortKey(sortBy, s[0]))) {
      var rest := Insert(sortBy, x, s[1..]);
      InsertSorted(sortBy, x, s[1..]);
      InsertElements(sortBy, x, s[1..]);
      var r := [s[0]] + rest;
      forall j | 0 < j < |r| ensures KeyLe(SortKey(sortBy, s[0]), SortKey(sortBy, r[j])) {
        var y := rest[j - 1];
        assert y in multiset(rest);
        if y != x {
          SortedHead(sortBy, s, y);
        }
      }
    }
  }

  /** In a sorted list the first key is no larger than the key of any later element. */
  lemma SortedHead(sortBy: string, s: seq<CycleAnalysis>, y: CycleAnalysis)
    requires Sorted(sortBy, s) && s != [] && y in multiset(s[1..])
    ensures KeyLe(SortKey(sortBy, s[0]), SortKey(sortBy, y))
  {
    var t :| 0 <= t < |s[1..]| && s[1..][t] == y;
    assert s[t + 1] == y;
  }

  lemma {:induction false} InsertWithKey(sortBy: string, x: CycleAnalysis, s: seq<CycleAnalysis>, k: Key)
    ensures WithKey(sortBy, Insert(sortBy, x, s), k)
            == (if SortKey(sortBy, x) == k then [x] else []) + WithKey(sortBy, s, k)
  {
    if s == [] || KeyLe(SortKey(sortBy, x), SortKey(sortBy, s[0])) {
      assert ([x] + s)[1..] == s;
    } else {
      InsertWithKey(sortBy, x, s[1..], k);
      assert ([s[0]] + Insert(sortBy, x, s[1..]))[1..] == Insert(sortBy, x, s[1..]);
    }
  }

  /** The sort is a permutation, ordered by the key, and stable: the
      analyses that share a key keep their input order. */
  lemma {:induction false} SortFacts(sortBy: string, s: seq<CycleAnalysis>, k: Key)
    ensures multiset(SortByKey(sortBy, s)) == multiset(s)
    ensures Sorted(sortBy, SortByKey(sortBy, s))
    ensures WithKey(sortBy, SortByKey(sortBy, s), k) == WithKey(sortBy, s, k)
  {
    if s != [] {
      SortFacts(sortBy, s[1..], k);
      var sorted := SortByKey(sortBy, s[1..]);
      InsertElements(sortBy, s[0], sorted);
      InsertSorted(sortBy, s[0], sorted);
      InsertWithKey(sortBy, s[0], sorted, k);
      assert s == [s[0]] + s[1..];
    }
  }

  /** The arrangement of the selected sort mode; any other mode leaves the
      order as it is. */
  function Arrange(analyses: seq<CycleAnalysis>, sortBy: string): seq<CycleAnalysis> {
    if sortBy == "self_sustaining" || sortBy == "length" || sortBy == "duration" then
      SortByKey(sortBy, analyses)
    else analyses
  }

  /** The analyses as they are written out. */
  function Arranged(analyses: seq<CycleAnalysis>, includeNonSustaining: bool, sortBy: string): (r: seq<CycleAnalysis>)
    ensures includeNonSustaining ==> multiset(r) == multiset(analyses)
    ensures !includeNonSustaining ==> multiset(r) == multiset(FilterSustaining(analyses))
    ensures !includeNonSustaining ==> forall i | 0 <= i < |r| :: r[i].isSelfSustaining
  {
    var kept := if includeNonSustaining then analyses else FilterSustaining(analyses);
    SortFacts(sortBy, kept, Key(0.0, 0.0));
    var r := Arrange(kept, sortBy);
    assert forall i | 0 <= i < |r| :: r[i] in multiset(kept);
    r
  }

  /** The written list holds every analysis, or every self-sustaining one
      when the others are excluded, each as often as it occurs; equal keys
      keep their order, and an unknown sort mode changes nothing. */
  lemma ArrangedContents(analyses: seq<CycleAnalysis>, includeNonSustaining: bool, sortBy: string, x: CycleAnalysis, k: Key)
    ensures multiset(Arranged(analyses, includeNonSustaining, sortBy))[x]
            == if includeNonSustaining || x.isSelfSustaining then multiset(analyses)[x] else 0
    ensures var kept := if includeNonSustaining then analyses else FilterSustaining(analyses);
            WithKey(sortBy, Arranged(analyses, includeNonSustaining, sortBy), k) == WithKey(sortBy, kept, k)
    ensures sortBy != "self_sustaining" && sortBy != "length" && sortBy != "duration" ==>
            Arranged(analyses, includeNonSustaining, sortBy)
            == if includeNonSustaining then analyses else FilterSustaining(analyses)
  {
    var kept := if includeNonSustaining then analyses else FilterSustaining(analyses);
    SortFacts(sortBy, kept, k);
    FilterMeaning(analyses, x);
  }

  /** "self_sustaining": sustaining cycles come before the others, and
      within each group longer cycles come first. */
  lemma SelfSustainingOrder(analyses: seq<CycleAnalysis>, includeNonSustaining: bool)
    ensures var r := Arranged(analyses, includeNonSustaining, "self_sustaining");
            forall i, j | 0 <= i < j < |r| ::
              (r[j].isSelfSustaining ==> r[i].isSelfSustaining)
              && (r[i].isSelfSustaining == r[j].isSelfSustaining ==> |r[i].cycle| >= |r[j].cycle|)
  {
    var kept := if includeNonSustaining then analyses else FilterSustaining(analyses);
    SortFacts("self_sustaining", kept, Key(0.0, 0.0));
  }

  /** "length": longest cycles first. */
  lemma LengthOrder(analyses: seq<CycleAnalysis>, includeNonSustaining: bool)
    ensures var r := Arranged(analyses, includeNonSustaining, "length");
            forall i, j | 0 <= i < j < |r| :: |r[i].cycle| >= |r[j].cycle|
  {
    var kept := if includeNonSustaining then analyses else FilterSustaining(analyses);
    SortFacts("length", kept, Key(0.0, 0.0));
  }

  /** "duration": longest total duration first. */
  lemma DurationOrder(analyses: seq<CycleAnalysis>, includeNonSustaining: bool)
    ensures var r := Arranged(analyses, includeNonSustaining, "duration");
            forall i, j | 0 <= i < j < |r| ::
              DurationValue(r[i].totalDuration) >= DurationValue(r[j].totalDuration)
  {
    var kept := if includeNonSustaining then analyses else FilterSustaining(analyses);
    SortFacts("duration", kept, Key(0.0, 0.0));
  }

  // ---------------------------------------------------------------------
  // Seconds as text
  // ---------------------------------------------------------------------

  datatype Unit = Hours | Minutes | Secs

  function UnitSeconds(u: Unit): nat {
    match u
    case Hours => 3600
    case Minutes => 60
    case Secs => 1
  }

  function UnitName(u: Unit): string {
    match u
    case Hours => "ч"
    case Minutes => "мин"
    case Secs => "сек"
  }

  datatype Part = Part(amount: nat, unit: Unit)

  /** The non-zero hours, minutes and seconds of `seconds`, largest first.
      Python's `//` and `%` by a positive number round down, as Dafny's do. */
  function Parts(seconds: int): seq<Part> {
    var hours := seconds / 3600;
    var minutes := (seconds % 3600) / 60;
    var secs := seconds % 60;
    (if hours > 0 then [Part(hours, Hours)] else [])
    + (if minutes > 0 then [Part(minutes, Minutes)] else [])
    + (if secs > 0 then [Part(secs, Secs)] else [])
  }

  function PartsSeconds(parts: seq<Part>): int {
    if parts == [] then 0 else parts[0].amount * UnitSeconds(parts[0].unit) + PartsSeconds(parts[1..])
  }

  function Render(p: Part): string {
    DecimalString(p.amount) + UnitName(p.unit)
  }

  function Join(parts: seq<Part>): string
    requires parts != []
  {
    if |parts| == 1 then Render(parts[0]) else Render(parts[0]) + " " + Join(parts[1..])
  }

  /** `format_seconds`: the parts joined by spaces, "0сек" when there are
      none. The text always starts with a digit, and a non-negative number is
      written "0сек" exactly when it is 0. */
  function FormatSeconds(seconds: int): (r: string)
    ensures |r| > 0 && IsDigit(r[0])
    ensures seconds >= 0 ==> (r == "0сек" <==> seconds == 0)
  {
    var parts := Parts(seconds);
    PartsPresent(seconds);
    if seconds == 0 || parts == [] then "0сек"
    else
      FormatStart(seconds);
      Join(parts)
  }

  /** A positive number of seconds has at least one part. */
  lemma PartsPresent(seconds: int)
    ensures seconds > 0 ==> Parts(seconds) != []
  {
    if seconds > 0 {
      PartsMeaning(seconds);
    }
  }

  /** A non-zero number with parts is written from the digits of its first
      part, which are not "0". */
  lemma FormatStart(seconds: int)
    requires Parts(seconds) != []
    ensures IsDigit(Join(Parts(seconds))[0]) && Join(Parts(seconds))[0] != '0'
  {
    var parts := Parts(seconds);
    assert parts[0].amount > 0;
    DecimalRoundTrip(parts[0].amount);
    JoinStart(parts);
  }

  /** For a non-negative number of seconds the parts add back up to it; every
      part is non-zero, the units strictly decrease, and minutes and seconds
      stay below 60, so the written form is the unique one. */
  lemma PartsMeaning(seconds: int)
    requires seconds >= 0
    ensures PartsSeconds(Parts(seconds)) == seconds
    ensures forall i | 0 <= i < |Parts(seconds)| :: Parts(seconds)[i].amount > 0
    ensures forall i, j | 0 <= i < j < |Parts(seconds)| ::
              UnitSeconds(Parts(seconds)[i].unit) > UnitSeconds(Parts(seconds)[j].unit)
    ensures forall i | 0 <= i < |Parts(seconds)| ::
              Parts(seconds)[i].unit != Hours ==> Parts(seconds)[i].amount < 60
  {
    var hours := seconds / 3600;
    var minutes := (seconds % 3600) / 60;
    var secs := seconds % 60;
    assert hours * 3600 + minutes * 60 + secs == seconds;
    var ps := Parts(seconds);
    var a := if hours > 0 then [Part(hours, Hours)] else [];
    var b := if minutes > 0 then [Part(minutes, Minutes)] else [];
    var c := if secs > 0 then [Part(secs, Secs)] else [];
    PartsSecondsAppend(a, b);
    PartsSecondsAppend(a + b, c);
  }

  lemma {:induction false} PartsSecondsAppend(a: seq<Part>, b: seq<Part>)
    ensures PartsSeconds(a + b) == PartsSeconds(a) + PartsSeconds(b)
  {
    if a != [] {
      PartsSecondsAppend(a[1..], b);
      assert (a + b)[1..] == a[1..] + b;
    } else {
      assert a + b == b;
    }
  }

  lemma JoinStart(parts: seq<Part>)
    requires parts != []
    ensures Join(parts)[0] == DecimalString(parts[0].amount)[0]
  {
    DecimalRoundTrip(parts[0].amount);
  }
}
