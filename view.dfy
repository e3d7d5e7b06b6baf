/**
 * The values the home page derives from its list of entries: the list sorted by
 * date, the lightest and heaviest weight, each entry's bar length, the short date
 * label and the chart points. Weights are reals here; dates go through an external
 * parser `new Date(text)`, given as a partial function.
 */
module View {
  import opened Options
  import opened Numbers

  type Day = d: int | 1 <= d <= 31 witness 1
  type MonthIndex = m: int | 0 <= m <= 11 witness 0

  /** What a `Date` that parsed reports: `getTime()`, `getDate()` and `getMonth()`
      (months counted from 0). */
  datatype DateInfo = DateInfo(time: int, day: Day, month: MonthIndex)

  /** `new Date(text)`: None when the time value is NaN. */
  type DateParser = string -> Option<DateInfo>

  datatype WeightEntry = WeightEntry(date: string, weight: real)

  datatype ChartPoint = ChartPoint(name: string, weight: real)

  // ----- Sorting by date -----

  /** The sort key `new Date(e.date).getTime()`, absent when the date does not parse. */
  function Key(parse: DateParser, e: WeightEntry): (r: Option<int>)
    ensures r.Some? <==> parse(e.date).Some?
    ensures r.Some? ==> r.value == parse(e.date).value.time
  {
    match parse(e.date)
    case None => None
    case Some(info) => Some(info.time)
  }

  /** The comparator `a - b` on the two keys, as `Array.prototype.sort` reads it: a
      NaN difference counts as 0. */
  function Compare(parse: DateParser, a: WeightEntry, b: WeightEntry): (r: int)
    ensures Key(parse, a).Some? && Key(parse, b).Some? ==>
      (r < 0 <==> Key(parse, a).value < Key(parse, b).value) && (r == 0 <==> Key(parse, a).value == Key(parse, b).value)
    ensures Key(parse, a).None? || Key(parse, b).None? ==> r == 0
  {
    if Key(parse, a).Some? && Key(parse, b).Some? then Key(parse, a).value - Key(parse, b).value else 0
  }

  predicate AllDated(parse: DateParser, s: seq<WeightEntry>) {
    forall i :: 0 <= i < |s| ==> Key(parse, s[i]).Some?
  }

  predicate SortedByDate(parse: DateParser, s: seq<WeightEntry>) {
    forall i, j :: 0 <= i < j < |s| ==> Compare(parse, s[i], s[j]) <= 0
  }

  /** Places `x` after the last entry that does not compare greater than it. */
  function InsertLast(parse: DateParser, sorted: seq<WeightEntry>, x: WeightEntry): (r: seq<WeightEntry>)
    ensures multiset(r) == multiset(sorted) + multiset{x}
    decreases |sorted|
  {
    if sorted == [] then [x]
    else
      var last := sorted[|sorted| - 1];
      if Compare(parse, last, x) <= 0 then sorted + [x]
      else
        var front := sorted[..|sorted| - 1];
        assert sorted == front + [last];
        InsertLast(parse, front, x) + [last]
  }

  /** `[...lista].sort(comparator)`: a stable sort of a copy, given here as insertion
      of each entry in turn. The result is a permutation of the input. */
  function SortByDate(parse: DateParser, s: seq<WeightEntry>): (r: seq<WeightEntry>)
    ensures multiset(r) == multiset(s)
    decreases |s|
  {
    if s == [] then []
    else
      assert s == s[..|s| - 1] + [s[|s| - 1]];
      InsertLast(parse, SortByDate(parse, s[..|s| - 1]), s[|s| - 1])
  }

  /** The entries whose sort key is `k`, in order. */
  function WithKey(parse: DateParser, s: seq<WeightEntry>, k: Option<int>): seq<WeightEntry>
    decreases |s|
  {
    if s == [] then []
    else WithKey(parse, s[..|s| - 1], k) + (if Key(parse, s[|s| - 1]) == k then [s[|s| - 1]] else [])
  }

  lemma {:induction false} WithKeyConcat(parse: DateParser, a: seq<WeightEntry>, b: seq<WeightEntry>, k: Option<int>)
    ensures WithKey(parse, a + b, k) == WithKey(parse, a, k) + WithKey(parse, b, k)
    decreases |b|
  {
    if b == [] {
      assert a + b == a;
    } else {
      assert (a + b)[..|a + b| - 1] == a + b[..|b| - 1];
      WithKeyConcat(parse, a, b[..|b| - 1], k);
    }
  }

  lemma {:induction false} InsertLastWithKey(parse: DateParser, t: seq<WeightEntry>, x: WeightEntry, k: Option<int>)
    ensures WithKey(parse, InsertLast(parse, t, x), k)
            == WithKey(parse, t, k) + (if Key(parse, x) == k then [x] else [])
    decreases |t|
  {
    if t == [] {
      assert WithKey(parse, [x], k) == WithKey(parse, [], k) + (if Key(parse, x) == k then [x] else []);
    } else {
      var last, front := t[|t| - 1], t[..|t| - 1];
      if Compare(parse, last, x) <= 0 {
        WithKeyConcat(parse, t, [x], k);
        assert WithKey(parse, [x], k) == WithKey(parse, [], k) + (if Key(parse, x) == k then [x] else []);
      } else {
        InsertLastWithKey(parse, front, x, k);
        var u := InsertLast(parse, front, x);
        assert (u + [last])[..|u + [last]| - 1] == u;
        assert Key(parse, last) != Key(parse, x);
      }
    }
  }

  /** Stability: for every key, the entries carrying it appear in the sorted list in
      the order they had in the input. */
  lemma {:induction false} SortStable(parse: DateParser, s: seq<WeightEntry>, k: Option<int>)
    ensures WithKey(parse, SortByDate(parse, s), k) == WithKey(parse, s, k)
    decreases |s|
  {
    if s != [] {
      SortStable(parse, s[..|s| - 1], k);
      InsertLastWithKey(parse, SortByDate(parse, s[..|s| - 1]), s[|s| - 1], k);
    }
  }

  /** Stability, for all keys at once. */
  lemma SortStableAll(parse: DateParser, s: seq<WeightEntry>)
    ensures forall k :: WithKey(parse, SortByDate(parse, s), k) == WithKey(parse, s, k)
  {
    forall k {
      SortStable(parse, s, k);
    }
  }

  lemma {:induction false} InsertLastSorted(parse: DateParser, t: seq<WeightEntry>, x: WeightEntry)
    requires AllDated(parse, t) && Key(parse, x).Some?
    requires SortedByDate(parse, t)
    ensures SortedByDate(parse, InsertLast(parse, t, x))
    decreases |t|
  {
    if t != [] {
      var last, front := t[|t| - 1], t[..|t| - 1];
      if Compare(parse, last, x) <= 0 {
        var r := t + [x];
        forall i, j | 0 <= i < j < |r| ensures Compare(parse, r[i], r[j]) <= 0 {
          if j == |t| && i < |t| - 1 {
            assert Compare(parse, t[i], last) <= 0;
          }
        }
      } else {
        assert AllDated(parse, front) && SortedByDate(parse, front);
        InsertLastSorted(parse, front, x);
        var u := InsertLast(parse, front, x);
        forall z | z in u ensures Compare(parse, z, last) <= 0 {
          assert z in multiset(u);
          if z != x {
            assert z in multiset(front);
            var i :| 0 <= i < |front| && front[i] == z;
            assert Compare(parse, t[i], t[|t| - 1]) <= 0;
          }
        }
        var r := u + [last];
        forall i, j | 0 <= i < j < |r| ensures Compare(parse, r[i], r[j]) <= 0 {
          if j == |u| {
            assert r[i] in u;
          }
        }
      }
    }
  }

  /** When every date parses, the sorted list is in non-decreasing date order. */
  lemma {:induction false} SortSorted(parse: DateParser, s: seq<WeightEntry>)
    requires AllDated(parse, s)
    ensures SortedByDate(parse, SortByDate(parse, s))
    decreases |s|
  {
    if s != [] {
      var front := s[..|s| - 1];
      assert AllDated(parse, front);
      SortSorted(parse, front);
      var t := SortByDate(parse, front);
      forall i | 0 <= i < |t| ensures Key(parse, t[i]).Some? {
        assert t[i] in multiset(front);
      }
      InsertLastSorted(parse, t, s[|s| - 1]);
    }
  }

  // ----- Range of weights and bar lengths -----

  /** `Math.max(...pesos.map((p) => p.weight))`, or 0 for no entries. */
  function MaxPeso(pesos: seq<WeightEntry>): (m: real)
    ensures pesos == [] ==> m == 0.0
    ensures forall i :: 0 <= i < |pesos| ==> pesos[i].weight <= m
    ensures pesos != [] ==> exists i :: 0 <= i < |pesos| && pesos[i].weight == m
    decreases |pesos|
  {
    if pesos == [] then 0.0
    else if |pesos| == 1 then pesos[0].weight
    else
      var rest := MaxPeso(pesos[1..]);
      assert forall i :: 1 <= i < |pesos| ==> pesos[i] == pesos[1..][i - 1];
      if pesos[0].weight >= rest then pesos[0].weight else rest
  }

  /** `Math.min(...pesos.map((p) => p.weight))`, or 0 for no entries. */
  function MinPeso(pesos: seq<WeightEntry>): (m: real)
    ensures pesos == [] ==> m == 0.0
    ensures forall i :: 0 <= i < |pesos| ==> m <= pesos[i].weight
    ensures pesos != [] ==> exists i :: 0 <= i < |pesos| && pesos[i].weight == m
    decreases |pesos|
  {
    if pesos == [] then 0.0
    else if |pesos| == 1 then pesos[0].weight
    else
      var rest := MinPeso(pesos[1..]);
      assert forall i :: 1 <= i < |pesos| ==> pesos[i] == pesos[1..][i - 1];
      if pesos[0].weight <= rest then pesos[0].weight else rest
  }

  /** The bar length of an entry: full when all weights are equal, otherwise the
      entry's position between the lightest and the heaviest, in percent. */
  function Percent(weight: real, minPeso: real, maxPeso: real): (p: real)
    ensures maxPeso == minPeso ==> p == 100.0
    ensures minPeso <= weight <= maxPeso ==> 0.0 <= p <= 100.0
    ensures minPeso < maxPeso ==> (p == 0.0 <==> weight == minPeso) && (p == 100.0 <==> weight == maxPeso)
  {
    if maxPeso == minPeso then 100.0
    else
      var span := maxPeso - minPeso;
      var q := (weight - minPeso) / span;
      assert minPeso < maxPeso ==> span > 0.0;
      assert minPeso < maxPeso ==> (q == 0.0 <==> weight == minPeso);
      assert minPeso < maxPeso ==> (q == 1.0 <==> weight == maxPeso);
      assert minPeso <= weight <= maxPeso ==> 0.0 <= q <= 1.0;
      q * 100.0
  }

  /** Every entry of the list gets a bar between 0 and 100 percent; the lightest gets
      0 and the heaviest 100 unless all weights are equal, when every bar is full. */
  lemma EntryPercent(pesos: seq<WeightEntry>, i: int)
    requires 0 <= i < |pesos|
    ensures var p := Percent(pesos[i].weight, MinPeso(pesos), MaxPeso(pesos));
      && 0.0 <= p <= 100.0
      && (MinPeso(pesos) == MaxPeso(pesos) ==> p == 100.0)
      && (MinPeso(pesos) < MaxPeso(pesos) ==> (p == 0.0 <==> pesos[i].weight == MinPeso(pesos)))
      && (MinPeso(pesos) < MaxPeso(pesos) ==> (p == 100.0 <==> pesos[i].weight == MaxPeso(pesos)))
  {
  }

  // ----- Date labels and chart points -----

  /** `s.padStart(2, "0")`. */
  function PadStart2(s: string): (r: string)
    ensures |s| >= 2 ==> r == s
    ensures |s| < 2 ==> |r| == 2 && r[2 - |s|..] == s && forall i :: 0 <= i < 2 - |s| ==> r[i] == '0'
    decreases 2 - |s|
  {
    if |s| >= 2 then s else PadStart2(['0'] + s)
  }

  /** `n.toString().padStart(2, "0")` for a number below 100: two digits that read as `n`. */
  function TwoDigits(n: nat): (r: string)
    requires n < 100
    ensures |r| == 2 && AllDigits(r) && DigitsValue(r) == n
  {
    DecimalBelowHundred(n);
    var d := Decimal(n);
    if |d| == 1 then
      DigitsValueLeadingZero(d);
      assert PadStart2(d) == ['0'] + d;
      PadStart2(d)
    else
      PadStart2(d)
  }

  /** `formatarDataCurta`: a date that does not parse is shown as it was written;
      any other becomes `DD/MM`, day and month (counted from 1) on two digits. */
  function FormatShortDate(parse: DateParser, s: string): (r: string)
    ensures parse(s).None? ==> r == s
    ensures parse(s).Some? ==>
      && |r| == 5 && r[2] == '/'
      && AllDigits(r[..2]) && DigitsValue(r[..2]) == parse(s).value.day
      && AllDigits(r[3..]) && DigitsValue(r[3..]) == parse(s).value.month + 1
  {
    match parse(s)
    case None => s
    case Some(info) =>
      var dia := TwoDigits(info.day);
      var mes := TwoDigits(info.month + 1);
      var r := dia + "/" + mes;
      assert r[..2] == dia && r[3..] == mes;
      r
  }

  /** `chartData`: one point per entry, in the same order, labelled with the short
      date and carrying the entry's weight unchanged. */
  function ChartData(parse: DateParser, pesos: seq<WeightEntry>): (r: seq<ChartPoint>)
    ensures |r| == |pesos|
    ensures forall i :: 0 <= i < |r| ==> r[i].weight == pesos[i].weight
    ensures forall i :: 0 <= i < |r| ==> r[i].name == FormatShortDate(parse, pesos[i].date)
    ensures forall i :: 0 <= i < |r| ==>
      (parse(pesos[i].date).None? ==> r[i].name == pesos[i].date)
      && (parse(pesos[i].date).Some? ==> |r[i].name| == 5 && r[i].name[2] == '/')
  {
    seq(|pesos|, i requires 0 <= i < |pesos| => ChartPoint(FormatShortDate(parse, pesos[i].date), pesos[i].weight))
  }
}
