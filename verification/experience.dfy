/** The professional-experience total of the CV page: the `useMemo` at
    frontend/pages/cv.tsx:154-177 that filters the experience records, measures each one
    in months, sums them and renders the sum as "N ans M mois". */
module Experience {

  import opened Wrappers
  import opened Numerals
  import opened Dates
  import opened Classify

  /** An experience row as the CV page receives it (the fields the total reads). */
  datatype Record = Record(
    title: string,
    company: Option<string>,
    category: Option<string>,
    startDate: Option<string>,
    endDate: Option<string>
  )

  predicate Professional(e: Record) {
    IsProfessional(e.category, Some(e.title), e.company)
  }

  // ----- The filter, map and reduce steps, for any predicate and measure -----

  /** `xs.filter(keep)`: the elements `keep` accepts, in their original order. */
  function Filter<T>(xs: seq<T>, keep: T -> bool): (ys: seq<T>)
    ensures |ys| <= |xs|
    ensures forall i :: 0 <= i < |ys| ==> keep(ys[i])
    ensures forall i :: 0 <= i < |ys| ==> ys[i] in xs
    ensures forall i :: 0 <= i < |xs| && keep(xs[i]) ==> xs[i] in ys
  {
    if |xs| == 0 then []
    else (if keep(xs[0]) then [xs[0]] else []) + Filter(xs[1..], keep)
  }

  /** Filtering works element by element, in order: the filter of a concatenation is the
      concatenation of the filters, and one element is kept exactly when it passes. */
  lemma {:induction false} FilterAppend<T>(a: seq<T>, b: seq<T>, keep: T -> bool)
    ensures Filter(a + b, keep) == Filter(a, keep) + Filter(b, keep)
    decreases |a|
  {
    if |a| > 0 {
      assert (a + b)[0] == a[0];
      assert (a + b)[1..] == a[1..] + b;
      FilterAppend(a[1..], b, keep);
    } else {
      assert a + b == b;
    }
  }

  lemma FilterOne<T>(x: T, keep: T -> bool)
    ensures Filter([x], keep) == if keep(x) then [x] else []
  {
    assert [x][1..] == [];
  }

  /** `xs.map(f)`. */
  function Map<T>(xs: seq<T>, f: T -> int): (ns: seq<int>)
    ensures |ns| == |xs|
    ensures forall i :: 0 <= i < |xs| ==> ns[i] == f(xs[i])
  {
    seq(|xs|, i requires 0 <= i < |xs| => f(xs[i]))
  }

  /** `.reduce((a, b) => a + b, 0)`, folding from the left. A sum of non-negative terms is
      not negative. */
  function Sum(xs: seq<int>): (r: int)
    ensures (forall i :: 0 <= i < |xs| ==> xs[i] >= 0) ==> r >= 0
  {
    if |xs| == 0 then 0 else Sum(xs[..|xs| - 1]) + xs[|xs| - 1]
  }

  /** What one element adds to a filtered sum: its measure when it is kept, else nothing. */
  function Gain<T>(x: T, keep: T -> bool, f: T -> int): int {
    if keep(x) then f(x) else 0
  }

  /** The reference total: every element's gain, added up front to back. */
  function SumGains<T>(xs: seq<T>, keep: T -> bool, f: T -> int): int {
    if |xs| == 0 then 0 else Gain(xs[0], keep, f) + SumGains(xs[1..], keep, f)
  }

  lemma {:induction false} SumAppend(xs: seq<int>, ys: seq<int>)
    ensures Sum(xs + ys) == Sum(xs) + Sum(ys)
    decreases |ys|
  {
    if |ys| > 0 {
      var ys' := ys[..|ys| - 1];
      assert (xs + ys)[..|xs + ys| - 1] == xs + ys';
      SumAppend(xs, ys');
    } else {
      assert xs + ys == xs;
    }
  }

  /** Filtering, measuring and summing adds up exactly the gains. */
  lemma {:induction false} FilterMapSum<T>(xs: seq<T>, keep: T -> bool, f: T -> int)
    ensures Sum(Map(Filter(xs, keep), f)) == SumGains(xs, keep, f)
    decreases |xs|
  {
    if |xs| > 0 {
      FilterMapSum(xs[1..], keep, f);
      var head := Filter([xs[0]], keep);
      var rest := Filter(xs[1..], keep);
      assert xs == [xs[0]] + xs[1..];
      FilterAppend([xs[0]], xs[1..], keep);
      assert Map(head + rest, f) == Map(head, f) + Map(rest, f);
      SumAppend(Map(head, f), Map(rest, f));
      HeadGain(xs[0], keep, f);
    }
  }

  /** One element's filtered, measured sum is its gain. */
  lemma HeadGain<T>(x: T, keep: T -> bool, f: T -> int)
    ensures Sum(Map(Filter([x], keep), f)) == Gain(x, keep, f)
  {
    FilterOne(x, keep);
    if keep(x) {
      assert Map([x], f) == [f(x)];
      assert Map([x], f)[..0] == [];
    } else {
      assert Map([], f) == [];
    }
  }

  lemma {:induction false} SumGainsAppend<T>(a: seq<T>, b: seq<T>, keep: T -> bool, f: T -> int)
    ensures SumGains(a + b, keep, f) == SumGains(a, keep, f) + SumGains(b, keep, f)
    decreases |a|
  {
    if |a| > 0 {
      assert (a + b)[1..] == a[1..] + b;
      SumGainsAppend(a[1..], b, keep, f);
    } else {
      assert a + b == b;
    }
  }

  /** The gains do not depend on the order of the elements. */
  lemma {:induction false} SumGainsPermutation<T>(xs: seq<T>, ys: seq<T>, keep: T -> bool, f: T -> int)
    requires multiset(xs) == multiset(ys)
    ensures SumGains(xs, keep, f) == SumGains(ys, keep, f)
    decreases |xs|
  {
    if |xs| > 0 {
      var x := xs[0];
      assert x in multiset(ys);
      var j :| 0 <= j < |ys| && ys[j] == x;
      var rest := ys[..j] + ys[j + 1..];
      assert ys == ys[..j] + [x] + ys[j + 1..];
      assert xs == [x] + xs[1..];
      assert multiset(ys) == multiset(ys[..j]) + multiset{x} + multiset(ys[j + 1..]);
      assert multiset(xs) == multiset{x} + multiset(xs[1..]);
      assert multiset(rest) == multiset(ys[..j]) + multiset(ys[j + 1..]);
      assert multiset(xs[1..]) == multiset(xs) - multiset{x};
      assert multiset(rest) == multiset(ys) - multiset{x};
      assert multiset(xs[1..]) == multiset(rest);
      SumGainsPermutation(xs[1..], rest, keep, f);
      SumGainsAppend(ys[..j] + [x], ys[j + 1..], keep, f);
      SumGainsAppend(ys[..j], [x], keep, f);
      SumGainsAppend(ys[..j], ys[j + 1..], keep, f);
    } else {
      assert |ys| == 0;
    }
  }

  // ----- The CV page's instance -----

  /** `experiences.filter(e => isProfessional(e.category, e.title, e.company))`. */
  function FilterProfessional(es: seq<Record>): (ps: seq<Record>)
    ensures |ps| <= |es|
    ensures forall i :: 0 <= i < |ps| ==> Professional(ps[i])
    ensures forall e :: e in ps <==> e in es && Professional(e)
  {
    Filter(es, Professional)
  }

  function Max(a: int, b: int): int {
    if a >= b then a else b
  }

  /** The `.map` step: months from the start to the end (or to `now` when the end is
      absent or unparseable), clamped at zero; zero when the start does not parse. */
  function Span(e: Record, now: YM): (n: int)
    ensures n >= 0
  {
    var s := ParseDate(e.startDate, now);
    var end := ParseDate(e.endDate, now).GetOr(now);
    if s.None? then 0 else Max(0, DiffInMonths(s.value, end))
  }

  /** A record spans no time exactly when its start does not parse or its end (or `now`)
      is not after its start; otherwise it spans the signed month difference. */
  lemma SpanIff(e: Record, now: YM)
    ensures var s := ParseDate(e.startDate, now);
            var end := ParseDate(e.endDate, now).GetOr(now);
            (Span(e, now) == 0 <==> s.None? || DiffInMonths(s.value, end) <= 0)
            && (Span(e, now) != 0 ==> Span(e, now) == DiffInMonths(s.value, end))
  {
  }

  /** `Span` at a fixed `now`, as the function the `.map` step applies. */
  function Measure(now: YM): Record -> int {
    e => Span(e, now)
  }

  /** The total number of months of professional experience: never negative, and exactly
      the records' contributions added up, whatever the filter, map and reduce steps do. */
  function TotalMonths(es: seq<Record>, now: YM): (r: int)
    ensures r >= 0
    ensures r == SumGains(es, Professional, Measure(now))
  {
    var ns := Map(FilterProfessional(es), Measure(now));
    assert forall i :: 0 <= i < |ns| ==> ns[i] >= 0;
    FilterMapSum(es, Professional, Measure(now));
    Sum(ns)
  }

  /** What one record adds to the total: its span when it is professional, else nothing. */
  function Contribution(e: Record, now: YM): (n: int)
    ensures n >= 0
    ensures n == 0 <==> !Professional(e) || Span(e, now) == 0
  {
    Gain(e, Professional, Measure(now))
  }

  /** The total of a concatenation is the sum of the totals. */
  lemma TotalAppend(a: seq<Record>, b: seq<Record>, now: YM)
    ensures TotalMonths(a + b, now) == TotalMonths(a, now) + TotalMonths(b, now)
  {
    SumGainsAppend(a, b, Professional, Measure(now));
  }

  /** A non-professional record contributes nothing, and neither does one whose start date
      does not parse. */
  lemma ExcludedContributesNothing(e: Record, now: YM)
    requires !Professional(e) || ParseDate(e.startDate, now).None?
    ensures Contribution(e, now) == 0
  {
  }

  /** The sum of gains around one element: the part before it, its gain, the part after. */
  lemma SumGainsAround<T>(xs: seq<T>, i: nat, keep: T -> bool, f: T -> int)
    requires i < |xs|
    ensures SumGains(xs, keep, f)
            == SumGains(xs[..i], keep, f) + Gain(xs[i], keep, f) + SumGains(xs[i + 1..], keep, f)
  {
    var tail := [xs[i]] + xs[i + 1..];
    assert xs == xs[..i] + tail;
    assert tail[1..] == xs[i + 1..];
    SumGainsAppend(xs[..i], tail, keep, f);
  }

  /** Dropping an element whose gain is zero leaves the sum of gains unchanged. */
  lemma SumGainsDropZero<T>(xs: seq<T>, i: nat, keep: T -> bool, f: T -> int)
    requires i < |xs| && Gain(xs[i], keep, f) == 0
    ensures SumGains(xs[..i] + xs[i + 1..], keep, f) == SumGains(xs, keep, f)
  {
    SumGainsAround(xs, i, keep, f);
    SumGainsAppend(xs[..i], xs[i + 1..], keep, f);
  }

  /** Removing a record that contributes nothing leaves the total unchanged. */
  lemma RemoveZeroContribution(es: seq<Record>, i: nat, now: YM)
    requires i < |es|
    requires Contribution(es[i], now) == 0
    ensures TotalMonths(es[..i] + es[i + 1..], now) == TotalMonths(es, now)
  {
    SumGainsDropZero(es, i, Professional, Measure(now));
  }

  /** The total does not depend on the order of the records. */
  lemma TotalOrderIndependent(es: seq<Record>, fs: seq<Record>, now: YM)
    requires multiset(es) == multiset(fs)
    ensures TotalMonths(es, now) == TotalMonths(fs, now)
  {
    SumGainsPermutation(es, fs, Professional, Measure(now));
  }

  // ----- Display -----

  /** What the `useMemo` returns, with the month count it computes on the way. */
  datatype Summary = Summary(totalMonths: int, totalYears: real, pretty: string)

  /** The template of the text: `${y} ans ${m} mois`, or `${y} ans` when `m` is zero. */
  function YearsAndMonths(y: nat, m: nat): string {
    if m != 0 then NatToString(y) + " ans " + NatToString(m) + " mois" else NatToString(y) + " ans"
  }

  /** The text shown for a month count: its whole years and the remaining months. The text
      states the whole month count: it reads back as `months`. */
  function Pretty(months: nat): (r: string)
    ensures ReadPretty(r) == Some(months)
  {
    var y := months / 12;
    var m := months % 12;
    DivMod12(months);
    ReadYearsAndMonths(y, m);
    YearsAndMonths(y, m)
  }

  /** The `useMemo` at frontend/pages/cv.tsx:154-177, with `now` for the wall clock. */
  function Summarize(es: seq<Record>, now: YM): (r: Summary)
    ensures r.totalMonths >= 0
    ensures |es| == 0 ==> r == Summary(0, 0.0, "")
    ensures |es| > 0 ==> r.totalMonths == TotalMonths(es, now)
    ensures |es| > 0 ==> r.totalYears * 12.0 == r.totalMonths as real
    ensures |es| > 0 ==> ReadPretty(r.pretty) == Some(r.totalMonths)
  {
    if |es| == 0 then Summary(0, 0.0, "")
    else
      var months := TotalMonths(es, now);
      Summary(months, months as real / 12.0, Pretty(months))
  }

  /** Reads "N ans" or "N ans M mois" back into a month count. Only the texts `Pretty`
      writes are accepted: numerals without leading zeros, and a month count of 1 to 11. */
  function ReadPretty(t: string): Option<int> {
    var k := DigitRun(t);
    if !Numeral(t[..k]) then None else ReadUnits(DigitsValue(t[..k]), t[k..])
  }

  /** The part after the year count: " ans", or " ans " followed by "M mois". */
  function ReadUnits(y: nat, rest: string): Option<int> {
    if rest == " ans" then Some(12 * y)
    else if |rest| > 5 && rest[..5] == " ans " then
      var m := ReadMonths(rest[5..]);
      if m.Some? then Some(12 * y + m.value) else None
    else None
  }

  /** Reads "M mois" back into `M`, a remainder of 1 to 11 months. */
  function ReadMonths(t: string): Option<int> {
    var j := DigitRun(t);
    if Numeral(t[..j]) && 1 <= DigitsValue(t[..j]) <= 11 && t[j..] == " mois"
    then Some(DigitsValue(t[..j]))
    else None
  }

  /** The digit run ends at the first character that is not a digit. */
  lemma {:induction false} DigitRunStops(s: string, n: nat)
    requires n <= |s| && AllDigits(s[..n]) && (n < |s| ==> !IsDigit(s[n]))
    ensures DigitRun(s) == n
  {
    if n > 0 {
      assert s[0] == s[..n][0];
      assert s[1..][..n - 1] == s[..n][1..];
      DigitRunStops(s[1..], n - 1);
    }
  }

  /** A numeral followed by text that starts with a blank. */
  lemma ReadNumeral(v: nat, tail: string)
    requires |tail| > 0 && tail[0] == ' '
    ensures DigitRun(NatToString(v) + tail) == |NatToString(v)|
    ensures (NatToString(v) + tail)[..|NatToString(v)|] == NatToString(v)
    ensures (NatToString(v) + tail)[|NatToString(v)|..] == tail
  {
    var d := NatToString(v);
    var t := d + tail;
    assert t[..|d|] == d;
    assert t[|d|] == ' ';
    DigitRunStops(t, |d|);
    assert t[|d|..] == tail;
  }

  /** "N ans" reads back as `12 * N` months. */
  lemma ReadYears(y: nat)
    ensures ReadPretty(NatToString(y) + " ans") == Some(12 * y)
  {
    ReadNumeral(y, " ans");
  }

  /** "M mois" reads back as `M`. */
  lemma ReadMonthsOf(m: nat)
    requires 1 <= m <= 11
    ensures ReadMonths(NatToString(m) + " mois") == Some(m)
  {
    ReadNumeral(m, " mois");
  }

  /** " ans M mois" after the year count adds `M` months. */
  lemma ReadUnitsMonths(y: nat, m: nat)
    requires 1 <= m <= 11
    ensures ReadUnits(y, " ans " + NatToString(m) + " mois") == Some(12 * y + m)
  {
    var tail := " ans " + NatToString(m) + " mois";
    assert tail != " ans" by {
      assert |tail| > 4;
    }
    assert tail[..5] == " ans ";
    assert tail[5..] == NatToString(m) + " mois";
    ReadMonthsOf(m);
  }

  /** "N ans M mois" reads back as `12 * N + M` months. */
  lemma ReadYearsMonths(y: nat, m: nat)
    requires 1 <= m <= 11
    ensures ReadPretty(NatToString(y) + " ans " + NatToString(m) + " mois") == Some(12 * y + m)
  {
    var tail := " ans " + NatToString(m) + " mois";
    assert NatToString(y) + " ans " + NatToString(m) + " mois" == NatToString(y) + tail;
    ReadNumeral(y, tail);
    ReadUnitsMonths(y, m);
  }

  /** The template with a remainder below twelve reads back as its month count. */
  lemma ReadYearsAndMonths(y: nat, m: nat)
    requires m < 12
    ensures ReadPretty(YearsAndMonths(y, m)) == Some(12 * y + m)
  {
    if m != 0 {
      ReadYearsMonths(y, m);
    } else {
      ReadYears(y);
    }
  }

  lemma DivMod12(n: nat)
    ensures n == 12 * (n / 12) + n % 12
  {
  }

  /** `n` is `y` whole years and a remainder of `n - 12 * y` months. */
  lemma DivModSplit(n: nat, y: nat)
    requires 12 * y <= n < 12 * y + 12
    ensures n / 12 == y && n % 12 == n - 12 * y
  {
  }

  /** Text that reads as "M mois" is the rendering of `M`, and `M` is 1 to 11. */
  lemma ReadMonthsOnly(t: string, m: int)
    requires ReadMonths(t) == Some(m)
    ensures 1 <= m <= 11 && t == NatToString(m) + " mois"
  {
    var j := DigitRun(t);
    NatToStringOfValue(t[..j]);
    assert t == t[..j] + t[j..];
  }

  /** What may follow the year count `y` when the whole reads as `n` months: the rest of
      the template for `y` years and `n - 12 * y` months. */
  lemma ReadUnitsOnly(y: nat, rest: string, n: int)
    requires ReadUnits(y, rest) == Some(n)
    ensures 12 * y <= n < 12 * y + 12
    ensures NatToString(y) + rest == YearsAndMonths(y, n - 12 * y)
  {
    if rest != " ans" {
      var ms := rest[5..];
      ReadMonthsOnly(ms, n - 12 * y);
      assert rest == rest[..5] + ms;
    }
  }

  /** `Pretty` of a count `n` that is `y` whole years and a remainder. */
  lemma PrettyOfSplit(n: nat, y: nat)
    requires 12 * y <= n < 12 * y + 12
    ensures Pretty(n) == YearsAndMonths(y, n - 12 * y)
  {
    calc {
      Pretty(n);
      YearsAndMonths(n / 12, n % 12);
      { DivModSplit(n, y); }
      YearsAndMonths(y, n - 12 * y);
    }
  }

  /** A text that reads back starts with the rendering of its year count. */
  lemma ReadPrettySplit(t: string, n: int) returns (y: nat, rest: string)
    requires ReadPretty(t) == Some(n)
    ensures t == NatToString(y) + rest && ReadUnits(y, rest) == Some(n)
  {
    var k := DigitRun(t);
    y, rest := DigitsValue(t[..k]), t[k..];
    NatToStringOfValue(t[..k]);
    assert t == t[..k] + rest;
  }

  /** A year count followed by units that read as `n` months is `Pretty(n)`. */
  lemma UnitsText(y: nat, rest: string, n: int)
    requires ReadUnits(y, rest) == Some(n)
    ensures n >= 0 && NatToString(y) + rest == Pretty(n)
  {
    ReadUnitsOnly(y, rest, n);
    PrettyOfSplit(n, y);
  }

  /** A text that reads as `n` months is `Pretty(n)`. */
  lemma ReadPrettyOnly(t: string, n: int)
    requires ReadPretty(t) == Some(n)
    ensures n >= 0 && t == Pretty(n)
  {
    var y, rest := ReadPrettySplit(t, n);
    UnitsText(y, rest, n);
  }

  /** The reading is exact: a text reads as `n` months exactly when it is `Pretty(n)`. Since
      `Pretty` writes one text per month count, the text fixes the years and the months. */
  lemma ReadPrettyIff(t: string, n: int)
    ensures ReadPretty(t) == Some(n) <==> n >= 0 && t == Pretty(n)
  {
    if ReadPretty(t) == Some(n) {
      ReadPrettyOnly(t, n);
    }
  }

  predicate EndsWith(t: string, suffix: string) {
    |suffix| <= |t| && t[|t| - |suffix|..] == suffix
  }

  /** The text mentions months ("... M mois") exactly when the remainder is not zero. */
  lemma PrettyMentionsMonthsIff(months: nat)
    ensures EndsWith(Pretty(months), " mois") <==> months % 12 != 0
  {
    var ys := NatToString(months / 12);
    if months % 12 == 0 {
      var t := ys + " ans";
      assert Pretty(months) == t;
      assert t[|t| - 2] == 'n';
      assert |t| >= 5 ==> t[|t| - 5..][3] == t[|t| - 2];
    } else {
      var t := ys + " ans " + NatToString(months % 12) + " mois";
      assert Pretty(months) == t;
      assert t[|t| - 5..] == " mois";
    }
  }

  /** An empty list gives zero years and an empty text. */
  lemma SummarizeEmpty(now: YM)
    ensures Summarize([], now) == Summary(0, 0.0, "")
  {
  }

  lemma PrettyZero()
    ensures Pretty(0) == "0 ans"
  {
    assert NatToString(0) == "0";
  }

  /** A non-empty list whose total is zero renders as "0 ans", not as the empty text. */
  lemma SummarizeZeroTotal(es: seq<Record>, now: YM)
    requires |es| > 0 && TotalMonths(es, now) == 0
    ensures Summarize(es, now).pretty == "0 ans"
    ensures Summarize(es, now).totalYears == 0.0
  {
    SummaryText(es, now);
    PrettyZero();
  }

  lemma SummaryText(es: seq<Record>, now: YM)
    requires |es| > 0
    ensures Summarize(es, now).pretty == Pretty(TotalMonths(es, now))
  {
  }

  /** For a non-empty list, the years and the text shown both state the professional total:
      `totalYears` is that many months in years, and the text gives its whole years and its
      remainder of months, the months left out when the remainder is zero. */
  lemma SummarizeYearsAndMonths(es: seq<Record>, now: YM)
    requires |es| > 0
    ensures Summarize(es, now).totalYears * 12.0 == TotalMonths(es, now) as real
    ensures ReadPretty(Summarize(es, now).pretty) == Some(TotalMonths(es, now))
    ensures var t, p := TotalMonths(es, now), Summarize(es, now).pretty;
            t >= 0 &&
            (t % 12 == 0 ==> p == NatToString(t / 12) + " ans") &&
            (t % 12 != 0 ==> p == NatToString(t / 12) + " ans " + NatToString(t % 12) + " mois")
  {
    ReadPrettyIff(Summarize(es, now).pretty, TotalMonths(es, now));
  }

  /** A professional record dated by two bare years counts twelve months per year between
      them ("2018" to "2021" is 36 months). */
  lemma SpanOfYears(e: Record, sy: string, ey: string, now: YM)
    requires |sy| == 4 && AllDigits(sy) && |ey| == 4 && AllDigits(ey)
    requires e.startDate == Some(sy) && e.endDate == Some(ey)
    requires DigitsValue(sy) <= DigitsValue(ey)
    ensures Span(e, now) == 12 * (DigitsValue(ey) - DigitsValue(sy))
  {
    ParseYearOnly(sy, now);
    ParseYearOnly(ey, now);
  }
}
