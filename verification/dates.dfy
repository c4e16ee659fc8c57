/** The CV page's date helpers: `parseDateToYM` (frontend/pages/cv.tsx:40-84) and
    `diffInMonths` (frontend/pages/cv.tsx:86-88). The wall clock the parser reads for
    "present" is the parameter `now`. */
module Dates {

  import opened Wrappers
  import opened Text
  import opened Numerals

  /** A calendar month; `month` is zero-based, as `Date.prototype.getMonth` returns it. */
  datatype YM = YM(year: int, month: int) {
    predicate Valid() {
      0 <= month < 12
    }
  }

  /** The words the parser reads as "the current month" (matched case-insensitively). */
  const PresentMarkers: set<string> := {"present", "now", "actuel", "aujourd'hui"}

  /** The French/English month lexicon, including the two accented keys `MONTHS` lists. */
  const Months: map<string, int> := map[
    "jan" := 0, "january" := 0, "janvier" := 0,
    "feb" := 1, "february" := 1, "fev" := 1, "fevr" := 1, "fevrier" := 1,
    "mar" := 2, "march" := 2, "mars" := 2,
    "apr" := 3, "april" := 3, "avril" := 3,
    "may" := 4, "mai" := 4,
    "jun" := 5, "june" := 5, "juin" := 5,
    "jul" := 6, "july" := 6, "juillet" := 6,
    "aug" := 7, "august" := 7, "aout" := 7, "ao\U{00FB}t" := 7,
    "sep" := 8, "sept" := 8, "september" := 8, "septembre" := 8,
    "oct" := 9, "october" := 9, "octobre" := 9,
    "nov" := 10, "november" := 10, "novembre" := 10,
    "dec" := 11, "december" := 11, "decembre" := 11, "d\U{00E9}cembre" := 11
  ]

  lemma MonthsInRange()
    ensures forall w :: w in Months ==> 0 <= Months[w] < 12
  {
  }

  predicate IsLetter(c: char) {
    'a' <= c <= 'z'
  }

  predicate AllLetters(s: string) {
    forall i :: 0 <= i < |s| ==> IsLetter(s[i])
  }

  /** The longest prefix of `[a-z]` letters. */
  function LetterRun(s: string): (k: nat)
    ensures k <= |s| && AllLetters(s[..k])
    ensures k < |s| ==> !IsLetter(s[k])
  {
    if |s| > 0 && IsLetter(s[0]) then
      var k := 1 + LetterRun(s[1..]);
      assert s[..k] == [s[0]] + s[1..][..k - 1];
      k
    else 0
  }

  /** The longest prefix of white space. */
  function SpaceRun(s: string): (k: nat)
    ensures k <= |s| && AllSpace(s[..k])
    ensures k < |s| ==> !IsSpace(s[k])
  {
    if |s| > 0 && IsSpace(s[0]) then
      var k := 1 + SpaceRun(s[1..]);
      assert s[..k] == [s[0]] + s[1..][..k - 1];
      k
    else 0
  }

  /** `s.match(/^([a-z]+)\s+(\d{4})$/)`: the month word and the four year digits. The
      letter and space runs are maximal because each is followed by a character the
      next part of the pattern must see, so the match is unique. */
  function MatchMonthYear(s: string): (r: Option<(string, string)>)
    ensures r.Some? ==> |r.value.0| > 0 && AllLetters(r.value.0)
    ensures r.Some? ==> |r.value.1| == 4 && AllDigits(r.value.1)
  {
    var k := LetterRun(s);
    var rest := s[k..];
    var j := SpaceRun(rest);
    if k > 0 && j > 0 && |rest| - j == 4 && AllDigits(rest[j..]) then Some((s[..k], rest[j..]))
    else None
  }

  /** The cleaned form the parser matches against: lower-case, accents stripped, white
      space collapsed, then trimmed. Collapsing before trimming gives the same text as
      `norm`, which trims first. */
  function Canon(raw: string): (r: string)
    ensures r == Norm(Some(raw))
  {
    TrimCollapseCommute(StripAccents(Lower(raw)));
    Trim(Collapse(StripAccents(Lower(raw))))
  }

  /** The dated forms, tried on the cleaned string: `"<month> <yyyy>"` with a lexicon month,
      then a bare `"yyyy"` (January). A month word outside the lexicon falls through to
      the bare-year test, which a string with letters never passes. So the cleaned text
      gives a month exactly when it is a lexicon word, white space and four digits, or four
      digits alone; any other text ("2020-05-01", "05/2020", "mai") gives null. */
  function ParseCleaned(s: string): (r: Option<YM>)
    ensures r.Some? ==> r.value.Valid()
    ensures r.Some? <==> (exists k, j :: MonthYearAt(s, k, j)) || (|s| == 4 && AllDigits(s))
    ensures forall k, j :: MonthYearAt(s, k, j) ==> r == Some(YM(DigitsValue(s[j..]), Months[s[..k]]))
    ensures |s| == 4 && AllDigits(s) ==> r == Some(YM(DigitsValue(s), 0))
  {
    var m := MatchMonthYear(s);
    MonthYearAtParsesAll(s);
    if m.Some? && m.value.0 in Months then
      MonthsInRange();
      ParsedMonthYearSplits(s);
      Some(YM(DigitsValue(m.value.1), Months[m.value.0]))
    else if |s| == 4 && AllDigits(s) then
      Some(YM(DigitsValue(s), 0))
    else
      None
  }

  /** `parseDateToYM(d)`, with `now` standing for `new Date()`. */
  function ParseDate(d: Option<string>, now: YM): (r: Option<YM>)
    ensures now.Valid() && r.Some? ==> r.value.Valid()
  {
    if d.None? || d.value == "" then None
    else
      var raw := Trim(d.value);
      if Lower(raw) in PresentMarkers then Some(now)
      else ParseCleaned(Canon(raw))
  }

  /** `diffInMonths(a, b)`: how many months `b` lies after `a` (negative when before). On
      valid months the result counts calendar steps: stepping forward that many months
      from `a` reaches `b`, and a negative result steps from `b` back to `a`. */
  function DiffInMonths(a: YM, b: YM): (r: int)
    ensures a.Valid() && b.Valid() && r >= 0 ==> Advance(a, r) == b
    ensures a.Valid() && b.Valid() && r < 0 ==> Advance(b, -r) == a
  {
    var r := (b.year - a.year) * 12 + (b.month - a.month);
    if a.Valid() && b.Valid() then
      if r >= 0 then AdvanceReaches(a, b, r); r
      else AdvanceReaches(b, a, -r); r
    else r
  }

  /** The calendar month after `a`. */
  function NextMonth(a: YM): YM {
    if a.month >= 11 then YM(a.year + 1, 0) else YM(a.year, a.month + 1)
  }

  /** The month `n` calendar steps after `a`. */
  function Advance(a: YM, n: nat): YM {
    if n == 0 then a else NextMonth(Advance(a, n - 1))
  }

  // ----- The parser -----

  lemma ParseAbsent(now: YM)
    ensures ParseDate(None, now) == None
    ensures ParseDate(Some(""), now) == None
  {
  }

  /** A present-tense marker in any letter case, with any surrounding white space, is the
      current month. */
  lemma ParsePresent(pre: string, w: string, post: string, now: YM)
    requires AllSpace(pre) && AllSpace(post)
    requires Lower(w) in PresentMarkers
    ensures ParseDate(Some(pre + w + post), now) == Some(now)
  {
    var lw := Lower(w);
    assert |lw| > 0 && IsLetter(lw[0]) && IsLetter(lw[|lw| - 1]);
    TrimPadded(pre, w, post);
  }

  /** `Canon` leaves a string that is already canonical and folded unchanged. */
  lemma CanonOfCanonical(t: string)
    requires Canonical(t) && AllFolded(t)
    ensures Canon(t) == t
    ensures Collapse(t) == t && Trim(t) == t
  {
    assert Lower(t) == t;
    StripAccentsOfFolded(t);
    CollapseOfSparse(t);
    TrimOfCanonical(t);
  }

  predicate IsMonthYearText(w: string, ds: string) {
    |w| > 0 && AllLetters(w) && |ds| == 4 && AllDigits(ds)
  }

  /** `<word> <yyyy>` in lower-case letters is already clean. */
  lemma MonthYearClean(w: string, ds: string)
    requires IsMonthYearText(w, ds)
    ensures Canonical(w + " " + ds) && AllFolded(w + " " + ds)
    ensures Lower(w + " " + ds) == w + " " + ds
  {
    var x := w + " " + ds;
    forall i | 0 <= i < |x|
      ensures Folded(x[i]) && LowerChar(x[i]) == x[i]
      ensures IsSpace(x[i]) ==> x[i] == ' ' && i + 1 < |x| && !IsSpace(x[i + 1])
    {
      if i < |w| {
        assert x[i] == w[i];
      } else if i == |w| {
        assert x[i] == ' ' && x[i + 1] == ds[0];
      } else {
        assert x[i] == ds[i - |w| - 1];
      }
    }
    assert x[0] == w[0];
  }

  /** The letter run ends at the first character that is not a letter. */
  lemma {:induction false} LetterRunStops(s: string, n: nat)
    requires n < |s| && AllLetters(s[..n]) && !IsLetter(s[n])
    ensures LetterRun(s) == n
  {
    if n > 0 {
      assert s[0] == s[..n][0];
      assert s[1..][..n - 1] == s[..n][1..];
      LetterRunStops(s[1..], n - 1);
    }
  }

  /** `<word> <yyyy>` matches the month-year pattern with exactly those two groups. */
  lemma MonthYearMatch(w: string, ds: string)
    requires IsMonthYearText(w, ds)
    ensures MatchMonthYear(w + " " + ds) == Some((w, ds))
  {
    var x := w + " " + ds;
    var k := LetterRun(x);
    assert x[..|w|] == w;
    LetterRunStops(x, |w|);
    assert x[..k] == w;
    var rest := x[k..];
    assert rest == " " + ds;
    assert rest[1..] == ds;
    assert !IsSpace(ds[0]);
    assert SpaceRun(rest[1..]) == 0;
    assert SpaceRun(rest) == 1;
  }

  /** On input that is already clean and ends in a digit, the parser goes straight to the
      dated forms. */
  lemma ParseOfClean(x: string, now: YM)
    requires Canonical(x) && AllFolded(x)
    requires |x| > 0 && IsDigit(x[|x| - 1])
    ensures ParseDate(Some(x), now) == ParseCleaned(x)
  {
    CanonOfCanonical(x);
    FoldedIsLower(x);
    EndsInDigitNotMarker(x);
  }

  lemma FoldedIsLower(x: string)
    requires AllFolded(x)
    ensures Lower(x) == x
  {
  }

  /** Every "present" marker ends in a letter. */
  lemma EndsInDigitNotMarker(x: string)
    requires |x| > 0 && IsDigit(x[|x| - 1])
    ensures x !in PresentMarkers
  {
  }

  /** `"<Month> <yyyy>"` gives that year and the month's index when the word, lower-cased
      and with its accents stripped, is in the lexicon: "Mars", "MARCH" and "Février" all
      name a month. */
  lemma ParseMonthYear(word: string, ds: string, now: YM)
    requires |word| > 0
    requires forall i :: 0 <= i < |word| ==> !IsSpace(word[i]) && !IsCombining(word[i])
    requires StripAccents(Lower(word)) in Months && AllLetters(StripAccents(Lower(word)))
    requires |ds| == 4 && AllDigits(ds)
    ensures ParseDate(Some(word + " " + ds), now)
         == Some(YM(DigitsValue(ds), Months[StripAccents(Lower(word))]))
  {
    var w := StripAccents(Lower(word));
    CanonMonthYear(word, ds);
    ParseCleanedMonthYear(w, ds);
  }

  /** `"<word> <yyyy>"` cleans to the folded word, a blank and the year. */
  lemma CanonMonthYear(word: string, ds: string)
    requires |word| > 0
    requires forall i :: 0 <= i < |word| ==> !IsSpace(word[i]) && !IsCombining(word[i])
    requires AllLetters(StripAccents(Lower(word)))
    requires |ds| == 4 && AllDigits(ds)
    ensures Trim(word + " " + ds) == word + " " + ds
    ensures Lower(word + " " + ds) !in PresentMarkers
    ensures Canon(word + " " + ds) == StripAccents(Lower(word)) + " " + ds
    ensures IsMonthYearText(StripAccents(Lower(word)), ds)
  {
    var w := StripAccents(Lower(word));
    RawMonthYear(word, ds);
    FoldMonthYear(word, ds);
    MonthYearClean(w, ds);
    CanonOfCanonical(w + " " + ds);
  }

  /** `"<word> <yyyy>"` needs no trimming and is not a present-tense marker. */
  lemma RawMonthYear(word: string, ds: string)
    requires |word| > 0 && !IsSpace(word[0])
    requires |ds| == 4 && AllDigits(ds)
    ensures Trim(word + " " + ds) == word + " " + ds
    ensures Lower(word + " " + ds) !in PresentMarkers
  {
    var raw := word + " " + ds;
    assert raw[0] == word[0] && raw[|raw| - 1] == ds[3];
    assert TrimStart(raw) == raw;
    assert TrimEnd(raw) == raw;
    assert IsDigit(Lower(raw)[|raw| - 1]);
  }

  /** Lower-casing and accent stripping act on the month word alone. */
  lemma FoldMonthYear(word: string, ds: string)
    requires forall i :: 0 <= i < |word| ==> !IsSpace(word[i]) && !IsCombining(word[i])
    requires |ds| == 4 && AllDigits(ds)
    ensures |StripAccents(Lower(word))| == |word|
    ensures StripAccents(Lower(word + " " + ds)) == StripAccents(Lower(word)) + " " + ds
  {
    var low := Lower(word + " " + ds);
    StripAccentsPointwise(Lower(word));
    assert forall i :: 0 <= i < |low| ==> !IsCombining(low[i]);
    StripAccentsPointwise(low);
  }

  lemma ParseCleanedMonthYear(w: string, ds: string)
    requires IsMonthYearText(w, ds)
    ensures ParseCleaned(w + " " + ds) == if w in Months then Some(YM(DigitsValue(ds), Months[w])) else None
  {
    MonthYearMatch(w, ds);
    assert |w + " " + ds| != 4;
  }

  /** A word outside the lexicon makes `"<word> <yyyy>"` unparseable: the parser does not
      fall back to the year. */
  lemma ParseUnknownMonth(w: string, ds: string, now: YM)
    requires |w| > 0 && AllLetters(w) && w !in Months
    requires |ds| == 4 && AllDigits(ds)
    ensures ParseDate(Some(w + " " + ds), now) == None
  {
    MonthYearClean(w, ds);
    ParseOfClean(w + " " + ds, now);
    ParseCleanedMonthYear(w, ds);
  }

  /** `s` splits at `k` and `j` into a lexicon word, white space and four digits. */
  predicate MonthYearAt(s: string, k: int, j: int) {
    0 < k < j && |s| == j + 4 && AllLetters(s[..k]) && s[..k] in Months
    && AllSpace(s[k..j]) && AllDigits(s[j..])
  }

  /** The white-space run ends at the first character that is not white space. */
  lemma {:induction false} SpaceRunStops(s: string, n: nat)
    requires n < |s| && AllSpace(s[..n]) && !IsSpace(s[n])
    ensures SpaceRun(s) == n
  {
    if n > 0 {
      assert s[0] == s[..n][0];
      assert s[1..][..n - 1] == s[..n][1..];
      SpaceRunStops(s[1..], n - 1);
    }
  }

  /** Every split into a lexicon word, white space and four digits is the one the pattern
      captures. */
  lemma MonthYearAtParsesAll(s: string)
    ensures forall k, j :: MonthYearAt(s, k, j) ==> MatchMonthYear(s) == Some((s[..k], s[j..]))
  {
    forall k, j | MonthYearAt(s, k, j)
      ensures MatchMonthYear(s) == Some((s[..k], s[j..]))
    {
      MonthYearAtParses(s, k, j);
    }
  }

  lemma ParsedMonthYearSplits(s: string)
    requires MatchMonthYear(s).Some? && MatchMonthYear(s).value.0 in Months
    ensures exists k, j :: MonthYearAt(s, k, j)
  {
    var k := LetterRun(s);
    var rest := s[k..];
    var n := SpaceRun(rest);
    var j := k + n;
    assert s[k..j] == rest[..n];
    assert s[j..] == rest[n..];
    assert MonthYearAt(s, k, j);
  }

  lemma MonthYearAtParses(s: string, k: int, j: int)
    requires MonthYearAt(s, k, j)
    ensures MatchMonthYear(s) == Some((s[..k], s[j..]))
  {
    assert IsSpace(s[k..j][0]);
    LetterRunStops(s, k);
    var rest := s[k..];
    assert rest[..j - k] == s[k..j];
    assert rest[j - k] == s[j..][0];
    SpaceRunStops(rest, j - k);
    assert rest[j - k..] == s[j..];
  }

  /** An ISO date is not one of the forms the parser reads. */
  lemma IsoDateUnparsed(now: YM)
    ensures ParseDate(Some("2020-05-01"), now) == None
  {
    var x := "2020-05-01";
    assert forall i :: 0 <= i < |x| ==> '!' <= x[i] <= '@';
    assert !AllDigits(x) by {
      assert !IsDigit(x[4]);
    }
    DigitLedUnparsed(x, now);
  }

  /** Nor is a numeric month and year. */
  lemma NumericMonthUnparsed(now: YM)
    ensures ParseDate(Some("05/2020"), now) == None
  {
    var x := "05/2020";
    assert forall i :: 0 <= i < |x| ==> '!' <= x[i] <= '@';
    DigitLedUnparsed(x, now);
  }

  /** Text of digits and ASCII punctuation that starts with a digit and ends with one, but
      is not four digits alone, gives null. */
  lemma DigitLedUnparsed(x: string, now: YM)
    requires |x| > 0 && IsDigit(x[0]) && IsDigit(x[|x| - 1])
    requires forall i :: 0 <= i < |x| ==> '!' <= x[i] <= '@'
    requires !(|x| == 4 && AllDigits(x))
    ensures ParseDate(Some(x), now) == None
  {
    PunctuationIsClean(x);
    ParseOfClean(x, now);
    NoMonthYearWithoutLetters(x);
  }

  lemma PunctuationIsClean(x: string)
    requires forall i :: 0 <= i < |x| ==> '!' <= x[i] <= '@'
    ensures Canonical(x) && AllFolded(x)
  {
    assert forall i :: 0 <= i < |x| ==> !IsSpace(x[i]) && Folded(x[i]);
  }

  lemma NoMonthYearWithoutLetters(s: string)
    requires |s| > 0 && !IsLetter(s[0])
    ensures forall k, j :: !MonthYearAt(s, k, j)
  {
    forall k | 0 < k <= |s|
      ensures !AllLetters(s[..k])
    {
      assert s[..k][0] == s[0];
    }
  }

  /** A bare `yyyy` gives January of that year. */
  lemma ParseYearOnly(ds: string, now: YM)
    requires |ds| == 4 && AllDigits(ds)
    ensures ParseDate(Some(ds), now) == Some(YM(DigitsValue(ds), 0))
  {
    DigitsAreClean(ds);
    ParseOfClean(ds, now);
    assert LetterRun(ds) == 0;
  }

  lemma DigitsAreClean(ds: string)
    requires AllDigits(ds)
    ensures Canonical(ds) && AllFolded(ds)
  {
    assert forall i :: 0 <= i < |ds| ==> IsDigit(ds[i]);
  }

  // ----- Month arithmetic -----

  lemma DiffSelf(a: YM)
    ensures DiffInMonths(a, a) == 0
  {
  }

  lemma DiffAntisymmetric(a: YM, b: YM)
    ensures DiffInMonths(a, b) == -DiffInMonths(b, a)
  {
  }

  lemma DiffChain(a: YM, b: YM, c: YM)
    ensures DiffInMonths(a, b) + DiffInMonths(b, c) == DiffInMonths(a, c)
  {
  }

  /** Stepping `n` calendar months forward from a valid month moves its index
      `12 * year + month` by `n`. */
  lemma {:induction false} AdvanceSteps(a: YM, n: nat)
    requires a.Valid()
    ensures Advance(a, n).Valid()
    ensures (Advance(a, n).year - a.year) * 12 + (Advance(a, n).month - a.month) == n
  {
    if n > 0 {
      AdvanceSteps(a, n - 1);
    }
  }

  /** A valid month `d >= 0` months after `a` is reached in `d` steps. */
  lemma AdvanceReaches(a: YM, b: YM, d: nat)
    requires a.Valid() && b.Valid()
    requires d == (b.year - a.year) * 12 + (b.month - a.month)
    ensures Advance(a, d) == b
  {
    AdvanceSteps(a, d);
  }

  /** `diffInMonths` counts calendar steps: `n` steps after `a` lie `n` months after it. */
  lemma DiffCountsSteps(a: YM, n: nat)
    requires a.Valid()
    ensures Advance(a, n).Valid()
    ensures DiffInMonths(a, Advance(a, n)) == n
  {
    AdvanceSteps(a, n);
  }

  // ----- Worked example -----

  lemma SpanExamples()
    ensures DiffInMonths(YM(2019, 0), YM(2021, 3)) == 27
    ensures DiffInMonths(YM(2021, 3), YM(2019, 0)) == -27
  {
  }
}
