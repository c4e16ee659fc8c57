/** Two keyword classifiers of the CV page: the width of a language's level bar
    (frontend/pages/cv.tsx:412-417) and the icon of an interest
    (frontend/pages/cv.tsx:19-27). Both are if-chains of `includes` tests on lower-cased
    text; each is shown equal to a first-match rule table. */
module Widgets {

  import opened Wrappers
  import opened Text

  /** One row of a rule table: the result when the text contains one of the keywords. */
  datatype Rule<T> = Rule(keys: seq<string>, out: T)

  /** The text contains at least one of the keywords. */
  predicate AnyIn(t: string, keys: seq<string>) {
    |keys| > 0 && (Contains(t, keys[0]) || AnyIn(t, keys[1..]))
  }

  /** Rule `i` is the first rule whose keywords hit. */
  predicate FirstHit<T>(rules: seq<Rule<T>>, t: string, i: int) {
    0 <= i < |rules| && AnyIn(t, rules[i].keys)
    && forall j :: 0 <= j < i ==> !AnyIn(t, rules[j].keys)
  }

  /** The result of the first rule whose keywords hit, or the default: the default exactly
      when no rule hits, and otherwise the result of the rule that hits before any other. */
  function FirstMatch<T>(rules: seq<Rule<T>>, t: string, default: T): (r: T)
    ensures (forall j :: 0 <= j < |rules| ==> !AnyIn(t, rules[j].keys)) ==> r == default
    ensures (exists j :: 0 <= j < |rules| && AnyIn(t, rules[j].keys)) ==>
              exists i :: FirstHit(rules, t, i) && r == rules[i].out
    decreases |rules|
  {
    if |rules| == 0 then default
    else if AnyIn(t, rules[0].keys) then
      assert FirstHit(rules, t, 0);
      rules[0].out
    else
      ShiftHits(rules, t);
      FirstMatch(rules[1..], t, default)
  }

  /** Without a hit on rule 0, rule `j + 1` of the table is rule `j` of the rest. */
  lemma ShiftHits<T>(rules: seq<Rule<T>>, t: string)
    requires |rules| > 0 && !AnyIn(t, rules[0].keys)
    ensures forall j :: 0 <= j < |rules| - 1 ==> rules[1..][j] == rules[j + 1]
    ensures forall i :: FirstHit(rules[1..], t, i) ==> FirstHit(rules, t, i + 1)
  {
    forall i | FirstHit(rules[1..], t, i)
      ensures FirstHit(rules, t, i + 1)
    {
      assert forall j :: 1 <= j < i + 1 ==> rules[j] == rules[1..][j - 1];
    }
  }

  /** `FirstMatch` picks rule `i` when rule `i` hits and no earlier rule does. */
  lemma FirstMatchPicks<T>(rules: seq<Rule<T>>, t: string, default: T, i: int)
    requires 0 <= i < |rules|
    requires AnyIn(t, rules[i].keys)
    requires forall j :: 0 <= j < i ==> !AnyIn(t, rules[j].keys)
    ensures FirstMatch(rules, t, default) == rules[i].out
  {
    assert FirstHit(rules, t, i);
    forall k | FirstHit(rules, t, k)
      ensures k == i
    {
      assert AnyIn(t, rules[k].keys);
    }
  }

  lemma AnyInOne(t: string, a: string)
    ensures AnyIn(t, [a]) == Contains(t, a)
  {
    assert [a][1..] == [];
  }

  lemma AnyInTwo(t: string, a: string, b: string)
    ensures AnyIn(t, [a, b]) == (Contains(t, a) || Contains(t, b))
  {
    assert [a, b][1..] == [b];
    AnyInOne(t, b);
  }

  // ----- Language level bar -----

  /** `(l.level || '').toLowerCase()` followed by the chain of `includes` tests. */
  function LanguageWidth(level: Option<string>): (w: int)
    ensures w == 100 || w == 60 || w == 40
  {
    var v := Lower(level.GetOr(""));
    if Contains(v, "native") then 100
    else if Contains(v, "fluent") || Contains(v, "courant") then 100
    else if Contains(v, "inter") then 60
    else 40
  }

  const WidthRules: seq<Rule<int>> := [
    Rule(["native"], 100), Rule(["fluent", "courant"], 100), Rule(["inter"], 60)
  ]

  /** The bar width is the first-match reading of the width table, 40 by default. */
  lemma LanguageWidthIsTable(level: Option<string>)
    ensures LanguageWidth(level) == FirstMatch(WidthRules, Lower(level.GetOr("")), 40)
  {
    var v := Lower(level.GetOr(""));
    AnyInOne(v, "native");
    AnyInTwo(v, "fluent", "courant");
    AnyInOne(v, "inter");
    assert WidthRules[1..][1..][1..] == [];
    assert FirstMatch(WidthRules[1..][1..], v, 40) == if Contains(v, "inter") then 60 else 40;
    assert FirstMatch(WidthRules[1..], v, 40)
        == if Contains(v, "fluent") || Contains(v, "courant") then 100 else FirstMatch(WidthRules[1..][1..], v, 40);
  }

  /** A full bar exactly for a native or fluent level; 60 exactly for an intermediate one. */
  lemma LanguageWidthCases(level: Option<string>)
    ensures var v := Lower(level.GetOr(""));
            LanguageWidth(level) == 100 <==> Contains(v, "native") || Contains(v, "fluent") || Contains(v, "courant")
    ensures var v := Lower(level.GetOr(""));
            LanguageWidth(level) == 60 <==> !Contains(v, "native") && !Contains(v, "fluent") && !Contains(v, "courant") && Contains(v, "inter")
  {
  }

  /** An absent level gets the shortest bar. */
  lemma LanguageWidthAbsent()
    ensures LanguageWidth(None) == 40
    ensures LanguageWidth(Some("")) == 40
  {
    assert Lower("") == "";
    EmptyContainsNothing("native");
    EmptyContainsNothing("fluent");
    EmptyContainsNothing("courant");
    EmptyContainsNothing("inter");
  }

  // ----- Interest icon -----

  datatype Icon = Music | Camera | Gamepad | Utensils | Microchip | Star

  const IconRules: seq<Rule<Icon>> := [
    Rule(["musique", "music"], Music), Rule(["photo"], Camera), Rule(["jeu", "game"], Gamepad),
    Rule(["cuisine", "cook"], Utensils), Rule(["tech"], Microchip)
  ]

  /** `iconForInterest(title)`: the first-match reading of the icon table on the lower-cased
      title, the star by default. */
  function IconForInterest(title: string): (r: Icon)
    ensures r == FirstMatch(IconRules, Lower(title), Star)
  {
    var t := Lower(title);
    AnyInTwo(t, "musique", "music");
    AnyInOne(t, "photo");
    AnyInTwo(t, "jeu", "game");
    AnyInTwo(t, "cuisine", "cook");
    AnyInOne(t, "tech");
    var r4 := IconRules[4..];
    var r3 := IconRules[3..];
    var r2 := IconRules[2..];
    var r1 := IconRules[1..];
    assert r4[1..] == [] && r3[1..] == r4 && r2[1..] == r3 && r1[1..] == r2 && IconRules[1..] == r1;
    assert FirstMatch(r4, t, Star) == if Contains(t, "tech") then Microchip else Star;
    assert FirstMatch(r3, t, Star)
        == if Contains(t, "cuisine") || Contains(t, "cook") then Utensils else FirstMatch(r4, t, Star);
    assert FirstMatch(r2, t, Star)
        == if Contains(t, "jeu") || Contains(t, "game") then Gamepad else FirstMatch(r3, t, Star);
    assert FirstMatch(r1, t, Star) == if Contains(t, "photo") then Camera else FirstMatch(r2, t, Star);
    if Contains(t, "musique") || Contains(t, "music") then Music
    else if Contains(t, "photo") then Camera
    else if Contains(t, "jeu") || Contains(t, "game") then Gamepad
    else if Contains(t, "cuisine") || Contains(t, "cook") then Utensils
    else if Contains(t, "tech") then Microchip
    else Star
  }

  /** The star is shown exactly when no keyword of any row occurs in the title. */
  lemma StarIffNoKeyword(title: string)
    ensures IconForInterest(title) == Star
        <==> forall j :: 0 <= j < |IconRules| ==> !AnyIn(Lower(title), IconRules[j].keys)
  {
    assert forall i :: 0 <= i < |IconRules| ==> IconRules[i].out != Star;
  }
}
