/** `groupedSkills` (frontend/pages/cv.tsx:213-221): the skills grouped by category, with
    `'Autres'` for a skill without one. Groups are kept as a list of (category, names)
    pairs in the order their categories first appear. */
module Skills {

  import opened Wrappers

  datatype Skill = Skill(name: string, category: Option<string>)

  /** `s.category || 'Autres'`: an absent or empty category falls back to "Autres". */
  function CategoryKey(s: Skill): string {
    if s.category.None? || s.category.value == "" then "Autres" else s.category.value
  }

  type Groups = seq<(string, seq<string>)>

  /** The names filed under category `c` (none when there is no such group). */
  function Find(g: Groups, c: string): seq<string> {
    if |g| == 0 then [] else if g[0].0 == c then g[0].1 else Find(g[1..], c)
  }

  predicate HasKey(g: Groups, c: string) {
    exists i :: 0 <= i < |g| && g[i].0 == c
  }

  predicate DistinctKeys(g: Groups) {
    forall i, j :: 0 <= i < j < |g| ==> g[i].0 != g[j].0
  }

  predicate NonEmptyGroups(g: Groups) {
    forall i :: 0 <= i < |g| ==> |g[i].1| > 0
  }

  /** How many names the groups hold together. */
  function Count(g: Groups): nat {
    if |g| == 0 then 0 else |g[0].1| + Count(g[1..])
  }

  /** `if (!g[c]) g[c] = []; g[c].push(name)` on an object without inherited members. */
  function Push(g: Groups, c: string, name: string): (r: Groups)
    ensures Find(r, c) == Find(g, c) + [name]
    ensures forall d :: d != c ==> Find(r, d) == Find(g, d)
    ensures Count(r) == Count(g) + 1
    ensures DistinctKeys(g) ==> DistinctKeys(r)
    ensures NonEmptyGroups(g) ==> NonEmptyGroups(r)
    ensures forall d :: HasKey(r, d) <==> HasKey(g, d) || d == c
  {
    if |g| == 0 then [(c, [name])]
    else if g[0].0 == c then
      var r := [(c, g[0].1 + [name])] + g[1..];
      assert g == [g[0]] + g[1..];
      ConsFacts(g[0], g[1..]);
      ConsFacts((c, g[0].1 + [name]), g[1..]);
      HasKeyCons(g[0], g[1..]);
      HasKeyCons((c, g[0].1 + [name]), g[1..]);
      DistinctCons(g[0], g[1..]);
      DistinctCons((c, g[0].1 + [name]), g[1..]);
      r
    else
      var rest := Push(g[1..], c, name);
      var r := [g[0]] + rest;
      assert g == [g[0]] + g[1..];
      ConsFacts(g[0], g[1..]);
      ConsFacts(g[0], rest);
      HasKeyCons(g[0], g[1..]);
      HasKeyCons(g[0], rest);
      DistinctCons(g[0], g[1..]);
      DistinctCons(g[0], rest);
      r
  }

  /** `Find`, `Count` and `NonEmptyGroups` on a group list with a first group. */
  lemma ConsFacts(x: (string, seq<string>), g: Groups)
    ensures forall d :: Find([x] + g, d) == if x.0 == d then x.1 else Find(g, d)
    ensures Count([x] + g) == |x.1| + Count(g)
    ensures NonEmptyGroups([x] + g) <==> |x.1| > 0 && NonEmptyGroups(g)
  {
    var r := [x] + g;
    assert r[0] == x && r[1..] == g;
    if |x.1| > 0 && NonEmptyGroups(g) {
      forall i | 0 <= i < |r|
        ensures |r[i].1| > 0
      {
        if i > 0 {
          assert r[i] == g[i - 1];
        }
      }
    }
    if NonEmptyGroups(r) {
      forall i | 0 <= i < |g|
        ensures |g[i].1| > 0
      {
        assert g[i] == r[i + 1];
      }
    }
  }

  /** A key is in a group list with a first group exactly when it is that group's key or a
      key of the others. */
  lemma HasKeyCons(x: (string, seq<string>), g: Groups)
    ensures forall d :: HasKey([x] + g, d) <==> x.0 == d || HasKey(g, d)
  {
    forall d | HasKey([x] + g, d) && x.0 != d
      ensures HasKey(g, d)
    {
      var i :| 0 <= i < |[x] + g| && ([x] + g)[i].0 == d;
      assert g[i - 1].0 == d;
    }
    assert ([x] + g)[0].0 == x.0;
    forall d | HasKey(g, d)
      ensures HasKey([x] + g, d)
    {
      var i :| 0 <= i < |g| && g[i].0 == d;
      assert ([x] + g)[i + 1].0 == d;
    }
  }

  /** The keys of a group list with a first group are distinct exactly when the others' are
      and the first key is not among them. */
  lemma DistinctCons(x: (string, seq<string>), g: Groups)
    ensures DistinctKeys([x] + g) <==> DistinctKeys(g) && !HasKey(g, x.0)
  {
    var r := [x] + g;
    if DistinctKeys(r) {
      forall i, j | 0 <= i < j < |g|
        ensures g[i].0 != g[j].0
      {
        assert g[i] == r[i + 1] && g[j] == r[j + 1];
      }
      forall i | 0 <= i < |g|
        ensures g[i].0 != x.0
      {
        assert g[i] == r[i + 1] && r[0] == x;
      }
    }
    if DistinctKeys(g) && !HasKey(g, x.0) {
      forall i, j | 0 <= i < j < |r|
        ensures r[i].0 != r[j].0
      {
        if i == 0 {
          assert r[j] == g[j - 1];
        } else {
          assert r[i] == g[i - 1] && r[j] == g[j - 1];
        }
      }
    }
  }

  /** The groups `groupedSkills` builds, one skill at a time, front to back. */
  function GroupSkills(ss: seq<Skill>): (g: Groups)
    ensures DistinctKeys(g) && NonEmptyGroups(g)
    ensures Count(g) == |ss|
  {
    if |ss| == 0 then []
    else
      var s := ss[|ss| - 1];
      Push(GroupSkills(ss[..|ss| - 1]), CategoryKey(s), s.name)
  }

  /** The reference: the names of the skills filed under `c`, in input order. */
  function NamesIn(ss: seq<Skill>, c: string): seq<string> {
    if |ss| == 0 then []
    else (if CategoryKey(ss[0]) == c then [ss[0].name] else []) + NamesIn(ss[1..], c)
  }

  lemma {:induction false} NamesInSnoc(ss: seq<Skill>, s: Skill, c: string)
    ensures NamesIn(ss + [s], c) == NamesIn(ss, c) + (if CategoryKey(s) == c then [s.name] else [])
    decreases |ss|
  {
    if |ss| == 0 {
      assert ss + [s] == [s];
    } else {
      var h := if CategoryKey(ss[0]) == c then [ss[0].name] else [];
      var t := if CategoryKey(s) == c then [s.name] else [];
      calc {
        NamesIn(ss + [s], c);
      == { assert (ss + [s])[0] == ss[0]; assert (ss + [s])[1..] == ss[1..] + [s]; }
        h + NamesIn(ss[1..] + [s], c);
      == { NamesInSnoc(ss[1..], s, c); }
        h + (NamesIn(ss[1..], c) + t);
      ==
        (h + NamesIn(ss[1..], c)) + t;
      }
    }
  }

  /** Every group holds exactly the names of the skills of its category, in input order:
      each name appears once, under its own category. */
  lemma {:induction false} GroupsHoldTheirSkills(ss: seq<Skill>, c: string)
    ensures Find(GroupSkills(ss), c) == NamesIn(ss, c)
    decreases |ss|
  {
    if |ss| > 0 {
      var init := ss[..|ss| - 1];
      var s := ss[|ss| - 1];
      GroupsHoldTheirSkills(init, c);
      assert ss == init + [s];
      NamesInSnoc(init, s, c);
    }
  }

  /** With distinct keys and no empty group, a category has a group exactly when it has names. */
  lemma {:induction false} HasKeyIffFound(g: Groups, c: string)
    requires DistinctKeys(g) && NonEmptyGroups(g)
    ensures HasKey(g, c) <==> |Find(g, c)| > 0
    decreases |g|
  {
    if |g| > 0 {
      assert DistinctKeys(g[1..]) && NonEmptyGroups(g[1..]) by {
        forall i | 0 <= i < |g[1..]|
          ensures |g[1..][i].1| > 0
        {
          assert g[1..][i] == g[i + 1];
        }
      }
      HasKeyIffFound(g[1..], c);
      if HasKey(g, c) && g[0].0 != c {
        var i :| 0 <= i < |g| && g[i].0 == c;
        assert g[1..][i - 1].0 == c;
      }
      if HasKey(g[1..], c) {
        var i :| 0 <= i < |g[1..]| && g[1..][i].0 == c;
        assert g[i + 1].0 == c;
      }
    }
  }

  lemma {:induction false} NamesInNonEmpty(ss: seq<Skill>, c: string)
    ensures |NamesIn(ss, c)| > 0 <==> exists i :: 0 <= i < |ss| && CategoryKey(ss[i]) == c
    decreases |ss|
  {
    if |ss| > 0 {
      NamesInNonEmpty(ss[1..], c);
      if exists i :: 0 <= i < |ss| && CategoryKey(ss[i]) == c {
        var i :| 0 <= i < |ss| && CategoryKey(ss[i]) == c;
        if i > 0 {
          assert CategoryKey(ss[1..][i - 1]) == c;
        }
      }
      if exists i :: 0 <= i < |ss[1..]| && CategoryKey(ss[1..][i]) == c {
        var i :| 0 <= i < |ss[1..]| && CategoryKey(ss[1..][i]) == c;
        assert CategoryKey(ss[i + 1]) == c;
      }
    }
  }

  /** The categories shown are exactly the categories of the skills (with "Autres" for the
      skills that have none). */
  lemma GroupKeysAreCategories(ss: seq<Skill>, c: string)
    ensures HasKey(GroupSkills(ss), c) <==> exists i :: 0 <= i < |ss| && CategoryKey(ss[i]) == c
  {
    HasKeyIffFound(GroupSkills(ss), c);
    GroupsHoldTheirSkills(ss, c);
    NamesInNonEmpty(ss, c);
  }

  // ----- The code as written: a plain object with inherited members -----

  /** The members every plain JavaScript object inherits from `Object.prototype`. Reading
      `g[c]` for one of these names gives a truthy inherited value, so `g[c] = []` is skipped
      and `g[c].push` is not a function. */
  const InheritedNames: set<string> := {
    "constructor", "__proto__", "toString", "toLocaleString", "valueOf", "hasOwnProperty",
    "isPrototypeOf", "propertyIsEnumerable", "__defineGetter__", "__defineSetter__",
    "__lookupGetter__", "__lookupSetter__"
  }

  /** The grouping loop on an object where reading any key in `bad` yields an inherited
      value: `None` when the loop throws. */
  function GroupSkillsGuarded(ss: seq<Skill>, bad: set<string>): Option<Groups> {
    if |ss| == 0 then Some([])
    else
      var s := ss[|ss| - 1];
      var g := GroupSkillsGuarded(ss[..|ss| - 1], bad);
      if g.None? || CategoryKey(s) in bad then None
      else Some(Push(g.value, CategoryKey(s), s.name))
  }

  /** `groupedSkills` as written on `{}`: it throws exactly when some skill's category is
      an inherited member name, and otherwise builds the intended groups. */
  function GroupSkillsAsWritten(ss: seq<Skill>): (g: Option<Groups>)
    ensures g.None? <==> SomeBad(ss, InheritedNames)
    ensures g.Some? ==> g.value == GroupSkills(ss)
  {
    GuardedThrowsOnBad(ss, InheritedNames);
    GroupSkillsGuarded(ss, InheritedNames)
  }

  /** Some skill is filed under a key in `bad`. */
  predicate SomeBad(ss: seq<Skill>, bad: set<string>) {
    exists i :: 0 <= i < |ss| && CategoryKey(ss[i]) in bad
  }

  lemma SomeBadSnoc(ss: seq<Skill>, bad: set<string>)
    requires |ss| > 0
    ensures SomeBad(ss, bad) <==> SomeBad(ss[..|ss| - 1], bad) || CategoryKey(ss[|ss| - 1]) in bad
  {
    var init := ss[..|ss| - 1];
    if SomeBad(init, bad) {
      var i :| 0 <= i < |init| && CategoryKey(init[i]) in bad;
      assert ss[i] == init[i];
    }
    if SomeBad(ss, bad) {
      var i :| 0 <= i < |ss| && CategoryKey(ss[i]) in bad;
      if i < |init| {
        assert init[i] == ss[i];
      }
    }
  }

  lemma {:induction false} GuardedThrowsOnBad(ss: seq<Skill>, bad: set<string>)
    ensures GroupSkillsGuarded(ss, bad).None? <==> SomeBad(ss, bad)
    ensures GroupSkillsGuarded(ss, bad).Some? ==> GroupSkillsGuarded(ss, bad).value == GroupSkills(ss)
    decreases |ss|
  {
    if |ss| > 0 {
      GuardedThrowsOnBad(ss[..|ss| - 1], bad);
      SomeBadSnoc(ss, bad);
    }
  }

  /** A skill filed under "constructor" makes the page's grouping throw. */
  lemma ConstructorCategoryThrows(name: string)
    ensures GroupSkillsAsWritten([Skill(name, Some("constructor"))]).None?
  {
    assert CategoryKey([Skill(name, Some("constructor"))][0]) in InheritedNames;
  }
}
