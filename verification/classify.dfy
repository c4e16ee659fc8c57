/** The professional-experience classifier `isProfessional` (frontend/pages/cv.tsx:91-107):
    a record is professional unless a blacklisted keyword occurs in its normalised
    category, title or company. */
module Classify {

  import opened Wrappers
  import opened Text

  /** Volunteering, personal or side projects, and school work, in French and English
      (already in normal form: lower case, no accents). */
  const Blacklist: seq<string> := [
    "volunteer", "benevol", "association",
    "personal project", "projet perso", "projet personnel", "side project", "prototype",
    "school", "etudiant", "student", "scolaire", "academic"
  ]

  /** `keys.some(k => c.includes(k) || t.includes(k) || co.includes(k))`, left to right. */
  predicate SomeKeyword(keys: seq<string>, c: string, t: string, co: string) {
    |keys| > 0 && (Contains(c, keys[0]) || Contains(t, keys[0]) || Contains(co, keys[0])
                   || SomeKeyword(keys[1..], c, t, co))
  }

  /** `isProfessional(cat, title, company)`: a record is professional exactly when no
      blacklist keyword occurs in its normalised category, title or company. */
  function IsProfessional(cat: Option<string>, title: Option<string>, company: Option<string>): (r: bool)
    ensures r <==> forall i :: 0 <= i < |Blacklist| ==>
                     !Contains(Norm(cat), Blacklist[i]) && !Contains(Norm(title), Blacklist[i])
                     && !Contains(Norm(company), Blacklist[i])
  {
    var c, t, co := Norm(cat), Norm(title), Norm(company);
    SomeKeywordIff(Blacklist, c, t, co);
    assert forall i :: 0 <= i < |Blacklist| ==>
      (HitAt(Blacklist, i, c, t, co) <==> (Contains(c, Blacklist[i]) || Contains(t, Blacklist[i]) || Contains(co, Blacklist[i])));
    !SomeKeyword(Blacklist, c, t, co)
  }

  /** Keyword `keys[i]` occurs in one of the three texts. */
  predicate HitAt(keys: seq<string>, i: int, c: string, t: string, co: string)
    requires 0 <= i < |keys|
  {
    Contains(c, keys[i]) || Contains(t, keys[i]) || Contains(co, keys[i])
  }

  lemma {:induction false} SomeKeywordIff(keys: seq<string>, c: string, t: string, co: string)
    ensures SomeKeyword(keys, c, t, co) <==> exists i :: 0 <= i < |keys| && HitAt(keys, i, c, t, co)
    decreases |keys|
  {
    if |keys| > 0 {
      SomeKeywordIff(keys[1..], c, t, co);
      assert HitAt(keys, 0, c, t, co) <==> (Contains(c, keys[0]) || Contains(t, keys[0]) || Contains(co, keys[0]));
      if exists i :: 0 <= i < |keys| && HitAt(keys, i, c, t, co) {
        var i :| 0 <= i < |keys| && HitAt(keys, i, c, t, co);
        if i > 0 {
          assert HitAt(keys[1..], i - 1, c, t, co);
        }
      }
      if exists j :: 0 <= j < |keys[1..]| && HitAt(keys[1..], j, c, t, co) {
        var j :| 0 <= j < |keys[1..]| && HitAt(keys[1..], j, c, t, co);
        assert HitAt(keys, j + 1, c, t, co);
      }
    }
  }

  /** A record with no category, title or company is professional. */
  lemma AbsentIsProfessional()
    ensures IsProfessional(None, None, None)
  {
    var e := Norm(None);
    assert e == "";
    forall i | 0 <= i < |Blacklist|
      ensures !Contains(e, Blacklist[i])
    {
      EmptyContainsNothing(Blacklist[i]);
    }
  }

  /** The classifier sees text only through `norm`: re-normalising a field changes nothing. */
  lemma ClassifierSeesNormalForm(cat: Option<string>, title: Option<string>, company: Option<string>)
    ensures IsProfessional(Some(Norm(cat)), Some(Norm(title)), Some(Norm(company)))
         == IsProfessional(cat, title, company)
  {
    NormIdempotent(cat);
    NormIdempotent(title);
    NormIdempotent(company);
  }
}
