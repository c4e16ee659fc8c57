/** String helpers: the CV page's text normaliser `norm` (frontend/pages/cv.tsx:32-38)
    and the pieces it is built from, substring search (`String.prototype.includes`), and
    the search for a separator that reading a path or an assignment back needs.

    JavaScript's `toLowerCase` and `normalize('NFD')` work on all of Unicode; this model
    covers ASCII and the Latin-1 letters (the accented letters French and English text uses).
    Accent stripping is a fixed character map followed by the removal of the combining
    marks U+0300..U+036F, which is what NFD followed by that removal does on Latin-1. */
module Text {

  import opened Wrappers

  /** White space as JavaScript's `\s` class and `String.prototype.trim` define it. */
  predicate IsSpace(c: char) {
    || c == ' '
    || ('\t' <= c <= '\r')
    || c == '\U{00A0}' || c == '\U{1680}'
    || ('\U{2000}' <= c <= '\U{200A}')
    || c == '\U{2028}' || c == '\U{2029}' || c == '\U{202F}'
    || c == '\U{205F}' || c == '\U{3000}' || c == '\U{FEFF}'
  }

  /** `toLowerCase` on one character: ASCII and Latin-1 capitals (U+00D7 is the
      multiplication sign, not a letter). */
  function LowerChar(c: char): char {
    if 'A' <= c <= 'Z' || ('\U{00C0}' <= c <= '\U{00DE}' && c != '\U{00D7}') then
      (c as int + 32) as char
    else
      c
  }

  function Lower(s: string): (r: string)
    ensures |r| == |s|
    ensures forall i :: 0 <= i < |s| ==> r[i] == LowerChar(s[i])
  {
    seq(|s|, i requires 0 <= i < |s| => LowerChar(s[i]))
  }

  /** The combining diacritical marks that `norm` deletes after NFD decomposition. */
  predicate IsCombining(c: char) {
    '\U{0300}' <= c <= '\U{036F}'
  }

  /** The base letter NFD leaves in front of the combining mark, for the accented Latin-1
      letters of either case; every other character is its own base. */
  function BaseChar(c: char): char {
    if '\U{00E0}' <= c <= '\U{00E5}' then 'a'
    else if c == '\U{00E7}' then 'c'
    else if '\U{00E8}' <= c <= '\U{00EB}' then 'e'
    else if '\U{00EC}' <= c <= '\U{00EF}' then 'i'
    else if c == '\U{00F1}' then 'n'
    else if '\U{00F2}' <= c <= '\U{00F6}' then 'o'
    else if '\U{00F9}' <= c <= '\U{00FC}' then 'u'
    else if c == '\U{00FD}' || c == '\U{00FF}' then 'y'
    else if '\U{00C0}' <= c <= '\U{00C5}' then 'A'
    else if c == '\U{00C7}' then 'C'
    else if '\U{00C8}' <= c <= '\U{00CB}' then 'E'
    else if '\U{00CC}' <= c <= '\U{00CF}' then 'I'
    else if c == '\U{00D1}' then 'N'
    else if '\U{00D2}' <= c <= '\U{00D6}' then 'O'
    else if '\U{00D9}' <= c <= '\U{00DC}' then 'U'
    else if c == '\U{00DD}' then 'Y'
    else c
  }

  /** `normalize('NFD').replace(/[̀-ͯ]/g, '')`. */
  function StripAccents(s: string): (r: string)
    ensures |r| <= |s|
    ensures forall i :: 0 <= i < |r| ==> !IsCombining(r[i])
  {
    if |s| == 0 then []
    else (if IsCombining(s[0]) then [] else [BaseChar(s[0])]) + StripAccents(s[1..])
  }

  /** Accent stripping works character by character: it distributes over concatenation. */
  lemma {:induction false} StripAccentsAppend(a: string, b: string)
    ensures StripAccents(a + b) == StripAccents(a) + StripAccents(b)
    decreases |a|
  {
    if |a| > 0 {
      assert (a + b)[0] == a[0];
      assert (a + b)[1..] == a[1..] + b;
      StripAccentsAppend(a[1..], b);
    } else {
      assert a + b == b;
    }
  }

  /** A combining mark is deleted; any other character becomes its base letter. */
  lemma StripAccentsChar(c: char)
    ensures StripAccents([c]) == if IsCombining(c) then [] else [BaseChar(c)]
  {
    assert [c][1..] == [];
  }

  /** Without combining marks, accent stripping maps each character to its base letter. */
  lemma {:induction false} StripAccentsPointwise(s: string)
    requires forall i :: 0 <= i < |s| ==> !IsCombining(s[i])
    ensures |StripAccents(s)| == |s|
    ensures forall i :: 0 <= i < |s| ==> StripAccents(s)[i] == BaseChar(s[i])
  {
    if |s| > 0 {
      StripAccentsPointwise(s[1..]);
      assert StripAccents(s) == [BaseChar(s[0])] + StripAccents(s[1..]);
    }
  }

  /** How many white-space characters `s` starts with. */
  function LeadingSpaces(s: string): (k: nat)
    ensures k <= |s|
    ensures k < |s| ==> !IsSpace(s[k])
  {
    if |s| > 0 && IsSpace(s[0]) then 1 + LeadingSpaces(s[1..]) else 0
  }

  /** `trimStart`: the longest suffix that does not start with white space. */
  function TrimStart(s: string): (r: string)
    ensures |r| > 0 ==> !IsSpace(r[0])
  {
    s[LeadingSpaces(s)..]
  }

  /** What `trimStart` removes is white space. */
  lemma {:induction false} TrimStartRemovesSpace(s: string)
    ensures forall i :: 0 <= i < LeadingSpaces(s) ==> IsSpace(s[i])
  {
    if |s| > 0 && IsSpace(s[0]) {
      TrimStartRemovesSpace(s[1..]);
    }
  }

  /** How many white-space characters `s` ends with. */
  function TrailingSpaces(s: string): (k: nat)
    ensures k <= |s|
    ensures k < |s| ==> !IsSpace(s[|s| - 1 - k])
  {
    if |s| > 0 && IsSpace(s[|s| - 1]) then 1 + TrailingSpaces(s[..|s| - 1]) else 0
  }

  /** `trimEnd`: the longest prefix that does not end with white space. */
  function TrimEnd(s: string): (r: string)
    ensures |r| > 0 ==> !IsSpace(r[|r| - 1])
  {
    s[..|s| - TrailingSpaces(s)]
  }

  /** What `trimEnd` removes is white space, from the end only: the result is a prefix of
      the input and everything after it is white space (all of it, for blank input). */
  lemma {:induction false} TrimEndRemovesSpace(s: string)
    ensures IsPrefix(TrimEnd(s), s)
    ensures forall i :: |TrimEnd(s)| <= i < |s| ==> IsSpace(s[i])
    decreases |s|
  {
    if |s| > 0 && IsSpace(s[|s| - 1]) {
      var s' := s[..|s| - 1];
      TrimEndRemovesSpace(s');
      assert TrimEnd(s) == TrimEnd(s');
      assert forall i :: 0 <= i < |s'| ==> s[i] == s'[i];
    }
  }

  function Trim(s: string): (r: string)
    ensures |r| > 0 ==> !IsSpace(r[0]) && !IsSpace(r[|r| - 1])
  {
    TrimEnd(TrimStart(s))
  }

  /** `trim` keeps the stretch of `s` between its leading and its trailing white space. */
  lemma TrimIsInfix(s: string)
    ensures var i := LeadingSpaces(s);
            i + |Trim(s)| <= |s| && Trim(s) == s[i..i + |Trim(s)|]
            && (forall k :: 0 <= k < i ==> IsSpace(s[k]))
            && (forall k :: i + |Trim(s)| <= k < |s| ==> IsSpace(s[k]))
  {
    TrimStartRemovesSpace(s);
    TrimEndRemovesSpace(TrimStart(s));
    SuffixPrefix(s, LeadingSpaces(s), TrimStart(s), Trim(s));
  }

  /** A prefix `v` of the suffix `u` of `s` from `i` on sits at `i` in `s`; what follows it
      in `u` follows it in `s`. */
  lemma SuffixPrefix(s: string, i: nat, u: string, v: string)
    requires i <= |s| && u == s[i..] && IsPrefix(v, u)
    requires forall k :: |v| <= k < |u| ==> IsSpace(u[k])
    ensures i + |v| <= |s| && v == s[i..i + |v|]
    ensures forall k :: i + |v| <= k < |s| ==> IsSpace(s[k])
  {
    assert v == u[..|v|];
    forall k | i + |v| <= k < |s|
      ensures IsSpace(s[k])
    {
      assert s[k] == u[k - i];
    }
  }

  predicate AllSpace(s: string) {
    forall i :: 0 <= i < |s| ==> IsSpace(s[i])
  }

  lemma {:induction false} TrimStartPadded(pre: string, x: string)
    requires AllSpace(pre)
    requires |x| > 0 && !IsSpace(x[0])
    ensures TrimStart(pre + x) == x
    decreases |pre|
  {
    if |pre| > 0 {
      assert (pre + x)[1..] == pre[1..] + x;
      TrimStartPadded(pre[1..], x);
    } else {
      assert pre + x == x;
    }
  }

  lemma {:induction false} TrimEndPadded(x: string, post: string)
    requires AllSpace(post)
    requires |x| > 0 && !IsSpace(x[|x| - 1])
    ensures TrimEnd(x + post) == x
    decreases |post|
  {
    if |post| > 0 {
      var p := post[..|post| - 1];
      assert (x + post)[..|x + post| - 1] == x + p;
      TrimEndPadded(x, p);
    } else {
      assert x + post == x;
    }
  }

  /** Trimming removes exactly the white space around a word. */
  lemma TrimPadded(pre: string, x: string, post: string)
    requires AllSpace(pre) && AllSpace(post)
    requires |x| > 0 && !IsSpace(x[0]) && !IsSpace(x[|x| - 1])
    ensures Trim(pre + x + post) == x
  {
    assert pre + x + post == pre + (x + post);
    TrimStartPadded(pre, x + post);
    TrimEndPadded(x, post);
  }

  /** `replace(/\s+/g, ' ')`: every maximal run of white space becomes one blank. */
  function Collapse(s: string): (r: string)
    ensures |r| == 0 <==> |s| == 0
    ensures |s| > 0 ==> (r[0] == ' ' <==> IsSpace(s[0]))
    ensures |s| > 0 ==> (r[|r| - 1] == ' ' <==> IsSpace(s[|s| - 1]))
    decreases |s|
  {
    if |s| == 0 then []
    else if IsSpace(s[0]) then
      var t := TrimStart(s[1..]);
      TrimStartRemovesSpace(s[1..]);
      assert |t| > 0 ==> t[|t| - 1] == s[|s| - 1];
      [' '] + Collapse(t)
    else
      [s[0]] + Collapse(s[1..])
  }

  /** What `Collapse` leaves: blanks, never two in a row, and the other characters of its input. */
  lemma {:induction false} CollapseShape(s: string)
    ensures forall i :: 0 <= i < |Collapse(s)| ==> Collapse(s)[i] == ' ' || (Collapse(s)[i] in s && !IsSpace(Collapse(s)[i]))
    ensures forall i :: 0 <= i < |Collapse(s)| - 1 ==> !(Collapse(s)[i] == ' ' && Collapse(s)[i + 1] == ' ')
    decreases |s|
  {
    if |s| > 0 {
      var r := Collapse(s);
      if IsSpace(s[0]) {
        var t := TrimStart(s[1..]);
        CollapseShape(t);
        assert r == [' '] + Collapse(t);
        assert forall c :: c in t ==> c in s;
      } else {
        CollapseShape(s[1..]);
        assert r == [s[0]] + Collapse(s[1..]);
        assert forall c :: c in s[1..] ==> c in s;
      }
    }
  }

  /** The characters of `s` that are not white space, in order. */
  function NonSpace(s: string): string {
    if |s| == 0 then [] else (if IsSpace(s[0]) then [] else [s[0]]) + NonSpace(s[1..])
  }

  lemma {:induction false} NonSpaceOfTrimStart(s: string)
    ensures NonSpace(TrimStart(s)) == NonSpace(s)
  {
    if |s| > 0 && IsSpace(s[0]) {
      NonSpaceOfTrimStart(s[1..]);
      assert TrimStart(s) == TrimStart(s[1..]);
    }
  }

  /** Collapsing keeps every character that is not white space, in order: only white space
      is rewritten. */
  lemma {:induction false} CollapseKeepsText(s: string)
    ensures NonSpace(Collapse(s)) == NonSpace(s)
    decreases |s|
  {
    if |s| > 0 {
      var head := if IsSpace(s[0]) then ' ' else s[0];
      var t := if IsSpace(s[0]) then TrimStart(s[1..]) else s[1..];
      assert Collapse(s) == [head] + Collapse(t);
      CollapseKeepsText(t);
      if IsSpace(s[0]) {
        NonSpaceOfTrimStart(s[1..]);
      }
      assert ([head] + Collapse(t))[1..] == Collapse(t);
    }
  }

  /** How many white-space characters `u + b` starts with. */
  lemma {:induction false} LeadingSpacesAppend(u: string, b: string)
    ensures LeadingSpaces(u) < |u| ==> LeadingSpaces(u + b) == LeadingSpaces(u)
    ensures LeadingSpaces(u) == |u| ==> LeadingSpaces(u + b) == |u| + LeadingSpaces(b)
    decreases |u|
  {
    if |u| > 0 {
      assert (u + b)[0] == u[0];
      assert (u + b)[1..] == u[1..] + b;
      LeadingSpacesAppend(u[1..], b);
    } else {
      assert u + b == b;
    }
  }

  /** `Collapse` on a text split into its first character and the rest. */
  lemma CollapseCons(c: char, t: string)
    ensures Collapse([c] + t) == if IsSpace(c) then [' '] + Collapse(TrimStart(t)) else [c] + Collapse(t)
  {
    assert ([c] + t)[0] == c;
    assert ([c] + t)[1..] == t;
  }

  /** Runs of white space never merge across a boundary with a non-space character on one
      side of it, so collapsing works piece by piece. */
  lemma {:induction false} CollapseAppend(a: string, b: string)
    requires |a| == 0 || |b| == 0 || !IsSpace(a[|a| - 1]) || !IsSpace(b[0])
    ensures Collapse(a + b) == Collapse(a) + Collapse(b)
    decreases |a|, 2
  {
    if |a| == 0 {
      assert a + b == b;
    } else if |b| == 0 {
      assert a + b == a;
    } else {
      assert a == [a[0]] + a[1..];
      assert a + b == [a[0]] + (a[1..] + b);
      CollapseConsAppend(a[0], a[1..], b, a[|a| - 1]);
    }
  }

  /** `CollapseAppend` for a piece that starts with `c`; `last` is the piece's last character. */
  lemma {:induction false} CollapseConsAppend(c: char, u: string, b: string, last: char)
    requires |b| > 0 && (if |u| == 0 then last == c else last == u[|u| - 1])
    requires !IsSpace(last) || !IsSpace(b[0])
    ensures Collapse([c] + (u + b)) == Collapse([c] + u) + Collapse(b)
    decreases |u| + 1, 1
  {
    if !IsSpace(c) {
      CollapseLetterAppend(c, u, b, last);
    } else if LeadingSpaces(u) == |u| {
      TrimStartRemovesSpace(u);
      CollapseRunAppend(c, u, b);
    } else {
      CollapseBlankAppend(c, u, b, last);
    }
  }

  lemma {:induction false} CollapseLetterAppend(c: char, u: string, b: string, last: char)
    requires |b| > 0 && (if |u| == 0 then last == c else last == u[|u| - 1])
    requires !IsSpace(last) || !IsSpace(b[0])
    requires !IsSpace(c)
    ensures Collapse([c] + (u + b)) == Collapse([c] + u) + Collapse(b)
    decreases |u| + 1, 0
  {
    calc {
      Collapse([c] + (u + b));
    == { CollapseCons(c, u + b); }
      [c] + Collapse(u + b);
    == { CollapseAppend(u, b); }
      [c] + (Collapse(u) + Collapse(b));
    ==
      ([c] + Collapse(u)) + Collapse(b);
    == { CollapseCons(c, u); }
      Collapse([c] + u) + Collapse(b);
    }
  }

  lemma {:induction false} CollapseBlankAppend(c: char, u: string, b: string, last: char)
    requires |b| > 0 && (if |u| == 0 then last == c else last == u[|u| - 1])
    requires !IsSpace(last) || !IsSpace(b[0])
    requires IsSpace(c) && LeadingSpaces(u) < |u|
    ensures Collapse([c] + (u + b)) == Collapse([c] + u) + Collapse(b)
    decreases |u| + 1, 0
  {
    var v := TrimStart(u);
    calc {
      Collapse([c] + (u + b));
    == { CollapseCons(c, u + b); }
      [' '] + Collapse(TrimStart(u + b));
    == { TrimStartAppend(u, b); }
      [' '] + Collapse(v + b);
    == { TrimStartAppend(u, b); CollapseAppend(v, b); }
      [' '] + (Collapse(v) + Collapse(b));
    ==
      ([' '] + Collapse(v)) + Collapse(b);
    == { CollapseCons(c, u); }
      Collapse([c] + u) + Collapse(b);
    }
  }

  lemma CollapseRunAppend(c: char, u: string, b: string)
    requires IsSpace(c) && LeadingSpaces(u) == |u|
    requires |b| > 0 && !IsSpace(b[0])
    ensures Collapse([c] + (u + b)) == Collapse([c] + u) + Collapse(b)
  {
    BlankTailBeforeText(u, b);
    calc {
      Collapse([c] + (u + b));
    == { CollapseCons(c, u + b); }
      [' '] + Collapse(b);
    == { CollapseCons(c, u); }
      Collapse([c] + u) + Collapse(b);
    }
  }

  /** Trimming the front of `u + b` stops inside `u` when `u` is not all white space. */
  lemma TrimStartAppend(u: string, b: string)
    requires LeadingSpaces(u) < |u|
    ensures TrimStart(u + b) == TrimStart(u) + b
    ensures |TrimStart(u)| > 0 && TrimStart(u)[|TrimStart(u)| - 1] == u[|u| - 1]
  {
    var k := LeadingSpaces(u);
    LeadingSpacesAppend(u, b);
    assert TrimStart(u + b) == (u + b)[k..];
    assert (u + b)[k..] == u[k..] + b;
    assert TrimStart(u) == u[k..];
  }

  /** A blank run followed by text: trimming the front skips exactly the run. */
  lemma BlankTailBeforeText(u: string, b: string)
    requires LeadingSpaces(u) == |u| && |b| > 0 && !IsSpace(b[0])
    ensures TrimStart(u + b) == b && TrimStart(u) == []
  {
    LeadingSpacesAppend(u, b);
  }

  /** A non-empty run of white space collapses to one blank. */
  lemma CollapseRun(w: string)
    requires |w| > 0 && forall i :: 0 <= i < |w| ==> IsSpace(w[i])
    ensures Collapse(w) == " "
  {
    assert LeadingSpaces(w[1..]) == |w| - 1 by {
      LeadingSpacesOfBlank(w[1..]);
    }
  }

  lemma {:induction false} LeadingSpacesOfBlank(w: string)
    requires forall i :: 0 <= i < |w| ==> IsSpace(w[i])
    ensures LeadingSpaces(w) == |w|
  {
    if |w| > 0 {
      LeadingSpacesOfBlank(w[1..]);
    }
  }

  /** Around text that starts and ends with a non-space character, collapsing works on
      each of the three pieces separately. */
  lemma CollapsePadded(pre: string, x: string, post: string)
    requires |x| > 0 && !IsSpace(x[0]) && !IsSpace(x[|x| - 1])
    ensures Collapse(pre + x + post) == Collapse(pre) + Collapse(x) + Collapse(post)
  {
    calc {
      Collapse(pre + x + post);
    == { assert pre + x + post == pre + (x + post); }
      Collapse(pre + (x + post));
    == { CollapseAppend(pre, x + post); }
      Collapse(pre) + Collapse(x + post);
    == { CollapseAppend(x, post); }
      Collapse(pre) + (Collapse(x) + Collapse(post));
    }
  }

  /** White space collapses to nothing or to one blank. */
  lemma CollapseBlank(w: string)
    requires AllSpace(w)
    ensures AllSpace(Collapse(w))
  {
    if |w| > 0 {
      CollapseRun(w);
    }
  }

  /** Collapsing keeps a non-space character at either end. */
  lemma CollapseEnds(x: string)
    requires |x| > 0 && !IsSpace(x[0]) && !IsSpace(x[|x| - 1])
    ensures var c := Collapse(x); |c| > 0 && !IsSpace(c[0]) && !IsSpace(c[|c| - 1])
  {
    CollapseShape(x);
  }

  /** Trimming and collapsing commute: `trim` then `/\s+/g` gives the same text as `/\s+/g`
      then `trim`. */
  lemma TrimCollapseCommute(s: string)
    ensures Trim(Collapse(s)) == Collapse(Trim(s))
  {
    var i := LeadingSpaces(s);
    var x := Trim(s);
    TrimIsInfix(s);
    var pre, post := s[..i], s[i + |x|..];
    assert s == pre + x + post;
    if |x| == 0 {
      BlankCommute(s);
    } else {
      TextCommute(pre, x, post);
    }
  }

  lemma BlankCommute(s: string)
    requires AllSpace(s)
    ensures Trim(Collapse(s)) == Collapse(Trim(s)) == []
  {
    CollapseBlank(s);
    var c := Collapse(s);
    assert LeadingSpaces(c) == |c| by {
      LeadingSpacesOfBlank(c);
    }
    assert TrimStart(c) == [];
    assert LeadingSpaces(s) == |s| by {
      LeadingSpacesOfBlank(s);
    }
    assert TrimStart(s) == [];
  }

  lemma TextCommute(pre: string, x: string, post: string)
    requires AllSpace(pre) && AllSpace(post)
    requires |x| > 0 && !IsSpace(x[0]) && !IsSpace(x[|x| - 1])
    ensures Trim(Collapse(pre + x + post)) == Collapse(Trim(pre + x + post))
  {
    CollapsePadded(pre, x, post);
    CollapseBlank(pre);
    CollapseBlank(post);
    CollapseEnds(x);
    TrimPadded(Collapse(pre), Collapse(x), Collapse(post));
    TrimPadded(pre, x, post);
  }

  /** Every white-space character is a blank followed by a character that is not white space. */
  predicate Sparse(t: string) {
    forall i :: 0 <= i < |t| && IsSpace(t[i]) ==> t[i] == ' ' && i + 1 < |t| && !IsSpace(t[i + 1])
  }

  /** The shape `norm` produces: no leading or trailing white space, and the white space
      inside is single blanks. */
  predicate Canonical(t: string) {
    Sparse(t) && (|t| > 0 ==> !IsSpace(t[0]))
  }

  /** `norm` (frontend/pages/cv.tsx:32-38): lower-case, strip accents, trim, collapse. The
      result has no leading or trailing blank and no run of white space, and holds only
      characters that `norm` leaves alone. */
  function Norm(s: Option<string>): (r: string)
    ensures Canonical(r)
    ensures AllFolded(r)
  {
    var low := Lower(s.GetOr(""));
    StripAccentsOfLowerIsFolded(low);
    var stripped := StripAccents(low);
    TrimKeepsFolded(stripped);
    CollapseKeepsFolded(Trim(stripped));
    CollapseShape(Trim(stripped));
    Collapse(Trim(stripped))
  }

  /** A character `norm` leaves alone. */
  predicate Folded(c: char) {
    LowerChar(c) == c && BaseChar(c) == c && !IsCombining(c)
  }

  lemma BaseOfLowerIsFolded(c: char)
    requires LowerChar(c) == c && !IsCombining(c)
    ensures Folded(BaseChar(c))
  {
  }

  lemma {:induction false} StripAccentsOfLowerIsFolded(s: string)
    requires forall i :: 0 <= i < |s| ==> LowerChar(s[i]) == s[i]
    ensures AllFolded(StripAccents(s))
  {
    if |s| > 0 {
      StripAccentsOfLowerIsFolded(s[1..]);
      var head := if IsCombining(s[0]) then [] else [BaseChar(s[0])];
      if !IsCombining(s[0]) {
        BaseOfLowerIsFolded(s[0]);
      }
      assert StripAccents(s) == head + StripAccents(s[1..]);
    }
  }

  lemma {:induction false} StripAccentsOfFolded(t: string)
    requires AllFolded(t)
    ensures StripAccents(t) == t
  {
    if |t| > 0 {
      StripAccentsOfFolded(t[1..]);
    }
  }

  lemma {:induction false} CollapseOfSparse(t: string)
    requires Sparse(t)
    ensures Collapse(t) == t
    decreases |t|
  {
    if |t| > 0 {
      var u := t[1..];
      assert Sparse(u) by {
        forall i | 0 <= i < |u| && IsSpace(u[i])
          ensures u[i] == ' ' && i + 1 < |u| && !IsSpace(u[i + 1])
        {
          assert u[i] == t[i + 1];
        }
      }
      CollapseOfSparse(u);
      if IsSpace(t[0]) {
        assert !IsSpace(u[0]);
        assert TrimStart(u) == u;
        assert Collapse(t) == [' '] + Collapse(u);
      } else {
        assert Collapse(t) == [t[0]] + Collapse(u);
      }
    }
  }

  lemma TrimOfCanonical(t: string)
    requires Canonical(t)
    ensures Trim(t) == t
  {
    assert TrimStart(t) == t;
    if |t| > 0 {
      assert !IsSpace(t[|t| - 1]);
    }
    assert TrimEnd(t) == t;
  }

  /** A string already in `norm`'s shape and made of characters `norm` leaves alone is
      its own normal form. */
  lemma NormOfCanonical(t: string)
    requires Canonical(t)
    requires AllFolded(t)
    ensures Norm(Some(t)) == t
  {
    assert Lower(t) == t;
    StripAccentsOfFolded(t);
    assert TrimStart(t) == t;
    assert TrimEnd(t) == t;
    CollapseOfSparse(t);
  }

  predicate AllFolded(s: string) {
    forall i :: 0 <= i < |s| ==> Folded(s[i])
  }

  lemma TrimKeepsFolded(s: string)
    requires AllFolded(s)
    ensures AllFolded(Trim(s))
  {
    var u := TrimStart(s);
    assert AllFolded(u) by {
      forall i | 0 <= i < |u|
        ensures Folded(u[i])
      {
        assert u[i] == s[|s| - |u| + i];
      }
    }
  }

  lemma CollapseKeepsFolded(s: string)
    requires AllFolded(s)
    ensures AllFolded(Collapse(s))
  {
    CollapseShape(s);
    var r := Collapse(s);
    forall i | 0 <= i < |r|
      ensures Folded(r[i])
    {
      if r[i] != ' ' {
        assert r[i] in s;
        var j :| 0 <= j < |s| && s[j] == r[i];
        assert Folded(s[j]);
      }
    }
  }

  /** `norm` is idempotent: normalising a normalised string changes nothing. */
  lemma NormIdempotent(s: Option<string>)
    ensures Norm(Some(Norm(s))) == Norm(s)
  {
    NormOfCanonical(Norm(s));
  }

  /** How many characters come before the first `sep` (all of them when there is none). */
  function UpTo(s: string, sep: char): (k: nat)
    ensures k <= |s|
    ensures forall j :: 0 <= j < k ==> s[j] != sep
    ensures k < |s| ==> s[k] == sep
  {
    if |s| == 0 || s[0] == sep then 0 else 1 + UpTo(s[1..], sep)
  }

  /** The position `UpTo` stops at is the only one that fits its contract. */
  lemma {:induction false} UpToAt(s: string, sep: char, k: nat)
    requires k <= |s| && (forall j :: 0 <= j < k ==> s[j] != sep) && (k < |s| ==> s[k] == sep)
    ensures UpTo(s, sep) == k
    decreases k
  {
    if k > 0 {
      UpToAt(s[1..], sep, k - 1);
    }
  }

  predicate IsPrefix(p: string, s: string) {
    |p| <= |s| && s[..|p|] == p
  }

  /** `k` occurs in `h` starting at index `i`. */
  predicate OccursAt(h: string, k: string, i: int) {
    0 <= i <= |h| - |k| && h[i..i + |k|] == k
  }

  /** `h.includes(k)`: `k` occurs at some index of `h`. */
  function Contains(h: string, k: string): (r: bool)
    ensures r <==> exists i :: OccursAt(h, k, i)
    decreases |h|
  {
    OccursShift(h, k);
    IsPrefix(k, h) || (|h| > 0 && Contains(h[1..], k))
  }

  /** An occurrence is at the front, or is an occurrence in the rest of the text. */
  lemma OccursShift(h: string, k: string)
    ensures (exists i :: OccursAt(h, k, i))
            <==> IsPrefix(k, h) || (|h| > 0 && exists i :: OccursAt(h[1..], k, i))
  {
    if IsPrefix(k, h) {
      assert OccursAt(h, k, 0);
    }
    if |h| > 0 {
      forall i | OccursAt(h[1..], k, i)
        ensures OccursAt(h, k, i + 1)
      {
        assert h[i + 1..i + 1 + |k|] == h[1..][i..i + |k|];
      }
      forall i | OccursAt(h, k, i) && i > 0
        ensures OccursAt(h[1..], k, i - 1)
      {
        assert h[1..][i - 1..i - 1 + |k|] == h[i..i + |k|];
      }
    }
  }

  /** A keyword occurs in any string that is built around it. */
  lemma ContainsInfix(a: string, k: string, b: string)
    ensures Contains(a + k + b, k)
  {
    var h := a + k + b;
    assert OccursAt(h, k, |a|) by {
      assert h[|a|..|a| + |k|] == k;
    }
  }

  /** The empty string contains no non-empty keyword. */
  lemma EmptyContainsNothing(k: string)
    requires |k| > 0
    ensures !Contains("", k)
  {
  }
}
