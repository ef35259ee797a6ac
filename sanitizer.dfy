/**
 * The title sanitiser `removeSpaces` (main.js:23-27):
 *
 *   title.replace(/[\W_]+/g, " ").replace(/ /g, "_")
 *
 * Without the `u` flag, `\W` is the complement of the ASCII class
 * [A-Za-z0-9_], so `[\W_]` is every character that is not an ASCII letter
 * or digit. The first replace turns every maximal run of such characters
 * into one space; the second turns every space into an underscore.
 */
module Sanitizer {

  /** The characters outside `[\W_]`: ASCII letters and digits. */
  predicate IsAlnum(c: char) {
    ('A' <= c <= 'Z') || ('a' <= c <= 'z') || ('0' <= c <= '9')
  }

  /** A character a sanitised stem may contain: `\w` in ASCII. */
  predicate IsStemChar(c: char) {
    IsAlnum(c) || c == '_'
  }

  /** The shape of every sanitised stem: word characters only, no "__". */
  ghost predicate IsStem(s: string) {
    (forall i :: 0 <= i < |s| ==> IsStemChar(s[i])) &&
    (forall i, j :: 0 <= i < j < |s| && j == i + 1 ==> !(s[i] == '_' && s[j] == '_'))
  }

  /** The letters and digits of `s`, in order. */
  function Alnums(s: string): (r: string)
    ensures |r| <= |s|
  {
    if s == [] then []
    else (if IsAlnum(s[0]) then [s[0]] else []) + Alnums(s[1..])
  }

  /** Drops the rest of a run of `[\W_]` characters (a regex `+` is greedy). */
  function SkipRun(s: string): (r: string)
    ensures |r| <= |s| && r == s[|s| - |r|..]
    ensures r == [] || IsAlnum(r[0])
    ensures Alnums(r) == Alnums(s)
  {
    if s == [] || IsAlnum(s[0]) then s else SkipRun(s[1..])
  }

  /**
   * `replace(/[\W_]+/g, " ")`, scanning left to right: a letter or digit is
   * kept, and a run of other characters becomes a single space.
   */
  function CollapseRuns(s: string): (r: string)
    decreases |s|
    ensures |r| <= |s|
    ensures r == [] <==> s == []
    ensures r != [] ==> (r[0] == ' ' <==> !IsAlnum(s[0]))
    ensures forall i :: 0 <= i < |r| ==> IsAlnum(r[i]) || r[i] == ' '
    ensures forall i, j :: 0 <= i < j < |r| && j == i + 1 ==> !(r[i] == ' ' && r[j] == ' ')
    ensures Alnums(r) == Alnums(s)
  {
    if s == [] then []
    else if IsAlnum(s[0]) then
      assert Alnums(s) == [s[0]] + Alnums(s[1..]);
      var rest := CollapseRuns(s[1..]);
      assert Alnums([s[0]] + rest) == [s[0]] + Alnums(rest) by {
        assert ([s[0]] + rest)[1..] == rest;
      }
      [s[0]] + rest
    else
      var rest := CollapseRuns(SkipRun(s[1..]));
      assert Alnums([' '] + rest) == Alnums(rest) by {
        assert ([' '] + rest)[1..] == rest;
      }
      [' '] + rest
  }

  /** `replace(/ /g, "_")`: every space becomes an underscore. */
  function Underscores(s: string): (r: string)
    ensures |r| == |s|
    ensures forall i :: 0 <= i < |s| ==> r[i] == if s[i] == ' ' then '_' else s[i]
  {
    if s == [] then [] else [if s[0] == ' ' then '_' else s[0]] + Underscores(s[1..])
  }

  /**
   * `removeSpaces(book_title)`: the file stem of a title. The result has
   * the stem shape, is empty exactly when the title is, and keeps every
   * letter and digit of the title in its original order.
   */
  function RemoveSpaces(title: string): (r: string)
    ensures IsStem(r)
    ensures |r| <= |title|
    ensures r == [] <==> title == []
    ensures Alnums(r) == Alnums(title)
  {
    var spaced := CollapseRuns(title);
    var r := Underscores(spaced);
    AlnumsUnderscores(spaced);
    r
  }

  /** Turning spaces into underscores leaves the letters and digits alone. */
  lemma {:induction false} AlnumsUnderscores(s: string)
    ensures Alnums(Underscores(s)) == Alnums(s)
  {
    if s != [] {
      AlnumsUnderscores(s[1..]);
      assert Underscores(s)[1..] == Underscores(s[1..]);
    }
  }

  /** One step of the left-to-right scan of `removeSpaces`. */
  lemma RemoveSpacesStep(s: string)
    requires s != []
    ensures RemoveSpaces(s) ==
      if IsAlnum(s[0]) then [s[0]] + RemoveSpaces(s[1..])
      else ['_'] + RemoveSpaces(SkipRun(s[1..]))
  {
    var rest := if IsAlnum(s[0]) then CollapseRuns(s[1..]) else CollapseRuns(SkipRun(s[1..]));
    var head := if IsAlnum(s[0]) then s[0] else ' ';
    assert CollapseRuns(s) == [head] + rest;
    assert Underscores([head] + rest) == Underscores([head]) + Underscores(rest);
  }

  /**
   * The strings `removeSpaces` leaves unchanged are exactly the stems:
   * both directions.
   */
  lemma {:induction false} FixedPointIffStem(t: string)
    ensures RemoveSpaces(t) == t <==> IsStem(t)
  {
    if IsStem(t) {
      StemIsFixed(t);
    }
  }

  lemma {:induction false} StemIsFixed(t: string)
    requires IsStem(t)
    ensures RemoveSpaces(t) == t
  {
    if t != [] {
      RemoveSpacesStep(t);
      var rest := t[1..];
      assert IsStem(rest) by {
        forall i, j | 0 <= i < j < |rest| && j == i + 1 ensures !(rest[i] == '_' && rest[j] == '_') {
          assert rest[i] == t[i + 1] && rest[j] == t[j + 1];
        }
      }
      StemIsFixed(rest);
      if !IsAlnum(t[0]) {
        assert t[0] == '_';
        assert rest == [] || IsAlnum(rest[0]) by {
          if rest != [] {
            assert IsStemChar(t[1]);
            assert t[1] != '_';
          }
        }
        assert SkipRun(rest) == rest;
      }
    }
  }

  /** Sanitising twice is the same as sanitising once. */
  lemma Idempotent(s: string)
    ensures RemoveSpaces(RemoveSpaces(s)) == RemoveSpaces(s)
  {
    FixedPointIffStem(RemoveSpaces(s));
  }

  // An independent reference definition: blank out every character that is
  // not a letter or digit, then squeeze each run of underscores to one.

  function Blank(s: string): (r: string)
    ensures |r| == |s|
    ensures forall i :: 0 <= i < |s| ==> r[i] == if IsAlnum(s[i]) then s[i] else '_'
  {
    if s == [] then [] else [if IsAlnum(s[0]) then s[0] else '_'] + Blank(s[1..])
  }

  function Squeeze(s: string): string {
    if |s| <= 1 then s
    else if s[0] == '_' && s[1] == '_' then Squeeze(s[1..])
    else [s[0]] + Squeeze(s[1..])
  }

  /** `removeSpaces` agrees with the blank-and-squeeze reference on every input. */
  lemma {:induction false} MatchesReference(s: string)
    ensures RemoveSpaces(s) == Squeeze(Blank(s))
    decreases |s|, 0
  {
    if s != [] {
      RemoveSpacesStep(s);
      assert Blank(s) == [Blank(s)[0]] + Blank(s[1..]);
      if IsAlnum(s[0]) {
        MatchesReference(s[1..]);
        if |s| > 1 {
          assert Squeeze(Blank(s)) == [s[0]] + Squeeze(Blank(s)[1..]);
        }
      } else {
        SqueezeAfterUnderscore(s[1..]);
      }
    }
  }

  /**
   * The first replace, read through the second: every separator run left as
   * one space is exactly one underscore of the blank-and-squeeze reference.
   */
  lemma CollapseRunsMatchesReference(s: string)
    ensures Underscores(CollapseRuns(s)) == Squeeze(Blank(s))
  {
    MatchesReference(s);
  }

  /** An underscore absorbs the rest of the run that follows it. */
  lemma {:induction false} SqueezeAfterUnderscore(t: string)
    ensures Squeeze(['_'] + Blank(t)) == ['_'] + RemoveSpaces(SkipRun(t))
    decreases |t|, 1
  {
    var u := ['_'] + Blank(t);
    assert u[1..] == Blank(t);
    if t == [] {
    } else if IsAlnum(t[0]) {
      MatchesReference(t);
      assert Squeeze(u) == ['_'] + Squeeze(Blank(t));
    } else {
      assert Blank(t) == ['_'] + Blank(t[1..]);
      SqueezeAfterUnderscore(t[1..]);
    }
  }

  /** Which character separates two parts of a title does not show in its stem. */
  lemma SeparatorsInterchangeable(x: string, y: string, c1: char, c2: char)
    requires !IsAlnum(c1) && !IsAlnum(c2)
    ensures RemoveSpaces(x + [c1] + y) == RemoveSpaces(x + [c2] + y)
  {
    MatchesReference(x + [c1] + y);
    MatchesReference(x + [c2] + y);
    BlankedSeparator(x, y, c1, c2);
  }

  /** Blanking maps every separator to the same underscore. */
  lemma BlankedSeparator(x: string, y: string, c1: char, c2: char)
    requires !IsAlnum(c1) && !IsAlnum(c2)
    ensures Blank(x + [c1] + y) == Blank(x + [c2] + y)
  {
    var s1, s2 := x + [c1] + y, x + [c2] + y;
    forall i | 0 <= i < |s1|
      ensures Blank(s1)[i] == Blank(s2)[i]
    {
      if i != |x| {
        assert s1[i] == s2[i];
      }
    }
  }
}
