/**
 * The HTML-to-text normaliser inside `downloadBookFromS3` (main.js:58-60):
 *
 *   body.replace(/<\/?[^>]+(>|$)/g, "").replace(/&nbsp;/g, "\n")
 *
 * Regex reading used here: a match starts at a '<'; since '/' is itself in
 * `[^>]`, the optional `\/?` never changes the extent of a match, which is
 * the '<', the maximal run of characters other than '>' after it (at least
 * one, or there is no match), and the closing '>' when there is one (`$`
 * matches only at the very end, as the pattern has no `m` flag). The global
 * replace scans left to right and resumes after each match.
 */
module HtmlText {

  /** After a tag's '<' (and its first character): skip to just past the next '>', or to the end. */
  function TagEnd(s: string): (r: string)
    ensures |r| <= |s|
  {
    if s == [] then []
    else if s[0] == '>' then s[1..]
    else TagEnd(s[1..])
  }

  /** Every '<' left is the last character or is followed by '>': nothing the tag pattern matches. */
  ghost predicate NoTagLeft(s: string) {
    forall i, j :: 0 <= i < j < |s| && j == i + 1 ==> s[i] == '<' ==> s[j] == '>'
  }

  /**
   * `replace(/<\/?[^>]+(>|$)/g, "")`. A '<' survives only where the pattern
   * cannot start: before a '>' (`<>`) or as the last character.
   */
  function StripTags(s: string): (r: string)
    decreases |s|
    ensures |r| <= |s|
    ensures s != [] && s[0] != '<' ==> r != [] && r[0] == s[0]
    ensures '<' !in s ==> r == s
    ensures NoTagLeft(r)
  {
    if s == [] then []
    else if s[0] == '<' && |s| > 1 && s[1] != '>' then StripTags(TagEnd(s[2..]))
    else
      var rest := StripTags(s[1..]);
      assert '<' !in s ==> '<' !in s[1..] by {
        if '<' in s[1..] {
          var k :| 0 <= k < |s[1..]| && s[1..][k] == '<';
          assert s[k + 1] == '<';
        }
      }
      assert s[0] == '<' && |s| > 1 ==> rest[0] == '>';
      assert NoTagLeft([s[0]] + rest) by {
        var r := [s[0]] + rest;
        forall i, j | 0 <= i < j < |r| && j == i + 1 && r[i] == '<' ensures r[j] == '>' {
          if i > 0 {
            assert rest[i - 1] == '<' && r[j] == rest[j - 1];
          }
        }
      }
      [s[0]] + rest
  }

  /** The strings tag stripping leaves unchanged are exactly those with no tag left. */
  lemma {:induction false} StripTagsFixedIff(t: string)
    ensures StripTags(t) == t <==> NoTagLeft(t)
  {
    if NoTagLeft(t) {
      NoTagLeftIsFixed(t);
    }
  }

  lemma {:induction false} NoTagLeftIsFixed(t: string)
    requires NoTagLeft(t)
    ensures StripTags(t) == t
  {
    if t != [] {
      assert NoTagLeft(t[1..]) by {
        var u := t[1..];
        forall i, j | 0 <= i < j < |u| && j == i + 1 && u[i] == '<' ensures u[j] == '>' {
          assert t[i + 1] == '<' && u[j] == t[j + 1];
        }
      }
      NoTagLeftIsFixed(t[1..]);
      assert t[0] == '<' && |t| > 1 ==> t[1] == '>';
      assert t == [t[0]] + t[1..];
    }
  }

  predicate StartsWith(s: string, p: string) {
    |p| <= |s| && s[..|p|] == p
  }

  /** `p` occurs somewhere in `s`. */
  predicate Occurs(p: string, s: string) {
    StartsWith(s, p) || (s != [] && Occurs(p, s[1..]))
  }

  const Nbsp: string := "&nbsp;"

  /**
   * `replace(/&nbsp;/g, "\n")`, left to right and non-overlapping. The text is
   * unchanged when it holds no `&nbsp;` and strictly shorter when it does.
   */
  function ReplaceNbsp(s: string): (r: string)
    ensures |r| <= |s|
    ensures |r| < |s| <==> Occurs(Nbsp, s)
    ensures !Occurs(Nbsp, s) ==> r == s
  {
    if s == [] then []
    else if StartsWith(s, Nbsp) then "\n" + ReplaceNbsp(s[|Nbsp|..])
    else [s[0]] + ReplaceNbsp(s[1..])
  }

  /** `replace` returns the text itself exactly when there is no `&nbsp;` in it. */
  lemma ReplaceNbspFixedIff(s: string)
    ensures ReplaceNbsp(s) == s <==> !Occurs(Nbsp, s)
  {
  }

  /** A prefix free of newlines can only come from the same prefix of the input. */
  lemma {:induction false} PrefixFromInput(t: string, p: string)
    requires '\n' !in p
    requires StartsWith(ReplaceNbsp(t), p)
    ensures StartsWith(t, p)
  {
    if p != [] {
      assert p[0] == ReplaceNbsp(t)[0];
      if StartsWith(t, Nbsp) {
        assert false;
      }
      var r := ReplaceNbsp(t);
      assert r == [t[0]] + ReplaceNbsp(t[1..]);
      assert StartsWith(ReplaceNbsp(t[1..]), p[1..]) by {
        assert r[1..][..|p| - 1] == r[..|p|][1..];
      }
      assert '\n' !in p[1..];
      PrefixFromInput(t[1..], p[1..]);
      assert t[..|p|] == [t[0]] + t[1..][..|p| - 1];
    }
  }

  lemma NbspAtFront(s: string)
    requires s != []
    ensures StartsWith(s, Nbsp) <==> s[0] == '&' && StartsWith(s[1..], "nbsp;")
  {
    if |s| >= 6 {
      assert s[..6] == [s[0]] + s[1..][..5];
    }
  }

  /** The replaced text holds no `&nbsp;`: a replacement never forms a new one. */
  lemma {:induction false} NoNbspLeft(s: string)
    ensures !Occurs(Nbsp, ReplaceNbsp(s))
  {
    if s != [] {
      var r := ReplaceNbsp(s);
      if StartsWith(s, Nbsp) {
        NoNbspLeft(s[|Nbsp|..]);
        assert r[1..] == ReplaceNbsp(s[|Nbsp|..]);
        assert r[0] == '\n';
      } else {
        NbspAtFront(s);
        NoNbspLeft(s[1..]);
        var rt := ReplaceNbsp(s[1..]);
        assert r == [s[0]] + rt;
        assert r[1..] == rt;
        // A `&nbsp;` at the front of r would need one at the front of s.
        assert StartsWith(r, Nbsp) ==> s[0] == '&' && StartsWith(rt, "nbsp;") by {
          if StartsWith(r, Nbsp) {
            assert r[..6][0] == '&';
            assert rt[..5] == r[..6][1..];
          }
        }
        if StartsWith(rt, "nbsp;") {
          PrefixFromInput(s[1..], "nbsp;");
        }
      }
    }
  }

  /** Replacing `&nbsp;` keeps every '<' followed by the '>' it was followed by. */
  lemma {:induction false} ReplaceKeepsNoTagLeft(s: string)
    requires NoTagLeft(s)
    ensures NoTagLeft(ReplaceNbsp(s))
  {
    if s != [] {
      var r := ReplaceNbsp(s);
      var k := if StartsWith(s, Nbsp) then |Nbsp| else 1;
      var tail := s[k..];
      assert NoTagLeft(tail) by {
        forall i, j | 0 <= i < j < |tail| && j == i + 1 && tail[i] == '<' ensures tail[j] == '>' {
          assert s[i + k] == '<' && tail[j] == s[j + k];
        }
      }
      ReplaceKeepsNoTagLeft(tail);
      var rt := ReplaceNbsp(tail);
      assert r[1..] == rt;
      if !StartsWith(s, Nbsp) && s[0] == '<' && rt != [] {
        assert s[1] == '>';
        assert StartsWith(tail, ">");
        assert !StartsWith(tail, Nbsp);
        assert rt[0] == '>';
      }
      forall i, j | 0 <= i < j < |r| && j == i + 1 && r[i] == '<' ensures r[j] == '>' {
        if i > 0 {
          assert rt[i - 1] == '<' && r[j] == rt[j - 1];
        }
      }
    }
  }

  /** The text the docx document is built from: tags stripped, then `&nbsp;` as newlines. */
  function Normalize(html: string): (text: string)
    ensures |text| <= |html|
    ensures !Occurs(Nbsp, text)
    ensures NoTagLeft(text)
  {
    var stripped := StripTags(html);
    NoNbspLeft(stripped);
    ReplaceKeepsNoTagLeft(stripped);
    ReplaceNbsp(stripped)
  }

  /** Text with no '<' and no `&nbsp;` goes through unchanged. */
  lemma PlainTextUnchanged(s: string)
    requires '<' !in s && !Occurs(Nbsp, s)
    ensures Normalize(s) == s
  {
  }

  /** Normalising twice is the same as normalising once. */
  lemma NormalizeIdempotent(s: string)
    ensures Normalize(Normalize(s)) == Normalize(s)
  {
    var t := Normalize(s);
    NoTagLeftIsFixed(t);
  }

  /** Text without '<' passes through tag stripping untouched, whatever follows it. */
  lemma {:induction false} StripTagsPlainPrefix(a: string, b: string)
    requires '<' !in a
    ensures StripTags(a + b) == a + StripTags(b)
  {
    if a != [] {
      assert (a + b)[1..] == a[1..] + b;
      StripTagsPlainPrefix(a[1..], b);
      assert a == [a[0]] + a[1..];
    } else {
      assert a + b == b;
    }
  }

  /** Text without '&' passes through `&nbsp;` replacement untouched, whatever follows it. */
  lemma {:induction false} ReplacePlainPrefix(a: string, b: string)
    requires '&' !in a
    ensures ReplaceNbsp(a + b) == a + ReplaceNbsp(b)
  {
    if a != [] {
      assert (a + b)[0] == a[0];
      assert (a + b)[1..] == a[1..] + b;
      ReplacePlainPrefix(a[1..], b);
      assert a == [a[0]] + a[1..];
    } else {
      assert a + b == b;
    }
  }

  lemma {:induction false} TagEndSkips(x: string, rest: string)
    requires '>' !in x
    ensures TagEnd(x + ">" + rest) == rest
  {
    if x == [] {
      assert x + ">" + rest == ">" + rest;
    } else {
      assert (x + ">" + rest)[1..] == x[1..] + ">" + rest;
      TagEndSkips(x[1..], rest);
    }
  }

  /** A complete tag `<name>` is removed, whatever follows it. */
  lemma TagRemoved(name: string, rest: string)
    requires name != [] && '>' !in name
    ensures StripTags("<" + name + ">" + rest) == StripTags(rest)
  {
    var s := "<" + name + ">" + rest;
    assert s[1] == name[0];
    assert s[2..] == name[1..] + ">" + rest;
    TagEndSkips(name[1..], rest);
  }

  /** A paragraph with one non-breaking space. */
  lemma ParagraphExample()
    ensures Normalize("<p>Hi&nbsp;there</p>") == "Hi\nthere"
  {
    assert "<p>Hi&nbsp;there</p>" == "<" + "p" + ">" + ("Hi&nbsp;there" + ("<" + "/p" + ">" + ""));
    StripParagraph();
    ReplaceParagraph();
  }

  lemma StripParagraph()
    ensures StripTags("<" + "p" + ">" + ("Hi&nbsp;there" + ("<" + "/p" + ">" + ""))) == "Hi&nbsp;there"
  {
    var inner := "Hi&nbsp;there";
    TagRemoved("p", inner + ("<" + "/p" + ">" + ""));
    StripTagsPlainPrefix(inner, "<" + "/p" + ">" + "");
    TagRemoved("/p", "");
  }

  lemma ReplaceParagraph()
    ensures ReplaceNbsp("Hi&nbsp;there") == "Hi\nthere"
  {
    assert "Hi&nbsp;there" == "Hi" + Nbsp + "there";
    NbspReplaced("Hi", "there");
    ReplacePlainPrefix("there", "");
    assert "there" + "" == "there";
    assert "Hi" + "\n" + "there" == "Hi\nthere";
  }

  /** The first `&nbsp;` becomes a newline, when nothing before it could start one. */
  lemma NbspReplaced(a: string, b: string)
    requires '&' !in a
    ensures ReplaceNbsp(a + Nbsp + b) == a + "\n" + ReplaceNbsp(b)
  {
    ReplacePlainPrefix(a, Nbsp + b);
    assert a + Nbsp + b == a + (Nbsp + b);
    var s := Nbsp + b;
    assert StartsWith(s, Nbsp);
    assert s[6..] == b;
  }

  /** `[^>]+` needs a character, so `<>` is never matched and is kept, whatever follows it. */
  lemma EmptyBracketsKept(b: string)
    ensures StripTags("<>" + b) == "<>" + StripTags(b)
  {
    var s := "<>" + b;
    var t := s[1..];
    assert s[0] == '<' && s[1] == '>';
    assert StripTags(s) == [s[0]] + StripTags(t);
    assert t == ">" + b && t[0] == '>';
    assert t[1..] == b;
    assert StripTags(t) == [t[0]] + StripTags(b);
  }

  /** A '<' at the very end has nothing after it for `[^>]+`, so it is kept. */
  lemma TrailingBracketKept(a: string)
    requires '<' !in a
    ensures StripTags(a + "<") == a + "<"
  {
    StripTagsPlainPrefix(a, "<");
  }

  /** The `$` alternative: a '<' with no '>' after it removes everything to the end. */
  lemma UnterminatedTagRemoved(x: string)
    requires x != [] && '>' !in x
    ensures StripTags("<" + x) == []
  {
    var s := "<" + x;
    assert s[2..] == x[1..];
    TagEndUnterminated(x[1..]);
  }

  lemma {:induction false} TagEndUnterminated(t: string)
    requires '>' !in t
    ensures TagEnd(t) == []
  {
    if t != [] {
      assert t[0] in t;
      TagEndUnterminated(t[1..]);
    }
  }

}
