/** `slugify`: the URL slug an article title becomes. Python lower-cases the
    title, turns every run of characters outside [a-z0-9] into one "-",
    collapses runs of "-" and strips "-" from both ends. */
module Slug {
  import opened Text

  predicate IsSlugChar(c: char)
  {
    'a' <= c <= 'z' || '0' <= c <= '9'
  }

  /** Every character is a slug character or a dash. */
  predicate SlugAlphabet(s: string)
  {
    forall i :: 0 <= i < |s| ==> IsSlugChar(s[i]) || s[i] == '-'
  }

  /** No two adjacent dashes. */
  predicate NoDoubleDash(s: string)
  {
    forall i :: 0 <= i < |s| - 1 ==> !(s[i] == '-' && s[i + 1] == '-')
  }

  /** What a slug looks like: [a-z0-9-] only, no "--", no dash at either end. */
  predicate IsSlug(s: string)
  {
    SlugAlphabet(s) && NoDoubleDash(s) && (s != [] ==> s[0] != '-' && s[|s| - 1] != '-')
  }

  /** The [a-z0-9] characters of `s`, in order. */
  function SlugChars(s: string): string
  {
    if s == [] then ""
    else (if IsSlugChar(s[0]) then [s[0]] else "") + SlugChars(s[1..])
  }

  /** Python's `c.lower()` for one character, as far as it can matter to a
      slug: A-Z, KELVIN SIGN (lower-cases to "k") and LATIN CAPITAL LETTER I
      WITH DOT ABOVE (lower-cases to "i" plus a combining dot). Every other
      character is kept: its lower-case form holds no [a-z0-9] character, so
      the next step turns it into a dash either way. */
  function LowerChar(c: char): string
  {
    if 'A' <= c <= 'Z' then [(c as int + 32) as char]
    else if c == '\U{212A}' then "k"
    else if c == '\U{0130}' then "i\U{0307}"
    else [c]
  }

  /** `text.lower()` */
  function Lower(s: string): string
  {
    if s == [] then "" else LowerChar(s[0]) + Lower(s[1..])
  }

  /** `re.sub(r"[^a-z0-9]+", "-", s)`: each maximal run of characters outside
      [a-z0-9] becomes a single dash; `inRun` says the previous character
      already belonged to such a run. */
  function DashRuns(s: string, inRun: bool): string
  {
    if s == [] then ""
    else if IsSlugChar(s[0]) then [s[0]] + DashRuns(s[1..], false)
    else (if inRun then "" else "-") + DashRuns(s[1..], true)
  }

  /** `re.sub(r"-+", "-", s)`: each maximal run of dashes becomes one dash. */
  function SquashDashes(s: string, inRun: bool): string
  {
    if s == [] then ""
    else if s[0] != '-' then [s[0]] + SquashDashes(s[1..], false)
    else (if inRun then "" else "-") + SquashDashes(s[1..], true)
  }

  /** `s.lstrip("-")` */
  function StripLeft(s: string): (r: string)
    ensures |r| <= |s| && r == s[|s| - |r|..]
    ensures r != [] ==> r[0] != '-'
    ensures forall i :: 0 <= i < |s| - |r| ==> s[i] == '-'
  {
    if s != [] && s[0] == '-' then StripLeft(s[1..]) else s
  }

  /** `s.rstrip("-")` */
  function StripRight(s: string): (r: string)
    ensures |r| <= |s| && r == s[..|r|]
    ensures r != [] ==> r[|r| - 1] != '-'
    ensures forall i :: |r| <= i < |s| ==> s[i] == '-'
  {
    if s != [] && s[|s| - 1] == '-' then StripRight(s[..|s| - 1]) else s
  }

  /** `slugify(text)` */
  function Slugify(text: string): (r: string)
    ensures IsSlug(r)
    ensures SlugChars(r) == SlugChars(Lower(text))
  {
    var dashed := DashRuns(Lower(text), false);
    var squashed := SquashDashes(dashed, false);
    DashRunsShape(Lower(text), false);
    SquashDashesKeeps(dashed, false);
    StripKeepsSlugShape(squashed);
    StripRight(StripLeft(squashed))
  }

  /** After the first substitution only [a-z0-9-] remains, no two dashes
      touch, and the [a-z0-9] characters are exactly those of the input. */
  lemma {:induction false} DashRunsShape(s: string, inRun: bool)
    ensures SlugAlphabet(DashRuns(s, inRun))
    ensures NoDoubleDash(DashRuns(s, inRun))
    ensures inRun && DashRuns(s, inRun) != [] ==> DashRuns(s, inRun)[0] != '-'
    ensures SlugChars(DashRuns(s, inRun)) == SlugChars(s)
  {
    if s != [] {
      var rest := DashRuns(s[1..], !IsSlugChar(s[0]));
      DashRunsShape(s[1..], !IsSlugChar(s[0]));
      var head := if IsSlugChar(s[0]) then [s[0]] else if inRun then "" else "-";
      assert DashRuns(s, inRun) == head + rest;
      SlugCharsAppend(head, rest);
      assert head + rest == if head == "" then rest else [head[0]] + rest;
      if head != "" {
        assert (head + rest)[1..] == rest;
      }
    }
  }

  lemma {:induction false} SlugCharsAppend(a: string, b: string)
    ensures SlugChars(a + b) == SlugChars(a) + SlugChars(b)
  {
    if a == [] {
      assert a + b == b;
    } else {
      var head := if IsSlugChar(a[0]) then [a[0]] else "";
      assert (a + b)[0] == a[0];
      assert (a + b)[1..] == a[1..] + b;
      assert SlugChars(a + b) == head + SlugChars(a[1..] + b);
      assert SlugChars(a) == head + SlugChars(a[1..]);
      SlugCharsAppend(a[1..], b);
      assert head + (SlugChars(a[1..]) + SlugChars(b)) == (head + SlugChars(a[1..])) + SlugChars(b);
    }
  }

  /** The second substitution leaves a string without "--" as it is. */
  lemma {:induction false} SquashDashesKeeps(s: string, inRun: bool)
    requires NoDoubleDash(s)
    requires inRun && s != [] ==> s[0] != '-'
    ensures SquashDashes(s, inRun) == s
  {
    if s != [] {
      assert NoDoubleDash(s[1..]) by {
        forall i | 0 <= i < |s[1..]| - 1 ensures !(s[1..][i] == '-' && s[1..][i + 1] == '-') {
          assert s[1..][i] == s[i + 1] && s[1..][i + 1] == s[i + 2];
        }
      }
      if |s| > 1 && s[0] == '-' {
        assert s[1] != '-';
      }
      SquashDashesKeeps(s[1..], s[0] == '-');
      assert [s[0]] + s[1..] == s;
    }
  }

  /** Stripping dashes from both ends keeps [a-z0-9-], keeps "--" out, and
      drops no [a-z0-9] character. */
  lemma StripKeepsSlugShape(s: string)
    requires SlugAlphabet(s) && NoDoubleDash(s)
    ensures IsSlug(StripRight(StripLeft(s)))
    ensures SlugChars(StripRight(StripLeft(s))) == SlugChars(s)
  {
    var l := StripLeft(s);
    var r := StripRight(l);
    StrippedIsSlug(s, l, r);
    StripLeftKeepsSlugChars(s);
    StripRightKeepsSlugChars(l);
  }

  lemma StrippedIsSlug(s: string, l: string, r: string)
    requires SlugAlphabet(s) && NoDoubleDash(s)
    requires l == StripLeft(s) && r == StripRight(l)
    ensures IsSlug(r)
  {
    StripLeftShape(s);
    StripRightShape(l);
    if r != [] {
      assert r[0] == l[..|r|][0] == l[0];
    }
  }

  lemma {:induction false} StripLeftShape(s: string)
    requires SlugAlphabet(s) && NoDoubleDash(s)
    ensures SlugAlphabet(StripLeft(s)) && NoDoubleDash(StripLeft(s))
  {
    if s != [] && s[0] == '-' {
      SliceKeepsShape(s, 1, |s|);
      assert s[1..|s|] == s[1..];
      StripLeftShape(s[1..]);
    }
  }

  lemma {:induction false} StripRightShape(s: string)
    requires SlugAlphabet(s) && NoDoubleDash(s)
    ensures SlugAlphabet(StripRight(s)) && NoDoubleDash(StripRight(s))
    decreases |s|
  {
    if s != [] && s[|s| - 1] == '-' {
      SliceKeepsShape(s, 0, |s| - 1);
      assert s[0..|s| - 1] == s[..|s| - 1];
      StripRightShape(s[..|s| - 1]);
    }
  }

  /** Dropping leading dashes drops no [a-z0-9] character. */
  lemma {:induction false} StripLeftKeepsSlugChars(s: string)
    ensures SlugChars(StripLeft(s)) == SlugChars(s)
  {
    if s != [] && s[0] == '-' {
      StripLeftKeepsSlugChars(s[1..]);
      assert SlugChars(s) == "" + SlugChars(s[1..]);
    }
  }

  /** Dropping trailing dashes drops no [a-z0-9] character. */
  lemma {:induction false} StripRightKeepsSlugChars(s: string)
    ensures SlugChars(StripRight(s)) == SlugChars(s)
    decreases |s|
  {
    if s != [] && s[|s| - 1] == '-' {
      var front := s[..|s| - 1];
      StripRightKeepsSlugChars(front);
      assert s == front + "-";
      SlugCharsAppend(front, "-");
      assert SlugChars("-") == "" + SlugChars("");
      assert SlugChars(front) + "" == SlugChars(front);
    }
  }

  lemma SliceKeepsShape(s: string, i: nat, j: nat)
    requires i <= j <= |s|
    requires SlugAlphabet(s) && NoDoubleDash(s)
    ensures SlugAlphabet(s[i..j]) && NoDoubleDash(s[i..j])
  {
    forall k | 0 <= k < j - i ensures IsSlugChar(s[i..j][k]) || s[i..j][k] == '-' {
      assert s[i..j][k] == s[i + k];
    }
    forall k | 0 <= k < j - i - 1 ensures !(s[i..j][k] == '-' && s[i..j][k + 1] == '-') {
      assert s[i..j][k] == s[i + k] && s[i..j][k + 1] == s[i + k + 1];
    }
  }

  /** `slugify` is idempotent: slugifying a slug gives it back. */
  lemma SlugifyIdempotent(text: string)
    ensures Slugify(Slugify(text)) == Slugify(text)
  {
    SlugifyFixesSlugs(Slugify(text));
  }

  /** A string that already is a slug is its own slug. */
  lemma SlugifyFixesSlugs(t: string)
    requires IsSlug(t)
    ensures Slugify(t) == t
  {
    LowerKeepsSlugAlphabet(t);
    DashRunsKeeps(t, false);
    SquashDashesKeeps(t, false);
  }

  lemma {:induction false} LowerKeepsSlugAlphabet(s: string)
    requires SlugAlphabet(s)
    ensures Lower(s) == s
  {
    if s != [] {
      assert SlugAlphabet(s[1..]) by {
        forall i | 0 <= i < |s[1..]| ensures IsSlugChar(s[1..][i]) || s[1..][i] == '-' {
          assert s[1..][i] == s[i + 1];
        }
      }
      LowerKeepsSlugAlphabet(s[1..]);
      assert [s[0]] + s[1..] == s;
    }
  }

  lemma {:induction false} DashRunsKeeps(s: string, inRun: bool)
    requires SlugAlphabet(s) && NoDoubleDash(s)
    requires inRun && s != [] ==> s[0] != '-'
    ensures DashRuns(s, inRun) == s
  {
    if s != [] {
      assert SlugAlphabet(s[1..]) && NoDoubleDash(s[1..]) by {
        forall i | 0 <= i < |s[1..]| ensures IsSlugChar(s[1..][i]) || s[1..][i] == '-' {
          assert s[1..][i] == s[i + 1];
        }
        forall i | 0 <= i < |s[1..]| - 1 ensures !(s[1..][i] == '-' && s[1..][i + 1] == '-') {
          assert s[1..][i] == s[i + 1] && s[1..][i + 1] == s[i + 2];
        }
      }
      if |s| > 1 && s[0] == '-' {
        assert s[1] != '-';
      }
      DashRunsKeeps(s[1..], !IsSlugChar(s[0]));
      assert [s[0]] + s[1..] == s;
    }
  }

  /** The slug of a title with no letter or digit is empty. */
  lemma SlugOfNoAlnumIsEmpty(text: string)
    requires SlugChars(Lower(text)) == ""
    ensures Slugify(text) == ""
  {
    var r := Slugify(text);
    if r != [] {
      SlugAlphabetFirstSlugChar(r);
      assert false;
    }
  }

  /** A non-empty slug starts with a [a-z0-9] character, so it has some. */
  lemma SlugAlphabetFirstSlugChar(r: string)
    requires IsSlug(r) && r != []
    ensures SlugChars(r) != ""
  {
    assert IsSlugChar(r[0]);
  }

  // ---------------------------------------------------------------------
  // Where the dashes go: a slug is the input's words joined by "-"
  // ---------------------------------------------------------------------

  /** The word being read, `cur`, as a list: nothing when it is empty. */
  function Flush(cur: string): seq<string>
  {
    if cur == "" then [] else [cur]
  }

  /** The maximal runs of [a-z0-9] characters of `s`, in order, the first
      one continuing `cur`. Every other character ends a word. */
  function WordsFrom(s: string, cur: string): seq<string>
  {
    if s == [] then Flush(cur)
    else if IsSlugChar(s[0]) then WordsFrom(s[1..], cur + [s[0]])
    else Flush(cur) + WordsFrom(s[1..], "")
  }

  /** The words of `s`: its maximal runs of [a-z0-9] characters. */
  function Words(s: string): seq<string>
  {
    WordsFrom(s, "")
  }

  /** `slugify` joins the words of the lower-cased title with single
      dashes: one dash between two words, none before the first or after
      the last, whatever ran between them in the title. */
  lemma SlugifyJoinsWords(text: string)
    ensures Slugify(text) == Join("-", Words(Lower(text)))
  {
    var low := Lower(text);
    var dashed := DashRuns(low, false);
    DashRunsShape(low, false);
    SquashDashesKeeps(dashed, false);
    var l := StripLeft(dashed);
    var r := StripRight(l);
    assert Slugify(text) == r;
    DashRunsWords(low, false, "");
    StripLeftWords(dashed);
    StripRightWords(l);
    SlugIsJoinedWords(r, "");
    assert "" + r == r;
  }

  /** The first substitution does not move a word boundary. */
  lemma {:induction false} DashRunsWords(s: string, inRun: bool, cur: string)
    requires inRun ==> cur == ""
    ensures WordsFrom(DashRuns(s, inRun), cur) == WordsFrom(s, cur)
  {
    if s != [] {
      var rest := DashRuns(s[1..], !IsSlugChar(s[0]));
      DashRunsWords(s[1..], !IsSlugChar(s[0]), if IsSlugChar(s[0]) then cur + [s[0]] else "");
      if IsSlugChar(s[0]) {
        assert ([s[0]] + rest)[0] == s[0] && ([s[0]] + rest)[1..] == rest;
      } else if !inRun {
        assert ("-" + rest)[0] == '-' && ("-" + rest)[1..] == rest;
      } else {
        assert DashRuns(s, inRun) == "" + rest == rest;
        assert WordsFrom(s, cur) == Flush(cur) + WordsFrom(s[1..], "");
        assert Flush(cur) + WordsFrom(s[1..], "") == WordsFrom(s[1..], "");
      }
    }
  }

  /** Leading dashes end no word. */
  lemma {:induction false} StripLeftWords(s: string)
    ensures WordsFrom(StripLeft(s), "") == WordsFrom(s, "")
  {
    if s != [] && s[0] == '-' {
      StripLeftWords(s[1..]);
      assert WordsFrom(s, "") == [] + WordsFrom(s[1..], "");
    }
  }

  /** Trailing dashes end no word. */
  lemma StripRightWords(s: string)
    ensures WordsFrom(StripRight(s), "") == WordsFrom(s, "")
  {
    var r := StripRight(s);
    var back := s[|r|..];
    assert s == r + back;
    forall i | 0 <= i < |back| ensures back[i] == '-' {
      assert back[i] == s[|r| + i];
    }
    DashesAfterWords(r, back, "");
  }

  lemma {:induction false} DashesAfterWords(x: string, dashes: string, cur: string)
    requires forall i :: 0 <= i < |dashes| ==> dashes[i] == '-'
    ensures WordsFrom(x + dashes, cur) == WordsFrom(x, cur)
  {
    if x == [] {
      assert x + dashes == dashes;
      DashesAloneWords(dashes, cur);
    } else {
      assert (x + dashes)[0] == x[0] && (x + dashes)[1..] == x[1..] + dashes;
      DashesAfterWords(x[1..], dashes, if IsSlugChar(x[0]) then cur + [x[0]] else "");
    }
  }

  lemma {:induction false} DashesAloneWords(dashes: string, cur: string)
    requires forall i :: 0 <= i < |dashes| ==> dashes[i] == '-'
    ensures WordsFrom(dashes, cur) == Flush(cur)
  {
    if dashes != [] {
      DashesAloneWords(dashes[1..], "");
      assert Flush(cur) + [] == Flush(cur);
    }
  }

  /** A slug is its own words joined by dashes; `cur` is the part of the
      current word already read. */
  lemma {:induction false} SlugIsJoinedWords(u: string, cur: string)
    requires SlugAlphabet(u) && NoDoubleDash(u)
    requires u != [] ==> u[|u| - 1] != '-'
    requires u != [] && u[0] == '-' ==> cur != ""
    ensures cur + u == Join("-", WordsFrom(u, cur))
    decreases |u|, 1
  {
    if u == [] {
      assert cur + u == cur;
    } else if IsSlugChar(u[0]) {
      WordGrows(u, cur);
    } else {
      WordEnds(u, cur);
    }
  }

  /** A word character extends the current word. */
  lemma WordGrows(u: string, cur: string)
    requires SlugAlphabet(u) && NoDoubleDash(u) && u != [] && IsSlugChar(u[0])
    requires u[|u| - 1] != '-'
    ensures cur + u == Join("-", WordsFrom(u, cur))
    decreases |u|, 0
  {
    var t, c := u[1..], cur + [u[0]];
    SliceKeepsShape(u, 1, |u|);
    assert u[1..|u|] == t;
    assert t != [] ==> t[|t| - 1] == u[|u| - 1];
    assert c != "";
    SlugIsJoinedWords(t, c);
    assert WordsFrom(u, cur) == WordsFrom(t, c);
    assert u == [u[0]] + t;
    LetterBetween(cur, u[0], u, t);
  }

  lemma LetterBetween(cur: string, x: char, u: string, t: string)
    requires u == [x] + t
    ensures (cur + [x]) + t == cur + u
  {
  }

  /** A dash ends the current word and one more word follows it. */
  lemma WordEnds(u: string, cur: string)
    requires SlugAlphabet(u) && NoDoubleDash(u) && u != [] && !IsSlugChar(u[0])
    requires u[|u| - 1] != '-' && cur != ""
    ensures cur + u == Join("-", WordsFrom(u, cur))
    decreases |u|, 0
  {
    var t := u[1..];
    assert u[0] == '-' && |u| >= 2;
    assert t[0] == u[1] && u[1] != '-';
    SliceKeepsShape(u, 1, |u|);
    assert u[1..|u|] == t;
    assert t[|t| - 1] == u[|u| - 1];
    var w := WordsFrom(t, "");
    SlugIsJoinedWords(t, "");
    assert "" + t == t;
    JoinNonEmpty(w, t);
    DashEndsWord(u, cur);
    JoinCons(cur, w);
    assert u == "-" + t;
    DashBetween(cur, u, t);
  }

  lemma DashBetween(cur: string, u: string, t: string)
    requires u == "-" + t
    ensures cur + u == cur + "-" + t
  {
  }

  lemma DashEndsWord(u: string, cur: string)
    requires u != [] && !IsSlugChar(u[0]) && cur != ""
    ensures WordsFrom(u, cur) == [cur] + WordsFrom(u[1..], "")
  {
    assert Flush(cur) == [cur];
  }

  lemma JoinNonEmpty(w: seq<string>, t: string)
    requires t == Join("-", w) && t != ""
    ensures w != []
  {
  }

  lemma JoinCons(x: string, w: seq<string>)
    requires w != []
    ensures Join("-", [x] + w) == x + "-" + Join("-", w)
  {
    assert ([x] + w)[1..] == w;
  }

  lemma LowerTitle()
    ensures Lower("A b") == "a b"
  {
    assert Lower("b") == "b";
    assert Lower(" b") == " b";
  }

  lemma WordsTitle()
    ensures Words("a b") == ["a", "b"]
  {
    var b := "b";
    assert b[1..] == "";
    assert WordsFrom(b, "") == WordsFrom("", "" + [b[0]]);
    assert "" + [b[0]] == "b";
    var ab := "a b";
    assert ab[1..] == " b" && ab[1..][1..] == "b";
    assert "" + [ab[0]] == "a";
    assert WordsFrom(ab, "") == WordsFrom(" b", "a");
    assert WordsFrom(" b", "a") == ["a"] + WordsFrom(b, "");
  }

  /** For instance, punctuation and spaces between words become one dash. */
  lemma SlugifyTitle()
    ensures Slugify("A b") == "a-b"
  {
    SlugifyJoinsWords("A b");
    LowerTitle();
    WordsTitle();
    assert Join("-", ["a", "b"]) == "a" + "-" + "b";
  }
}
