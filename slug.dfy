/** The post slug rule shared by the admin posts route and `createPost`:
    lower-case the title, turn every maximal run of characters outside [a-z0-9]
    into one hyphen, then drop a hyphen at the start and one at the end. */
module Slug {
  import opened Strings
  import opened Seqs

  /** A character of the class [a-z0-9]. */
  predicate IsSlugChar(c: char)
  {
    IsLower(c) || IsDigit(c)
  }

  predicate NotHyphen(c: char) { c != '-' }

  /** The maximal leading run of characters outside [a-z0-9], removed. */
  function DropRun(s: string): (r: string)
    ensures |r| <= |s| && r == s[|s| - |r|..]
    ensures r == [] || IsSlugChar(r[0])
    ensures forall i :: 0 <= i < |s| - |r| ==> !IsSlugChar(s[i])
  {
    if s == [] || IsSlugChar(s[0]) then s else DropRun(s[1..])
  }

  /** `s.replace(/[^a-z0-9]+/g, "-")`. */
  function ReplaceRuns(s: string): (r: string)
    decreases |s|
  {
    if s == [] then []
    else if IsSlugChar(s[0]) then [s[0]] + ReplaceRuns(s[1..])
    else "-" + ReplaceRuns(DropRun(s[1..]))
  }

  /** `s.replace(/(^-|-$)/g, "")`: a leading hyphen and a trailing hyphen are removed
      (a lone "-" is removed once). */
  function TrimHyphens(s: string): (r: string)
  {
    var t := if |s| > 0 && s[0] == '-' then s[1..] else s;
    if |t| > 0 && t[|t| - 1] == '-' then t[..|t| - 1] else t
  }

  /** The slug of a post title. */
  function Slugify(title: string): string
  {
    TrimHyphens(ReplaceRuns(Lower(title)))
  }

  // ---------------------------------------------------------------------------
  // What a slug looks like

  predicate SlugAlphabet(s: string)
  {
    forall i :: 0 <= i < |s| ==> IsSlugChar(s[i]) || s[i] == '-'
  }

  predicate NoDoubleHyphen(s: string)
  {
    forall i :: 0 <= i < |s| - 1 ==> s[i] != '-' || s[i + 1] != '-'
  }

  predicate NoEdgeHyphen(s: string)
  {
    s == [] || (s[0] != '-' && s[|s| - 1] != '-')
  }

  predicate IsSlug(s: string)
  {
    SlugAlphabet(s) && NoDoubleHyphen(s) && NoEdgeHyphen(s)
  }

  /** The letters and digits of a string, in order. */
  function Alnums(s: string): string
  {
    Filter(IsSlugChar, s)
  }

  /** A string with its hyphens removed. */
  function WithoutHyphens(s: string): string
  {
    Filter(NotHyphen, s)
  }

  // ---------------------------------------------------------------------------
  // Properties of the run replacement

  lemma {:induction false} ReplaceRunsShape(s: string)
    ensures SlugAlphabet(ReplaceRuns(s)) && NoDoubleHyphen(ReplaceRuns(s))
    ensures |ReplaceRuns(s)| == 0 <==> s == []
    ensures s != [] && IsSlugChar(s[0]) ==> ReplaceRuns(s)[0] == s[0]
    decreases |s|
  {
    if s != [] {
      if IsSlugChar(s[0]) {
        ReplaceRunsShape(s[1..]);
      } else {
        var d := DropRun(s[1..]);
        ReplaceRunsShape(d);
        var r := ReplaceRuns(d);
        assert ReplaceRuns(s) == "-" + r;
        assert r == [] || r[0] == d[0];
      }
    }
  }

  lemma {:induction false} DropRunKeepsAlnums(s: string)
    ensures Alnums(DropRun(s)) == Alnums(s)
  {
    if s != [] && !IsSlugChar(s[0]) {
      DropRunKeepsAlnums(s[1..]);
    }
  }

  lemma {:induction false} ReplaceRunsKeepsAlnums(s: string)
    ensures WithoutHyphens(ReplaceRuns(s)) == Alnums(s)
    decreases |s|
  {
    if s != [] {
      if IsSlugChar(s[0]) {
        ReplaceRunsKeepsAlnums(s[1..]);
        assert ([s[0]] + ReplaceRuns(s[1..]))[1..] == ReplaceRuns(s[1..]);
      } else {
        var d := DropRun(s[1..]);
        ReplaceRunsKeepsAlnums(d);
        DropRunKeepsAlnums(s[1..]);
        assert ("-" + ReplaceRuns(d))[1..] == ReplaceRuns(d);
      }
    }
  }

  lemma TrimHyphensKeepsRest(s: string)
    ensures WithoutHyphens(TrimHyphens(s)) == WithoutHyphens(s)
  {
    var t := if |s| > 0 && s[0] == '-' then s[1..] else s;
    if |s| > 0 && s[0] == '-' {
      assert s == [s[0]] + t;
      FilterAppend(NotHyphen, [s[0]], t);
    }
    assert WithoutHyphens(t) == WithoutHyphens(s);
    if |t| > 0 && t[|t| - 1] == '-' {
      assert t == t[..|t| - 1] + [t[|t| - 1]];
      FilterAppend(NotHyphen, t[..|t| - 1], [t[|t| - 1]]);
    }
  }

  /** A letter or digit in front is kept as it is. */
  lemma ReplaceRunsKeep(x: char, t: string)
    requires IsSlugChar(x)
    ensures ReplaceRuns([x] + t) == [x] + ReplaceRuns(t)
  {
    assert ([x] + t)[1..] == t;
  }

  /** A single separator before a letter or digit (or the end) becomes one hyphen. */
  lemma ReplaceRunsSeparator(c: char, rest: string)
    requires !IsSlugChar(c)
    requires rest == [] || IsSlugChar(rest[0])
    ensures ReplaceRuns([c] + rest) == "-" + ReplaceRuns(rest)
  {
    assert ([c] + rest)[1..] == rest;
    assert DropRun(rest) == rest;
  }

  /** A prefix of letters and digits is kept as it is. */
  lemma {:induction false} ReplaceRunsPrefix(w: string, t: string)
    requires forall i :: 0 <= i < |w| ==> IsSlugChar(w[i])
    ensures ReplaceRuns(w + t) == w + ReplaceRuns(t)
    decreases |w|
  {
    if w == [] {
      assert w + t == t;
    } else {
      var rest := w[1..];
      forall i | 0 <= i < |rest| ensures IsSlugChar(rest[i]) {
        assert rest[i] == w[i + 1];
      }
      ReplaceRunsPrefix(rest, t);
      assert w + t == [w[0]] + (rest + t);
      ReplaceRunsKeep(w[0], rest + t);
      assert [w[0]] + (rest + ReplaceRuns(t)) == w + ReplaceRuns(t);
    }
  }

  /** A word of [a-z0-9] followed by one separator character and a text that starts
      with a letter or digit: the word is kept and the separator becomes a hyphen. */
  lemma ReplaceRunsWord(w: string, c: char, rest: string)
    requires forall i :: 0 <= i < |w| ==> IsSlugChar(w[i])
    requires !IsSlugChar(c)
    requires rest == [] || IsSlugChar(rest[0])
    ensures ReplaceRuns(w + [c] + rest) == w + "-" + ReplaceRuns(rest)
  {
    assert w + [c] + rest == w + ([c] + rest);
    ReplaceRunsPrefix(w, [c] + rest);
    ReplaceRunsSeparator(c, rest);
  }

  /** A character of [A-Za-z0-9]. */
  predicate IsWordChar(c: char)
  {
    IsSlugChar(LowerChar(c))
  }

  /** A non-empty word of ASCII letters and digits. */
  predicate IsWord(w: string)
  {
    w != [] && forall i :: 0 <= i < |w| ==> IsWordChar(w[i])
  }

  function LowerWords(ws: seq<string>): (r: seq<string>)
    ensures |r| == |ws|
  {
    seq(|ws|, i requires 0 <= i < |ws| => Lower(ws[i]))
  }

  lemma {:induction false} LowerJoin(ws: seq<string>, sep: char)
    requires !IsUpper(sep)
    ensures Lower(Join(ws, sep)) == Join(LowerWords(ws), sep)
  {
    if |ws| > 1 {
      LowerJoin(ws[1..], sep);
      assert LowerWords(ws)[1..] == LowerWords(ws[1..]);
      assert Lower(ws[0] + [sep] + Join(ws[1..], sep)) == Lower(ws[0]) + [sep] + Lower(Join(ws[1..], sep));
    }
  }

  lemma TrimHyphensNoEdge(s: string)
    requires NoEdgeHyphen(s)
    ensures TrimHyphens(s) == s
  {
  }

  /** A non-empty word of [a-z0-9]. */
  predicate IsSlugWord(w: string)
  {
    w != [] && forall i :: 0 <= i < |w| ==> IsSlugChar(w[i])
  }

  lemma {:induction false} ReplaceRunsJoin(ws: seq<string>)
    requires forall k :: 0 <= k < |ws| ==> IsSlugWord(ws[k])
    ensures ReplaceRuns(Join(ws, ' ')) == Join(ws, '-')
  {
    if |ws| == 1 {
      ReplaceRunsOfSlugShape(ws[0]);
    } else if |ws| > 1 {
      ReplaceRunsJoin(ws[1..]);
      var rest := Join(ws[1..], ' ');
      assert rest == ws[1] || rest == ws[1] + [' '] + Join(ws[2..], ' ');
      assert rest[0] == ws[1][0];
      ReplaceRunsWord(ws[0], ' ', rest);
    }
  }

  lemma {:induction false} JoinEdges(ws: seq<string>, sep: char)
    requires |ws| >= 1 && forall k :: 0 <= k < |ws| ==> ws[k] != []
    ensures var j := Join(ws, sep); |j| > 0 && j[0] == ws[0][0] && j[|j| - 1] == ws[|ws| - 1][|ws[|ws| - 1]| - 1]
  {
    if |ws| > 1 {
      var rest := ws[1..];
      forall k | 0 <= k < |rest| ensures rest[k] != [] {
        assert rest[k] == ws[k + 1];
      }
      JoinEdges(rest, sep);
      var tail := Join(rest, sep);
      var last := ws[|ws| - 1];
      assert rest[|rest| - 1] == last;
      assert tail[|tail| - 1] == last[|last| - 1];
      var j := ws[0] + [sep] + tail;
      assert Join(ws, sep) == j;
      assert j[0] == ws[0][0];
      assert j[|j| - 1] == tail[|tail| - 1];
    }
  }

  lemma LowerWordsAreSlugWords(ws: seq<string>)
    requires forall k :: 0 <= k < |ws| ==> IsWord(ws[k])
    ensures forall k :: 0 <= k < |ws| ==> IsSlugWord(LowerWords(ws)[k])
  {
    forall k | 0 <= k < |ws|
      ensures IsSlugWord(LowerWords(ws)[k])
    {
      assert LowerWords(ws)[k] == Lower(ws[k]);
    }
  }

  lemma SlugWordsJoinNoEdge(ws: seq<string>)
    requires |ws| >= 1 && forall k :: 0 <= k < |ws| ==> IsSlugWord(ws[k])
    ensures NoEdgeHyphen(Join(ws, '-'))
  {
    JoinEdges(ws, '-');
    var first, last := ws[0], ws[|ws| - 1];
    assert IsSlugWord(first) && IsSlugWord(last);
    assert IsSlugChar(first[0]) && IsSlugChar(last[|last| - 1]);
  }

  /** A title made of plain words separated by single spaces gets the lower-cased
      words joined by hyphens as its slug. */
  lemma SlugOfWords(ws: seq<string>)
    requires |ws| >= 1 && forall k :: 0 <= k < |ws| ==> IsWord(ws[k])
    ensures Slugify(Join(ws, ' ')) == Join(LowerWords(ws), '-')
  {
    var lws := LowerWords(ws);
    LowerJoin(ws, ' ');
    LowerWordsAreSlugWords(ws);
    ReplaceRunsJoin(lws);
    SlugWordsJoinNoEdge(lws);
    TrimHyphensNoEdge(Join(lws, '-'));
  }

  // ---------------------------------------------------------------------------
  // The properties of the slug rule

  /** Every slug uses only [a-z0-9-], never starts or ends with a hyphen and never
      holds two hyphens in a row. */
  /** A slice of a text of slug characters without `--` is again such a text. */
  lemma SliceKeepsShape(s: string, a: nat, b: nat)
    requires a <= b <= |s|
    requires SlugAlphabet(s) && NoDoubleHyphen(s)
    ensures SlugAlphabet(s[a..b]) && NoDoubleHyphen(s[a..b])
  {
    var u := s[a..b];
    forall i | 0 <= i < |u| ensures IsSlugChar(u[i]) || u[i] == '-' {
      assert u[i] == s[a + i];
    }
    forall i | 0 <= i < |u| - 1 ensures u[i] != '-' || u[i + 1] != '-' {
      assert u[i] == s[a + i] && u[i + 1] == s[a + i + 1];
    }
  }

  /** Stripping the edge hyphens of a text of slug characters without `--`
      leaves a slug. */
  lemma TrimHyphensShape(s: string)
    requires SlugAlphabet(s) && NoDoubleHyphen(s)
    ensures IsSlug(TrimHyphens(s))
  {
    var t := if |s| > 0 && s[0] == '-' then s[1..] else s;
    if |s| > 0 && s[0] == '-' {
      SliceKeepsShape(s, 1, |s|);
      if |s| > 1 {
        assert t[0] == s[1];
      }
    }
    assert t == [] || t[0] != '-';
    if |t| > 0 && t[|t| - 1] == '-' {
      var r := t[..|t| - 1];
      SliceKeepsShape(t, 0, |t| - 1);
      if |t| >= 2 {
        assert r[|r| - 1] == t[|t| - 2];
        assert r[0] == t[0];
      }
    }
  }

  lemma SlugifyIsSlug(title: string)
    ensures IsSlug(Slugify(title))
  {
    ReplaceRunsShape(Lower(title));
    TrimHyphensShape(ReplaceRuns(Lower(title)));
  }

  /** Removing the hyphens of a slug leaves exactly the letters and digits of the
      lower-cased title, in order. */
  lemma SlugKeepsAlnums(title: string)
    ensures WithoutHyphens(Slugify(title)) == Alnums(Lower(title))
  {
    ReplaceRunsKeepsAlnums(Lower(title));
    TrimHyphensKeepsRest(ReplaceRuns(Lower(title)));
  }

  /** The slug is empty exactly when the title has no ASCII letter or digit. */
  lemma SlugEmptyIffNoAlnum(title: string)
    ensures Slugify(title) == [] <==> Alnums(Lower(title)) == []
  {
    var r := Slugify(title);
    SlugifyIsSlug(title);
    SlugKeepsAlnums(title);
    if r != [] {
      assert r[0] != '-';
      assert r[0] in WithoutHyphens(r);
    }
  }

  lemma {:induction false} ReplaceRunsOfSlugShape(s: string)
    requires SlugAlphabet(s) && NoDoubleHyphen(s)
    ensures ReplaceRuns(s) == s
    decreases |s|
  {
    if s != [] {
      ReplaceRunsOfSlugShape(s[1..]);
      if !IsSlugChar(s[0]) {
        assert s[0] == '-';
        assert DropRun(s[1..]) == s[1..];
        assert s == "-" + s[1..];
      } else {
        assert s == [s[0]] + s[1..];
      }
    }
  }

  /** A slug is its own slug. */
  lemma SlugOfSlug(s: string)
    requires IsSlug(s)
    ensures Slugify(s) == s
  {
    LowerOfLower(s);
    ReplaceRunsOfSlugShape(s);
  }

  /** Deriving a slug twice gives the same slug as deriving it once. */
  lemma SlugifyIdempotent(title: string)
    ensures Slugify(Slugify(title)) == Slugify(title)
  {
    SlugifyIsSlug(title);
    SlugOfSlug(Slugify(title));
  }
}
