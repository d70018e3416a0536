/** Where `split(/\s+/)` breaks a text: exactly at its runs of white space, and nowhere else. */
module Words {
  import opened Text

  /** `s` with each maximal run of white space replaced by one space. */
  function CollapseSpaces(s: string): string
    decreases |s|
  {
    if s == [] then []
    else if IsSpace(s[0]) then " " + CollapseSpaces(TrimStart(s[1..]))
    else [s[0]] + CollapseSpaces(s[1..])
  }

  /** Joining a word in front of a non-empty list puts the separator between them. */
  lemma JoinCons(w: string, ws: seq<string>, sep: string)
    requires ws != []
    ensures Join([w] + ws, sep) == w + sep + Join(ws, sep)
  {
    assert ([w] + ws)[1..] == ws;
  }

  lemma AppendAssoc(a: string, b: string, c: string)
    ensures a + b + c == a + (b + c)
  {
  }

  /** The step of `SplitFromJoin` at white space: the word ends and the run becomes one space. */
  lemma SplitFromJoinAtSpace(s: string, word: string)
    requires s != [] && IsSpace(s[0])
    requires Join(SplitFrom(TrimStart(s[1..]), ""), " ") == CollapseSpaces(TrimStart(s[1..]))
    ensures Join(SplitFrom(s, word), " ") == word + CollapseSpaces(s)
  {
    var t := TrimStart(s[1..]);
    var c := CollapseSpaces(t);
    assert SplitFrom(s, word) == [word] + SplitFrom(t, "");
    assert CollapseSpaces(s) == " " + c;
    JoinCons(word, SplitFrom(t, ""), " ");
    AppendAssoc(word, " ", c);
  }

  /** The step of `SplitFromJoin` at any other character: it joins the current word. */
  lemma SplitFromJoinAtLetter(s: string, word: string)
    requires s != [] && !IsSpace(s[0])
    requires Join(SplitFrom(s[1..], word + [s[0]]), " ") == word + [s[0]] + CollapseSpaces(s[1..])
    ensures Join(SplitFrom(s, word), " ") == word + CollapseSpaces(s)
  {
    var c := CollapseSpaces(s[1..]);
    assert SplitFrom(s, word) == SplitFrom(s[1..], word + [s[0]]);
    assert CollapseSpaces(s) == [s[0]] + c;
    AppendAssoc(word, [s[0]], c);
  }

  lemma {:induction false} SplitFromJoin(s: string, word: string)
    ensures Join(SplitFrom(s, word), " ") == word + CollapseSpaces(s)
    decreases |s|
  {
    if s == [] {
    } else if IsSpace(s[0]) {
      SplitFromJoin(TrimStart(s[1..]), "");
      SplitFromJoinAtSpace(s, word);
    } else {
      SplitFromJoin(s[1..], word + [s[0]]);
      SplitFromJoinAtLetter(s, word);
    }
  }

  /** The words of a split, joined by single spaces, are `s` with every run of white space collapsed to one space: words break exactly at the runs. */
  lemma SplitBreaksAtSpaceRuns(s: string)
    ensures Join(SplitOnSpaces(s), " ") == CollapseSpaces(s)
  {
    SplitFromJoin(s, "");
  }

  /** The length of the first word of `s`: the position of its first white space, or its length. */
  function WordEnd(s: string): (n: nat)
    ensures n <= |s|
  {
    if s == [] || IsSpace(s[0]) then 0 else 1 + WordEnd(s[1..])
  }

  /** A word free of white space, followed by nothing or by white space, is the first word. */
  lemma {:induction false} WordEndOf(w: string, rest: string)
    requires HasNoSpace(w)
    requires rest == [] || IsSpace(rest[0])
    ensures WordEnd(w + rest) == |w|
  {
    if w == [] {
      assert w + rest == rest;
    } else {
      assert (w + rest)[1..] == w[1..] + rest;
      WordEndOf(w[1..], rest);
    }
  }

  /** Joining words free of white space with single spaces loses nothing: the words can be read back. */
  lemma {:induction false} JoinSpaceInjective(a: seq<string>, b: seq<string>)
    requires |a| > 0 && |b| > 0
    requires forall i :: 0 <= i < |a| ==> HasNoSpace(a[i])
    requires forall i :: 0 <= i < |b| ==> HasNoSpace(b[i])
    requires Join(a, " ") == Join(b, " ")
    ensures a == b
    decreases |a|
  {
    var j := Join(a, " ");
    var ra := if |a| > 1 then " " + Join(a[1..], " ") else "";
    var rb := if |b| > 1 then " " + Join(b[1..], " ") else "";
    assert j == a[0] + ra && j == b[0] + rb;
    WordEndOf(a[0], ra);
    WordEndOf(b[0], rb);
    assert a[0] == j[..|a[0]|] && b[0] == j[..|b[0]|];
    assert |ra| == |rb|;
    if |a| > 1 && |b| > 1 {
      assert Join(a[1..], " ") == ra[1..] == rb[1..] == Join(b[1..], " ");
      JoinSpaceInjective(a[1..], b[1..]);
      assert a == [a[0]] + a[1..] && b == [b[0]] + b[1..];
    }
  }

  /** The split is the only list of words free of white space that joins, with single spaces, into the collapsed text. */
  lemma SplitIsDeterminedByBreaks(s: string, ws: seq<string>)
    requires |ws| > 0 && forall i :: 0 <= i < |ws| ==> HasNoSpace(ws[i])
    requires Join(ws, " ") == CollapseSpaces(s)
    ensures ws == SplitOnSpaces(s)
  {
    SplitBreaksAtSpaceRuns(s);
    SplitWordsHaveNoSpace(s);
    JoinSpaceInjective(ws, SplitOnSpaces(s));
  }

}
