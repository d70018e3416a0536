/** The string operations of the JavaScript runtime that the bot relies on, with JavaScript's semantics. */
module Text {

  // ----- Characters -----

  /** The ECMAScript WhiteSpace and LineTerminator code points: what `trim` removes and what `\s` matches. */
  predicate IsSpace(c: char) {
    || c == '\t' || c == '\n' || c == '\U{000B}' || c == '\U{000C}' || c == '\r'
    || c == ' ' || c == '\U{00A0}' || c == '\U{1680}' || ('\U{2000}' <= c <= '\U{200A}')
    || c == '\U{2028}' || c == '\U{2029}' || c == '\U{202F}' || c == '\U{205F}'
    || c == '\U{3000}' || c == '\U{FEFF}'
  }

  /** `toLowerCase` on one character, for the ASCII letters and the Turkish capitals that lower to one character. */
  function LowerChar(c: char): char {
    if 'A' <= c <= 'Z' then (c as int + 32) as char
    else if c == 'Ç' then 'ç'
    else if c == 'Ğ' then 'ğ'
    else if c == 'Ö' then 'ö'
    else if c == 'Ş' then 'ş'
    else if c == 'Ü' then 'ü'
    else c
  }

  /** Lower-casing leaves `s` as it is. */
  predicate IsLower(s: string) {
    forall i :: 0 <= i < |s| ==> LowerChar(s[i]) == s[i]
  }

  /** `s.toLowerCase()`. */
  function Lower(s: string): (r: string)
    ensures |r| == |s| && IsLower(r)
  {
    seq(|s|, i requires 0 <= i < |s| => LowerChar(s[i]))
  }

  lemma LowerKeepsLowerText(s: string)
    requires IsLower(s)
    ensures Lower(s) == s
  {
  }

  /** Lower-casing neither makes nor removes white space. */
  lemma LowerCharKeepsSpace(c: char)
    ensures IsSpace(LowerChar(c)) <==> IsSpace(c)
  {
  }

  // ----- Prefixes and substrings -----

  /** `s.startsWith(p)`. */
  predicate StartsWith(s: string, p: string) {
    |p| <= |s| && s[..|p|] == p
  }

  /** `s.endsWith(p)`. */
  predicate EndsWith(s: string, p: string) {
    |p| <= |s| && s[|s| - |p|..] == p
  }

  /** `p` occurs in `s` at position `i`. */
  predicate OccursAt(s: string, p: string, i: nat) {
    i + |p| <= |s| && s[i..i + |p|] == p
  }

  /** `s.includes(p)`: `p` occurs in `s` at some position. */
  predicate Contains(s: string, p: string) {
    exists i :: 0 <= i <= |s| - |p| && OccursAt(s, p, i)
  }

  /** An occurrence at position `i` is found. */
  lemma ContainsAt(s: string, p: string, i: nat)
    requires OccursAt(s, p, i)
    ensures Contains(s, p)
  {
  }

  /** Every string contains the empty string. */
  lemma ContainsEmpty(s: string)
    ensures Contains(s, "")
  {
    assert OccursAt(s, "", 0);
  }

  // ----- trim -----

  /** Drops the leading white space of `s`. */
  function TrimStart(s: string): (r: string)
    ensures |r| <= |s|
    ensures forall k :: 0 <= k < |s| - |r| ==> IsSpace(s[k])
    ensures r == [] || !IsSpace(r[0])
  {
    if |s| > 0 && IsSpace(s[0]) then TrimStart(s[1..]) else s
  }

  /** What `TrimStart` keeps is a suffix of `s`. */
  lemma {:induction false} TrimStartIsSuffix(s: string)
    ensures TrimStart(s) == s[|s| - |TrimStart(s)|..]
    decreases |s|
  {
    if |s| > 0 && IsSpace(s[0]) {
      TrimStartIsSuffix(s[1..]);
    }
  }

  /** Drops the trailing white space of `s`. */
  function TrimEnd(s: string): (r: string)
    ensures |r| <= |s|
    ensures forall k :: |r| <= k < |s| ==> IsSpace(s[k])
    ensures r == [] || !IsSpace(r[|r| - 1])
  {
    if |s| > 0 && IsSpace(s[|s| - 1]) then TrimEnd(s[..|s| - 1]) else s
  }

  /** What `TrimEnd` keeps is a prefix of `s`. */
  lemma {:induction false} TrimEndIsPrefix(s: string)
    ensures TrimEnd(s) == s[..|TrimEnd(s)|]
    decreases |s|
  {
    if |s| > 0 && IsSpace(s[|s| - 1]) {
      TrimEndIsPrefix(s[..|s| - 1]);
    }
  }

  /** `r` is the slice of `s` at position `i`, and only white space of `s` lies outside it. */
  predicate IsCoreAt(s: string, r: string, i: nat) {
    && OccursAt(s, r, i)
    && (forall k :: 0 <= k < i ==> IsSpace(s[k]))
    && (forall k :: i + |r| <= k < |s| ==> IsSpace(s[k]))
  }

  /** `s.trim()`: the slice of `s` left once white space is removed from both ends. */
  function Trim(s: string): (r: string)
    ensures r == [] || (!IsSpace(r[0]) && !IsSpace(r[|r| - 1]))
    ensures exists i: nat :: IsCoreAt(s, r, i)
  {
    var t := TrimStart(s);
    var r := TrimEnd(t);
    TrimStartIsSuffix(s);
    TrimEndIsPrefix(t);
    assert r == s[|s| - |t|..|s| - |t| + |r|];
    assert IsCoreAt(s, r, |s| - |t|);
    r
  }

  // ----- split(/\s+/) -----

  /** Splitting the rest `s` of a string when the characters `word` of the current word have been read. */
  function SplitFrom(s: string, word: string): (r: seq<string>)
    ensures |r| > 0
    decreases |s|
  {
    if s == [] then [word]
    else if IsSpace(s[0]) then [word] + SplitFrom(TrimStart(s[1..]), "")
    else SplitFrom(s[1..], word + [s[0]])
  }

  /** `s.split(/\s+/)`: the words between maximal runs of white space (empty first or last words when `s` starts or ends with white space). */
  function SplitOnSpaces(s: string): seq<string> {
    SplitFrom(s, "")
  }

  predicate HasNoSpace(w: string) {
    forall k :: 0 <= k < |w| ==> !IsSpace(w[k])
  }

  lemma {:induction false} SplitFromWordsHaveNoSpace(s: string, word: string)
    requires HasNoSpace(word)
    ensures forall i :: 0 <= i < |SplitFrom(s, word)| ==> HasNoSpace(SplitFrom(s, word)[i])
    decreases |s|
  {
    if s == [] {
    } else if IsSpace(s[0]) {
      SplitFromWordsHaveNoSpace(TrimStart(s[1..]), "");
    } else {
      SplitFromWordsHaveNoSpace(s[1..], word + [s[0]]);
    }
  }

  /** No word of a split contains white space. */
  lemma SplitWordsHaveNoSpace(s: string)
    ensures forall i :: 0 <= i < |SplitOnSpaces(s)| ==> HasNoSpace(SplitOnSpaces(s)[i])
  {
    SplitFromWordsHaveNoSpace(s, "");
  }

  /** `s` with all its white space removed. */
  function RemoveSpaces(s: string): string {
    if s == [] then [] else (if IsSpace(s[0]) then [] else [s[0]]) + RemoveSpaces(s[1..])
  }

  /** The words, written one after the other. */
  function Concat(ws: seq<string>): string {
    if ws == [] then [] else ws[0] + Concat(ws[1..])
  }

  lemma {:induction false} RemoveSpacesIgnoresLeadingSpace(s: string)
    ensures RemoveSpaces(TrimStart(s)) == RemoveSpaces(s)
  {
    if |s| > 0 && IsSpace(s[0]) {
      RemoveSpacesIgnoresLeadingSpace(s[1..]);
    }
  }

  lemma ConcatCons(w: string, ws: seq<string>)
    ensures Concat([w] + ws) == w + Concat(ws)
  {
    assert ([w] + ws)[1..] == ws;
  }

  lemma {:induction false} SplitFromConcat(s: string, word: string)
    ensures Concat(SplitFrom(s, word)) == word + RemoveSpaces(s)
    decreases |s|
  {
    if s == [] {
      ConcatCons(word, []);
    } else if IsSpace(s[0]) {
      var t := TrimStart(s[1..]);
      SplitFromConcat(t, "");
      RemoveSpacesIgnoresLeadingSpace(s[1..]);
      ConcatCons(word, SplitFrom(t, ""));
    } else {
      SplitFromConcat(s[1..], word + [s[0]]);
      assert RemoveSpaces(s) == [s[0]] + RemoveSpaces(s[1..]);
      assert word + [s[0]] + RemoveSpaces(s[1..]) == word + RemoveSpaces(s);
    }
  }

  /** Nothing but white space is lost by a split: the words concatenated are `s` without its white space. */
  lemma SplitLosesOnlySpaces(s: string)
    ensures Concat(SplitOnSpaces(s)) == RemoveSpaces(s)
  {
    SplitFromConcat(s, "");
  }

  lemma {:induction false} SplitFromWordsNonEmpty(s: string, word: string)
    requires word != [] || (s != [] && !IsSpace(s[0]))
    requires s == [] || !IsSpace(s[|s| - 1])
    ensures forall i :: 0 <= i < |SplitFrom(s, word)| ==> SplitFrom(s, word)[i] != []
    decreases |s|
  {
    if s == [] {
    } else if IsSpace(s[0]) {
      var t := TrimStart(s[1..]);
      assert t != [];
      TrimStartIsSuffix(s[1..]);
      assert t[|t| - 1] == s[|s| - 1];
      SplitFromWordsNonEmpty(t, "");
    } else {
      SplitFromWordsNonEmpty(s[1..], word + [s[0]]);
    }
  }

  /** A non-empty string with no white space at either end splits into non-empty words only. */
  lemma SplitTrimmedWordsNonEmpty(s: string)
    requires s != [] && !IsSpace(s[0]) && !IsSpace(s[|s| - 1])
    ensures forall i :: 0 <= i < |SplitOnSpaces(s)| ==> SplitOnSpaces(s)[i] != []
  {
    SplitFromWordsNonEmpty(s, "");
  }

  lemma {:induction false} SplitFromKeepsLower(s: string, word: string)
    requires IsLower(s) && IsLower(word)
    ensures forall i :: 0 <= i < |SplitFrom(s, word)| ==> IsLower(SplitFrom(s, word)[i])
    decreases |s|
  {
    if s == [] {
    } else if IsSpace(s[0]) {
      var t := TrimStart(s[1..]);
      TrimStartIsSuffix(s[1..]);
      assert t == s[|s| - |t|..];
      SplitFromKeepsLower(t, "");
    } else {
      SplitFromKeepsLower(s[1..], word + [s[0]]);
    }
  }

  /** The words of a lower-case string are lower-case. */
  lemma SplitKeepsLower(s: string)
    requires IsLower(s)
    ensures forall i :: 0 <= i < |SplitOnSpaces(s)| ==> IsLower(SplitOnSpaces(s)[i])
  {
    SplitFromKeepsLower(s, "");
  }

  // ----- join -----

  /** `xs.join(sep)`. */
  function Join(xs: seq<string>, sep: string): string {
    if |xs| == 0 then "" else if |xs| == 1 then xs[0] else xs[0] + sep + Join(xs[1..], sep)
  }

  /** The position at which `xs[i]` begins in `Join(xs, sep)`. */
  function JoinOffset(xs: seq<string>, sep: string, i: nat): nat
    requires i < |xs|
  {
    if i == 0 then 0 else |xs[0]| + |sep| + JoinOffset(xs[1..], sep, i - 1)
  }

  /** A string starts with any of its prefixes. */
  lemma StartsWithConcat(a: string, b: string)
    ensures StartsWith(a + b, a)
  {
    assert (a + b)[..|a|] == a;
  }

  /** Of three parts laid end to end, the first starts the whole and the middle one occurs right after it. */
  lemma ThreeParts(a: string, b: string, c: string)
    ensures StartsWith(a + b + c, a)
    ensures OccursAt(a + b + c, b, |a|)
  {
    assert (a + b + c)[..|a|] == a;
    assert (a + b + c)[|a|..|a| + |b|] == b;
  }

  /** A string ends with its last part. */
  lemma EndsWithConcat(a: string, b: string)
    ensures EndsWith(a + b, b)
  {
    assert (a + b)[|a + b| - |b|..] == b;
  }

  /** Of four parts laid end to end, the first starts the whole. */
  lemma StartsWithFirstOfFour(a: string, b: string, c: string, d: string)
    ensures StartsWith(a + b + c + d, a)
  {
    assert (a + b + c + d)[..|a|] == a;
  }

  /** An occurrence stays an occurrence, shifted, when text is put in front. */
  lemma OccursAfter(a: string, t: string, p: string, o: nat)
    requires OccursAt(t, p, o)
    ensures OccursAt(a + t, p, |a| + o)
  {
    assert (a + t)[|a| + o..|a| + o + |p|] == t[o..o + |p|];
  }

  /** An occurrence stays an occurrence when text is put behind. */
  lemma OccursBefore(t: string, b: string, p: string, o: nat)
    requires OccursAt(t, p, o)
    ensures OccursAt(t + b, p, o)
  {
    assert (t + b)[o..o + |p|] == t[o..o + |p|];
  }

  /** Consecutive items are one item and one separator apart. */
  lemma {:induction false} JoinOffsetNext(xs: seq<string>, sep: string, i: nat)
    requires i + 1 < |xs|
    ensures JoinOffset(xs, sep, i + 1) == JoinOffset(xs, sep, i) + |xs[i]| + |sep|
  {
    if i > 0 {
      JoinOffsetNext(xs[1..], sep, i - 1);
    }
  }

  /**
   * `Join(xs, sep)` is `xs[0]`, `sep`, `xs[1]`, ..., `sep`, `xs[|xs| - 1]`, laid end to end:
   * item `i` sits at `JoinOffset(xs, sep, i)`, a separator follows every item but the last, and the last ends the string.
   */
  lemma {:induction false} JoinPlaces(xs: seq<string>, sep: string, i: nat)
    requires i < |xs|
    ensures OccursAt(Join(xs, sep), xs[i], JoinOffset(xs, sep, i))
    ensures i + 1 < |xs| ==> OccursAt(Join(xs, sep), sep, JoinOffset(xs, sep, i) + |xs[i]|)
    ensures i + 1 == |xs| ==> JoinOffset(xs, sep, i) + |xs[i]| == |Join(xs, sep)|
  {
    if |xs| == 1 {
    } else if i == 0 {
      var rest := Join(xs[1..], sep);
      assert Join(xs, sep) == xs[0] + (sep + rest);
      assert (xs[0] + (sep + rest))[..|xs[0]|] == xs[0];
      assert (xs[0] + (sep + rest))[|xs[0]|..|xs[0]| + |sep|] == sep;
    } else {
      JoinPlaces(xs[1..], sep, i - 1);
      var rest := Join(xs[1..], sep);
      assert Join(xs, sep) == (xs[0] + sep) + rest;
      var o := JoinOffset(xs[1..], sep, i - 1);
      OccursAfter(xs[0] + sep, rest, xs[i], o);
      if i + 1 < |xs| {
        OccursAfter(xs[0] + sep, rest, sep, o + |xs[i]|);
      }
    }
  }

  /** The layout of `JoinPlaces`, behind a header `h`: every offset moves on by `|h|`. */
  lemma JoinPlacesAfter(h: string, xs: seq<string>, sep: string, i: nat)
    requires i < |xs|
    ensures StartsWith(h + Join(xs, sep), h)
    ensures OccursAt(h + Join(xs, sep), xs[i], |h| + JoinOffset(xs, sep, i))
    ensures i + 1 < |xs| ==> |h| + JoinOffset(xs, sep, i + 1) == |h| + JoinOffset(xs, sep, i) + |xs[i]| + |sep|
    ensures i + 1 < |xs| ==> OccursAt(h + Join(xs, sep), sep, |h| + JoinOffset(xs, sep, i) + |xs[i]|)
    ensures i + 1 == |xs| ==> |h| + JoinOffset(xs, sep, i) + |xs[i]| == |h + Join(xs, sep)|
  {
    var joined := Join(xs, sep);
    var o := JoinOffset(xs, sep, i);
    StartsWithConcat(h, joined);
    JoinPlaces(xs, sep, i);
    OccursAfter(h, joined, xs[i], o);
    if i + 1 < |xs| {
      JoinOffsetNext(xs, sep, i);
      OccursAfter(h, joined, sep, o + |xs[i]|);
    }
  }

  /** The items joined by `sep`, after a header `h` and before a footer `f`. */
  function Framed(h: string, xs: seq<string>, sep: string, f: string): string {
    h + Join(xs, sep) + f
  }

  /** A framed text starts with its header and ends with its footer. */
  lemma FramedEnds(h: string, xs: seq<string>, sep: string, f: string)
    ensures StartsWith(Framed(h, xs, sep, f), h)
    ensures EndsWith(Framed(h, xs, sep, f), f)
  {
    ThreeParts(h, Join(xs, sep), f);
    EndsWithConcat(h + Join(xs, sep), f);
  }

  /** The layout of `JoinPlaces` inside a framed text, the footer right after the last item. */
  lemma FramedPlaces(h: string, xs: seq<string>, sep: string, f: string, i: nat)
    requires i < |xs|
    ensures OccursAt(Framed(h, xs, sep, f), xs[i], |h| + JoinOffset(xs, sep, i))
    ensures i + 1 < |xs| ==> JoinOffset(xs, sep, i + 1) == JoinOffset(xs, sep, i) + |xs[i]| + |sep|
    ensures i + 1 < |xs| ==> OccursAt(Framed(h, xs, sep, f), sep, |h| + JoinOffset(xs, sep, i) + |xs[i]|)
    ensures i + 1 == |xs| ==> OccursAt(Framed(h, xs, sep, f), f, |h| + JoinOffset(xs, sep, i) + |xs[i]|)
  {
    var top := h + Join(xs, sep);
    JoinPlacesAfter(h, xs, sep, i);
    OccursBefore(top, f, xs[i], |h| + JoinOffset(xs, sep, i));
    if i + 1 < |xs| {
      OccursBefore(top, f, sep, |h| + JoinOffset(xs, sep, i) + |xs[i]|);
    } else {
      assert (top + f)[|top|..|top| + |f|] == f;
    }
  }

  // ----- Price cleaning -----

  /** An ASCII digit (what `\d` matches), a comma or a dot. */
  predicate IsPriceChar(c: char) {
    '0' <= c <= '9' || c == ',' || c == '.'
  }

  /** `s.replace(/[^\d,.]/g, '')`. */
  function CleanPrice(s: string): (r: string)
    ensures |r| <= |s|
    ensures forall i :: 0 <= i < |r| ==> IsPriceChar(r[i])
  {
    if s == [] then [] else (if IsPriceChar(s[0]) then [s[0]] else []) + CleanPrice(s[1..])
  }

  /** Cleaning keeps each digit, comma and dot of `s` as often as it occurs, and nothing else. */
  lemma {:induction false} CleanPriceKeepsPriceChars(s: string, c: char)
    ensures multiset(CleanPrice(s))[c] == if IsPriceChar(c) then multiset(s)[c] else 0
  {
    if s != [] {
      CleanPriceKeepsPriceChars(s[1..], c);
      var head := if IsPriceChar(s[0]) then [s[0]] else [];
      assert CleanPrice(s) == head + CleanPrice(s[1..]);
      assert multiset(CleanPrice(s)) == multiset(head) + multiset(CleanPrice(s[1..]));
      assert s == [s[0]] + s[1..];
      assert multiset(s) == multiset([s[0]]) + multiset(s[1..]);
    }
  }

  /** Cleaning works character by character, so it keeps the order of what it keeps. */
  lemma {:induction false} CleanPriceConcat(a: string, b: string)
    ensures CleanPrice(a + b) == CleanPrice(a) + CleanPrice(b)
  {
    if a == [] {
      assert a + b == b;
    } else {
      CleanPriceConcat(a[1..], b);
      var head := if IsPriceChar(a[0]) then [a[0]] else [];
      assert (a + b)[0] == a[0] && (a + b)[1..] == a[1..] + b;
      calc {
        CleanPrice(a + b);
        head + CleanPrice(a[1..] + b);
        head + (CleanPrice(a[1..]) + CleanPrice(b));
        (head + CleanPrice(a[1..])) + CleanPrice(b);
        CleanPrice(a) + CleanPrice(b);
      }
    }
  }

  /** A string of digits, commas and dots is left as it is. */
  lemma {:induction false} CleanPriceKeepsCleanText(s: string)
    requires forall i :: 0 <= i < |s| ==> IsPriceChar(s[i])
    ensures CleanPrice(s) == s
  {
    if s != [] {
      CleanPriceKeepsCleanText(s[1..]);
    }
  }

  /** Cleaning twice is cleaning once. */
  lemma CleanPriceIdempotent(s: string)
    ensures CleanPrice(CleanPrice(s)) == CleanPrice(s)
  {
    CleanPriceKeepsCleanText(CleanPrice(s));
  }

  // ----- Decimal numerals -----

  function DigitChar(d: nat): char
    requires d < 10
  {
    ('0' as int + d) as char
  }

  predicate IsDigits(s: string) {
    forall i :: 0 <= i < |s| ==> '0' <= s[i] <= '9'
  }

  /** `String(n)` for a non-negative integer: decimal digits without a leading zero. */
  function NatToString(n: nat): (r: string)
    ensures |r| > 0 && IsDigits(r)
    ensures r[0] == '0' <==> n == 0
    decreases n
  {
    if n < 10 then [DigitChar(n)] else NatToString(n / 10) + [DigitChar(n % 10)]
  }

  /** The number that a string of decimal digits denotes. */
  function DecimalValue(s: string): nat
    requires IsDigits(s)
  {
    if s == [] then 0 else DecimalValue(s[..|s| - 1]) * 10 + (s[|s| - 1] as int - '0' as int)
  }

  /** Reading back the numeral of `n` gives `n`. */
  lemma {:induction false} DecimalRoundTrip(n: nat)
    ensures DecimalValue(NatToString(n)) == n
    decreases n
  {
    if n >= 10 {
      DecimalRoundTrip(n / 10);
      var r := NatToString(n);
      assert r[..|r| - 1] == NatToString(n / 10);
    }
  }

  /** Distinct numbers have distinct numerals. */
  lemma NatToStringInjective(m: nat, n: nat)
    ensures NatToString(m) == NatToString(n) ==> m == n
  {
    DecimalRoundTrip(m);
    DecimalRoundTrip(n);
  }
}
