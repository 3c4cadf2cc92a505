/** Character classes and the String.prototype operations (trim, split, join, includes,
    toLowerCase, literal replace) that the resume pipeline and the form pages rely on.
    A `char` is one Unicode scalar value; for text outside the Basic Multilingual
    Plane a JavaScript string has more code units than the model has characters. */
module JsText {
  import opened Optional

  /** JavaScript's WhiteSpace and LineTerminator characters: exactly the set that a
      regular-expression `\s` matches and that `String.prototype.trim` removes. */
  predicate IsSpace(c: char) {
    c == '\t' || c == '\n' || c == '\U{000B}' || c == '\U{000C}' || c == '\r' || c == ' '
    || c == '\U{00A0}' || c == '\U{1680}' || ('\U{2000}' <= c <= '\U{200A}')
    || c == '\U{2028}' || c == '\U{2029}' || c == '\U{202F}' || c == '\U{205F}'
    || c == '\U{3000}' || c == '\U{FEFF}'
  }

  /** The characters a regular-expression `.` refuses to match. */
  predicate IsLineTerminator(c: char) {
    c == '\n' || c == '\r' || c == '\U{2028}' || c == '\U{2029}'
  }

  predicate IsUpper(c: char) { 'A' <= c <= 'Z' }
  predicate IsLower(c: char) { 'a' <= c <= 'z' }
  predicate IsDigit(c: char) { '0' <= c <= '9' }

  /** `\w` of a regular expression without the unicode flag. */
  predicate IsWordChar(c: char) { IsUpper(c) || IsLower(c) || IsDigit(c) || c == '_' }

  /** Lower-casing of one character; only ASCII letters are folded. */
  function LowerChar(c: char): char {
    if IsUpper(c) then (c as int + 32) as char else c
  }

  function ToLower(s: string): (r: string)
    ensures |r| == |s|
    ensures forall i :: 0 <= i < |s| ==> r[i] == LowerChar(s[i])
  {
    seq(|s|, i requires 0 <= i < |s| => LowerChar(s[i]))
  }

  /** `s` holds `w` at position `i`, character for character. */
  predicate MatchesAt(s: string, i: nat, w: string) {
    i + |w| <= |s| && s[i..i + |w|] == w
  }

  /** `s` holds `w` at position `i` when ASCII case is ignored (a pattern with the
      `i` flag: a non-ASCII character never folds onto an ASCII one). */
  predicate MatchesAtCI(s: string, i: nat, w: string) {
    i + |w| <= |s| && forall k :: 0 <= k < |w| ==> LowerChar(s[i + k]) == LowerChar(w[k])
  }

  /** The first position at or after `from` where `w` occurs (`indexOf`). */
  function IndexOfFrom(s: string, w: string, from: nat): (r: Option<nat>)
    decreases |s| - from
    ensures r.Some? ==> from <= r.value && MatchesAt(s, r.value, w)
    ensures r.Some? ==> forall j :: from <= j < r.value ==> !MatchesAt(s, j, w)
    ensures r.None? ==> forall j :: from <= j ==> !MatchesAt(s, j, w)
  {
    if from + |w| > |s| then None
    else if s[from..from + |w|] == w then Some(from)
    else IndexOfFrom(s, w, from + 1)
  }

  /** The first position at or after `from` where `w` occurs, ignoring ASCII case. */
  function IndexOfFromCI(s: string, w: string, from: nat): (r: Option<nat>)
    decreases |s| - from
    ensures r.Some? ==> from <= r.value && MatchesAtCI(s, r.value, w)
    ensures r.Some? ==> forall j :: from <= j < r.value ==> !MatchesAtCI(s, j, w)
    ensures r.None? ==> forall j :: from <= j ==> !MatchesAtCI(s, j, w)
  {
    if from + |w| > |s| then None
    else if MatchesAtCI(s, from, w) then Some(from)
    else IndexOfFromCI(s, w, from + 1)
  }

  /** `String.prototype.includes`. */
  predicate Includes(s: string, w: string) {
    IndexOfFrom(s, w, 0).Some?
  }

  lemma IncludesAt(s: string, w: string, i: nat)
    requires MatchesAt(s, i, w)
    ensures Includes(s, w)
  {
  }

  /** A text that holds `r` holds everything `r` holds. */
  lemma IncludesTransitive(s: string, r: string, q: string)
    requires Includes(s, r) && Includes(r, q)
    ensures Includes(s, q)
  {
    var i := IndexOfFrom(s, r, 0).value;
    var j := IndexOfFrom(r, q, 0).value;
    assert s[i + j..i + j + |q|] == s[i..i + |r|][j..j + |q|];
    IncludesAt(s, q, i + j);
  }

  /** A text that holds `w` holds its first character. */
  lemma IncludesFirstChar(s: string, w: string)
    requires |w| > 0 && Includes(s, w)
    ensures w[0] in s
  {
    var i := IndexOfFrom(s, w, 0).value;
    assert s[i] == s[i..i + |w|][0];
  }

  /** The index of the first `c` in `s`, None when there is none. */
  function IndexOfChar(s: string, c: char): (r: Option<nat>)
    ensures r.Some? ==> r.value < |s| && s[r.value] == c && c !in s[..r.value]
    ensures r.Some? ==> forall k :: 0 <= k < r.value ==> s[k] != c
    ensures r.None? ==> c !in s
  {
    if c !in s then None
    else
      var i :| 0 <= i < |s| && s[i] == c;
      Some(FirstOf(s, c, i))
  }

  function FirstOf(s: string, c: char, i: nat): (r: nat)
    requires i < |s| && s[i] == c
    ensures r <= i && s[r] == c && c !in s[..r]
  {
    if c !in s[..i] then i
    else
      var j :| 0 <= j < i && s[j] == c;
      FirstOf(s, c, j)
  }

  lemma IncludesSingle(s: string, c: char)
    ensures Includes(s, [c]) <==> c in s
  {
    if c in s {
      var i :| 0 <= i < |s| && s[i] == c;
      assert s[i..i + 1] == [c];
      assert MatchesAt(s, i, [c]);
    } else {
      forall j: nat ensures !MatchesAt(s, j, [c]) {
        if j < |s| { assert s[j..j + 1] == [s[j]]; }
      }
    }
  }

  /** Index of the first character of `s` at or after `i` that is not white space. */
  function SkipSpaces(s: string, i: nat): (k: nat)
    requires i <= |s|
    decreases |s| - i
    ensures i <= k <= |s|
    ensures forall j :: i <= j < k ==> IsSpace(s[j])
    ensures k < |s| ==> !IsSpace(s[k])
  {
    if i < |s| && IsSpace(s[i]) then SkipSpaces(s, i + 1) else i
  }

  /** The end of `s[lo..j]` once its trailing white space is dropped. */
  function BackSpaces(s: string, lo: nat, j: nat): (k: nat)
    requires lo <= j <= |s|
    decreases j
    ensures lo <= k <= j
    ensures forall m :: k <= m < j ==> IsSpace(s[m])
    ensures k > lo ==> !IsSpace(s[k - 1])
  {
    if j > lo && IsSpace(s[j - 1]) then BackSpaces(s, lo, j - 1) else j
  }

  /** `String.prototype.trim`. */
  function Trim(s: string): (r: string)
    ensures |r| <= |s|
    ensures r == [] || (!IsSpace(r[0]) && !IsSpace(r[|r| - 1]))
    ensures r == [] <==> forall k :: 0 <= k < |s| ==> IsSpace(s[k])
    ensures forall c :: c in r ==> c in s
  {
    var a := SkipSpaces(s, 0);
    var b := BackSpaces(s, a, |s|);
    assert a < |s| ==> b > a;
    s[a..b]
  }

  /** A string that neither starts nor ends with white space is its own trim. */
  lemma TrimNoEdges(s: string)
    requires s == [] || (!IsSpace(s[0]) && !IsSpace(s[|s| - 1]))
    ensures Trim(s) == s
  {
    var a := SkipSpaces(s, 0);
    if s != [] {
      assert a == 0;
      assert BackSpaces(s, a, |s|) == |s|;
    }
  }

  lemma TrimIdempotent(s: string)
    ensures Trim(Trim(s)) == Trim(s)
  {
    TrimNoEdges(Trim(s));
  }

  /** A trimmed string keeps its inside: `Trim(s)` is `s` less a white-space prefix
      and a white-space suffix. */
  lemma TrimIsInfix(s: string) returns (a: nat)
    ensures a + |Trim(s)| <= |s| && s[a..a + |Trim(s)|] == Trim(s)
    ensures forall k :: 0 <= k < a ==> IsSpace(s[k])
    ensures forall k :: a + |Trim(s)| <= k < |s| ==> IsSpace(s[k])
  {
    a := SkipSpaces(s, 0);
    var b := BackSpaces(s, a, |s|);
    assert Trim(s) == s[a..b];
  }

  /** `Array.prototype.join` over strings: the pieces with `sep` between them. */
  function Join(xs: seq<string>, sep: string): string {
    if |xs| == 0 then ""
    else if |xs| == 1 then xs[0]
    else xs[0] + sep + Join(xs[1..], sep)
  }

  /** `String.prototype.split` with a non-empty literal separator (a regular
      expression made of literal characters splits the same way). */
  function Split(s: string, sep: string): (parts: seq<string>)
    requires |sep| > 0
    decreases |s|
    ensures |parts| >= 1
    ensures Join(parts, sep) == s
    ensures forall k :: 0 <= k < |parts| ==> !Includes(parts[k], sep)
  {
    match IndexOfFrom(s, sep, 0)
    case None => [s]
    case Some(i) =>
      var rest := Split(s[i + |sep|..], sep);
      PrefixBeforeFirst(s, sep, i);
      assert s == s[..i] + sep + s[i + |sep|..];
      assert ([s[..i]] + rest)[1..] == rest;
      [s[..i]] + rest
  }

  /** The text before the first occurrence of `sep` does not contain `sep`. */
  lemma PrefixBeforeFirst(s: string, sep: string, i: nat)
    requires |sep| > 0 && i <= |s|
    requires forall j :: 0 <= j < i ==> !MatchesAt(s, j, sep)
    ensures !Includes(s[..i], sep)
  {
    forall j: nat ensures !MatchesAt(s[..i], j, sep) {
      if j + |sep| <= i {
        assert !MatchesAt(s, j, sep);
        assert s[..i][j..j + |sep|] == s[j..j + |sep|];
      }
    }
  }

  /** Splitting on a single character undoes joining with it, when no piece holds
      that character: what a textarea shows as `join('\n')` and stores back as
      `split('\n')` comes back unchanged. */
  lemma {:induction false} SplitJoinChar(xs: seq<string>, c: char)
    requires |xs| >= 1
    requires forall k :: 0 <= k < |xs| ==> c !in xs[k]
    ensures Split(Join(xs, [c]), [c]) == xs
  {
    var s := Join(xs, [c]);
    if |xs| == 1 {
      IncludesSingle(s, c);
      assert IndexOfFrom(s, [c], 0).None?;
    } else {
      var t := Join(xs[1..], [c]);
      assert s == xs[0] + [c] + t;
      var n := |xs[0]|;
      assert MatchesAt(s, n, [c]) by { assert s[n..n + 1] == [c]; }
      forall j | 0 <= j < n ensures !MatchesAt(s, j, [c]) {
        assert s[j] == xs[0][j];
        assert s[j..j + 1] == [s[j]];
      }
      assert IndexOfFrom(s, [c], 0) == Some(n);
      assert s[..n] == xs[0];
      assert s[n + 1..] == t;
      SplitJoinChar(xs[1..], c);
      assert [xs[0]] + xs[1..] == xs;
    }
  }

  /** Global replacement of a literal pattern, scanning left to right without
      overlap (`s.replace(/pat/g, rep)` with a pattern of literal characters). */
  function ReplaceAll(s: string, pat: string, rep: string): (r: string)
    requires |pat| > 0
    decreases |s|
  {
    match IndexOfFrom(s, pat, 0)
    case None => s
    case Some(i) => s[..i] + rep + ReplaceAll(s[i + |pat|..], pat, rep)
  }

  /** Replacing every occurrence is splitting on the pattern and joining with the
      replacement. */
  lemma {:induction false} ReplaceAllIsSplitJoin(s: string, pat: string, rep: string)
    requires |pat| > 0
    decreases |s|
    ensures ReplaceAll(s, pat, rep) == Join(Split(s, pat), rep)
  {
    match IndexOfFrom(s, pat, 0)
    case None =>
    case Some(i) =>
      ReplaceAllIsSplitJoin(s[i + |pat|..], pat, rep);
      var rest := Split(s[i + |pat|..], pat);
      assert Split(s, pat) == [s[..i]] + rest;
  }

  /** Replacing every occurrence of one character by text without it leaves none. */
  lemma {:induction false} ReplaceCharRemovesIt(s: string, c: char, rep: string)
    requires c !in rep
    decreases |s|
    ensures c !in ReplaceAll(s, [c], rep)
  {
    match IndexOfFrom(s, [c], 0)
    case None =>
      IncludesSingle(s, c);
    case Some(i) =>
      ReplaceCharRemovesIt(s[i + 1..], c, rep);
      forall j | 0 <= j < i ensures s[j] != c {
        assert !MatchesAt(s, j, [c]);
        assert s[j..j + 1] == [s[j]];
      }
  }

  predicate StartsWith(s: string, w: string) {
    MatchesAt(s, 0, w)
  }

  /** A text without the pattern is left as it is. */
  lemma ReplaceAllAbsent(s: string, pat: string, rep: string)
    requires |pat| > 0 && !Includes(s, pat)
    ensures ReplaceAll(s, pat, rep) == s
  {
  }

  /** Replacing never brings in a character that neither the text nor the
      replacement has. */
  lemma {:induction false} ReplaceAllKeepsOut(s: string, pat: string, rep: string, c: char)
    requires |pat| > 0 && c !in s && c !in rep
    decreases |s|
    ensures c !in ReplaceAll(s, pat, rep)
  {
    match IndexOfFrom(s, pat, 0)
    case None =>
    case Some(i) =>
      assert c !in s[i + |pat|..] by {
        forall k | i + |pat| <= k < |s| ensures s[k] != c { }
      }
      ReplaceAllKeepsOut(s[i + |pat|..], pat, rep, c);
  }

  /** Every character of a piece is in the joined text. */
  lemma {:induction false} JoinHasPieces(xs: seq<string>, sep: string, k: nat, c: char)
    requires k < |xs| && c in xs[k]
    ensures c in Join(xs, sep)
  {
    if |xs| > 1 {
      if k > 0 {
        JoinHasPieces(xs[1..], sep, k - 1, c);
      }
    }
  }

  /** A character in neither the pieces nor the separator is not in the joined text. */
  lemma {:induction false} JoinKeepsOut(xs: seq<string>, sep: string, c: char)
    requires c !in sep && forall k :: 0 <= k < |xs| ==> c !in xs[k]
    ensures c !in Join(xs, sep)
  {
    if |xs| > 1 {
      JoinKeepsOut(xs[1..], sep, c);
    }
  }

  /** The pieces of a split hold no character the text does not hold. */
  lemma SplitKeepsOut(s: string, sep: string, c: char)
    requires |sep| > 0 && c !in s
    ensures forall k :: 0 <= k < |Split(s, sep)| ==> c !in Split(s, sep)[k]
  {
    var parts := Split(s, sep);
    forall k | 0 <= k < |parts| ensures c !in parts[k] {
      if c in parts[k] {
        JoinHasPieces(parts, sep, k, c);
      }
    }
  }

  /** The pieces of a split on one character do not contain it. */
  lemma SplitDropsSeparator(s: string, c: char)
    ensures forall k :: 0 <= k < |Split(s, [c])| ==> c !in Split(s, [c])[k]
  {
    var parts := Split(s, [c]);
    forall k | 0 <= k < |parts| ensures c !in parts[k] {
      IncludesSingle(parts[k], c);
    }
  }

  /** Joining one more piece appends the separator and the piece. */
  lemma {:induction false} JoinSnoc(xs: seq<string>, sep: string, x: string)
    requires |xs| >= 1
    ensures Join(xs + [x], sep) == Join(xs, sep) + sep + x
  {
    if |xs| > 1 {
      assert (xs + [x])[1..] == xs[1..] + [x];
      JoinSnoc(xs[1..], sep, x);
    }
  }

  /** The joined text ends as its last piece ends. */
  lemma {:induction false} JoinEndsWithLast(xs: seq<string>, sep: string)
    requires |xs| >= 1 && |xs[|xs| - 1]| > 0
    ensures |Join(xs, sep)| > 0 && Join(xs, sep)[|Join(xs, sep)| - 1] == xs[|xs| - 1][|xs[|xs| - 1]| - 1]
  {
    if |xs| > 1 {
      JoinEndsWithLast(xs[1..], sep);
    }
  }
}
