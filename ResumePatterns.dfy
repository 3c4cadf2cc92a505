/** The regular expressions of `parseResumeText` (backend/server.js), each written as
    a hand-made scanner that finds the match JavaScript's backtracking engine reports,
    and proved against a declarative description of the strings the pattern accepts. */
module ResumePatterns {
  import opened Optional
  import opened JsText

  /** The character classes that the patterns repeat with `+` or `*`. */
  datatype CharClass =
    | LocalPart        // [\w.-]
    | TldPart          // [\w"]
    | Lowercase        // [a-z]
    | UserName         // [a-zA-Z0-9_-] (the same under the i flag)
    | Spaces           // \s
    | LineChars        // .  (anything but a line terminator)
    | ParenBody        // what `.*?` can cross before the `\)` of /\((.*?)\)/
    | LettersOrSpaces  // [A-Z\s] under the i flag

  predicate InClass(k: CharClass, c: char) {
    match k
    case LocalPart => IsWordChar(c) || c == '.' || c == '-'
    case TldPart => IsWordChar(c) || c == '"'
    case Lowercase => IsLower(c)
    case UserName => IsWordChar(c) || c == '-'
    case Spaces => IsSpace(c)
    case LineChars => !IsLineTerminator(c)
    case ParenBody => !IsLineTerminator(c) && c != ')'
    case LettersOrSpaces => IsUpper(c) || IsLower(c) || IsSpace(c)
  }

  ghost predicate AllIn(t: string, i: nat, j: nat, k: CharClass)
    requires i <= j <= |t|
  {
    forall m :: i <= m < j ==> InClass(k, t[m])
  }

  /** The end of the longest run of class `k` that starts at `i`: where a greedy
      `[...]+` or `[...]*` stops. */
  function RunEnd(t: string, i: nat, k: CharClass): (e: nat)
    requires i <= |t|
    decreases |t| - i
    ensures i <= e <= |t|
    ensures AllIn(t, i, e, k)
    ensures e < |t| ==> !InClass(k, t[e])
  {
    if i < |t| && InClass(k, t[i]) then RunEnd(t, i + 1, k) else i
  }

  /** A run of class `k` cannot step over a character outside the class. */
  lemma RunStopsAt(t: string, i: nat, j: nat, k: CharClass, d: nat)
    requires i <= d < |t| && i <= j <= |t| && AllIn(t, i, j, k) && !InClass(k, t[d])
    ensures j <= d
  {
  }

  /** A run of class `k` that starts at `i` never reaches past `RunEnd`. */
  lemma RunEndCovers(t: string, i: nat, j: nat, k: CharClass)
    requires i <= j <= |t| && AllIn(t, i, j, k)
    ensures j <= RunEnd(t, i, k)
  {
    var e := RunEnd(t, i, k);
    if e < |t| {
      RunStopsAt(t, i, j, k, e);
    }
  }

  /** A run of class `k` followed by a character outside it is the whole run. */
  lemma RunEndExact(t: string, i: nat, j: nat, k: CharClass)
    requires i <= j < |t| && AllIn(t, i, j, k) && !InClass(k, t[j])
    ensures RunEnd(t, i, k) == j
  {
    RunEndCovers(t, i, j, k);
    RunStopsAt(t, i, RunEnd(t, i, k), k, j);
  }

  // ---------------------------------------------------------------------------
  // /["']?["']?[\w.-]+@["']?[\w.-]+\.["']?[\w"]+/   (the email pattern, no flags)

  predicate IsQuote(c: char) { c == '"' || c == '\'' }

  /** `t[s..e]` is accepted by the email pattern, cut as: up to two quotes `t[s..a]`,
      the local part `t[a..b]`, `@` at `b`, an optional quote before `c`, the domain
      `t[c..d]`, `.` at `d`, an optional quote before `f`, and the tail `t[f..e]`. */
  ghost predicate EmailSplit(t: string, s: nat, a: nat, b: nat, c: nat, d: nat, f: nat, e: nat) {
    s <= a <= s + 2 && a < b && b < c && c < d && d < f && f < e && e <= |t|
    && (forall m :: s <= m < a ==> IsQuote(t[m]))
    && AllIn(t, a, b, LocalPart) && t[b] == '@'
    && (c == b + 1 || (c == b + 2 && IsQuote(t[b + 1])))
    && AllIn(t, c, d, LocalPart) && t[d] == '.'
    && (f == d + 1 || (f == d + 2 && IsQuote(t[d + 1])))
    && AllIn(t, f, e, TldPart)
  }

  /** The end of the quotes `["']?["']?` takes at `s`. */
  function QuotesEnd(t: string, s: nat): nat
    requires s <= |t|
  {
    if s < |t| && IsQuote(t[s]) then
      if s + 1 < |t| && IsQuote(t[s + 1]) then s + 2 else s + 1
    else s
  }

  /** Where `["']?[\w"]+` ends when it starts at `p`, if it matches there. */
  function TldEnd(t: string, p: nat): Option<nat>
    requires p <= |t|
  {
    if p < |t| && t[p] == '\'' then
      var e := RunEnd(t, p + 1, TldPart);
      if e > p + 1 then Some(e) else None
    else
      var e := RunEnd(t, p, TldPart);
      if e > p then Some(e) else None
  }

  /** The backtracking of the greedy domain run before `\.`: the dots of `t[c+1..d+1]`
      are tried from the right, and the first one followed by a tail wins. */
  function DotFromRight(t: string, c: nat, d: nat): Option<nat>
    requires c <= d < |t|
    decreases d
  {
    if d == c then None
    else if t[d] == '.' && TldEnd(t, d + 1).Some? then TldEnd(t, d + 1)
    else DotFromRight(t, c, d - 1)
  }

  /** The end of the email match the engine finds when it starts at `s`. */
  function EmailAt(t: string, s: nat): Option<nat>
    requires s <= |t|
  {
    var a := QuotesEnd(t, s);
    var b := RunEnd(t, a, LocalPart);
    if b == a || b == |t| || t[b] != '@' then None
    else
      var c := if b + 1 < |t| && IsQuote(t[b + 1]) then b + 2 else b + 1;
      var g := RunEnd(t, c, LocalPart);
      if g == c then None else DotFromRight(t, c, g - 1)
  }

  lemma TldEndSound(t: string, p: nat)
    requires p <= |t| && TldEnd(t, p).Some?
    ensures p < TldEnd(t, p).value <= |t|
    ensures p < |t| && t[p] == '\'' ==> p + 1 < TldEnd(t, p).value && AllIn(t, p + 1, TldEnd(t, p).value, TldPart)
    ensures !(p < |t| && t[p] == '\'') ==> AllIn(t, p, TldEnd(t, p).value, TldPart)
  {
  }

  /** Every tail the pattern allows after the dot at `d` ends by `TldEnd`. */
  lemma TldEndComplete(t: string, d: nat, f: nat, e: nat)
    requires d < f < e <= |t|
    requires f == d + 1 || (f == d + 2 && IsQuote(t[d + 1]))
    requires AllIn(t, f, e, TldPart)
    ensures TldEnd(t, d + 1).Some? && e <= TldEnd(t, d + 1).value
  {
    if t[d + 1] == '\'' {
      assert f == d + 2 by { assert f == d + 1 ==> InClass(TldPart, t[f]); }
      RunEndCovers(t, d + 2, e, TldPart);
    } else {
      assert AllIn(t, d + 1, e, TldPart);
      RunEndCovers(t, d + 1, e, TldPart);
    }
  }

  lemma DotFromRightSound(t: string, c: nat, d: nat) returns (dot: nat, f: nat)
    requires c <= d < |t| && DotFromRight(t, c, d).Some?
    ensures c < dot <= d && t[dot] == '.' && dot < f < DotFromRight(t, c, d).value <= |t|
    ensures f == dot + 1 || (f == dot + 2 && IsQuote(t[dot + 1]))
    ensures AllIn(t, f, DotFromRight(t, c, d).value, TldPart)
    decreases d
  {
    if t[d] == '.' && TldEnd(t, d + 1).Some? {
      dot := d;
      TldEndSound(t, d + 1);
      f := if t[d + 1] == '\'' then d + 2 else d + 1;
    } else {
      dot, f := DotFromRightSound(t, c, d - 1);
    }
  }

  /** Trying the dots from the right finds a tail at least as long as any the
      pattern allows after a dot at or left of `d`. */
  lemma DotFromRightComplete(t: string, c: nat, d: nat, dot: nat, f: nat, e: nat)
    requires c < dot <= d < |t| && t[dot] == '.' && dot < f < e <= |t|
    requires f == dot + 1 || (f == dot + 2 && IsQuote(t[dot + 1]))
    requires AllIn(t, f, e, TldPart)
    ensures DotFromRight(t, c, d).Some? && e <= DotFromRight(t, c, d).value
    decreases d
  {
    if d == dot {
      TldEndComplete(t, dot, f, e);
    } else if t[d] == '.' && TldEnd(t, d + 1).Some? {
      TldEndSound(t, d + 1);
      assert f <= d;
      RunStopsAt(t, f, e, TldPart, d);
    } else {
      DotFromRightComplete(t, c, d - 1, dot, f, e);
    }
  }

  /** What `EmailAt` reports is a match, and no match that starts at `s` is longer. */
  lemma EmailAtExact(t: string, s: nat)
    requires s <= |t|
    ensures EmailAt(t, s).Some? ==>
      exists a: nat, b: nat, c: nat, d: nat, f: nat :: EmailSplit(t, s, a, b, c, d, f, EmailAt(t, s).value)
    ensures forall a: nat, b: nat, c: nat, d: nat, f: nat, e: nat :: EmailSplit(t, s, a, b, c, d, f, e) ==>
      EmailAt(t, s).Some? && e <= EmailAt(t, s).value
  {
    if EmailAt(t, s).Some? {
      EmailAtSound(t, s);
    }
    forall a': nat, b': nat, c': nat, d': nat, f': nat, e': nat | EmailSplit(t, s, a', b', c', d', f', e')
      ensures EmailAt(t, s).Some? && e' <= EmailAt(t, s).value
    {
      EmailAtComplete(t, s, a', b', c', d', f', e');
    }
  }

  /** The pieces of the match `EmailAt` reports. */
  lemma EmailAtSound(t: string, s: nat)
    requires s <= |t| && EmailAt(t, s).Some?
    ensures exists a: nat, b: nat, c: nat, d: nat, f: nat :: EmailSplit(t, s, a, b, c, d, f, EmailAt(t, s).value)
  {
    var a := QuotesEnd(t, s);
    var b := RunEnd(t, a, LocalPart);
    var c := if b + 1 < |t| && IsQuote(t[b + 1]) then b + 2 else b + 1;
    var g := RunEnd(t, c, LocalPart);
    var dot, f := DotFromRightSound(t, c, g - 1);
    assert AllIn(t, c, dot, LocalPart);
    assert EmailSplit(t, s, a, b, c, dot, f, EmailAt(t, s).value);
  }

  lemma EmailAtComplete(t: string, s: nat, a': nat, b': nat, c': nat, d': nat, f': nat, e': nat)
    requires EmailSplit(t, s, a', b', c', d', f', e')
    ensures EmailAt(t, s).Some? && e' <= EmailAt(t, s).value
  {
    assert InClass(LocalPart, t[a']);
    var a := QuotesEnd(t, s);
    assert a == a';
    RunEndExact(t, a, b', LocalPart);
    var b := b';
    var c := if b + 1 < |t| && IsQuote(t[b + 1]) then b + 2 else b + 1;
    assert InClass(LocalPart, t[c']);
    assert c == c';
    assert AllIn(t, c, d' + 1, LocalPart);
    RunEndCovers(t, c, d' + 1, LocalPart);
    var g := RunEnd(t, c, LocalPart);
    DotFromRightComplete(t, c, g - 1, d', f', e');
  }

  // ---------------------------------------------------------------------------
  // /^([A-Z][a-z]+ [A-Z][a-z]+)/m   (the name pattern)

  /** `^` under the m flag: the start of the text or just after a line terminator. */
  predicate LineStart(t: string, s: nat)
    requires s <= |t|
  {
    s == 0 || IsLineTerminator(t[s - 1])
  }

  /** `t[s..e]` is two capitalised words joined by the one space at `m`, and `s`
      starts a line. */
  ghost predicate NameSplit(t: string, s: nat, m: nat, e: nat) {
    s + 2 <= m && m + 3 <= e && e <= |t| && LineStart(t, s)
    && IsUpper(t[s]) && AllIn(t, s + 1, m, Lowercase)
    && t[m] == ' ' && IsUpper(t[m + 1]) && AllIn(t, m + 2, e, Lowercase)
  }

  /** The end of the name match the engine finds when it starts at `s`. */
  function NameAt(t: string, s: nat): Option<nat>
    requires s <= |t|
  {
    if !(LineStart(t, s) && s < |t| && IsUpper(t[s])) then None
    else
      var m := RunEnd(t, s + 1, Lowercase);
      if m == s + 1 || m + 1 >= |t| || t[m] != ' ' || !IsUpper(t[m + 1]) then None
      else
        var e := RunEnd(t, m + 2, Lowercase);
        if e == m + 2 then None else Some(e)
  }

  lemma NameAtExact(t: string, s: nat)
    requires s <= |t|
    ensures NameAt(t, s).Some? ==> exists m: nat :: NameSplit(t, s, m, NameAt(t, s).value)
    ensures forall m: nat, e: nat :: NameSplit(t, s, m, e) ==> NameAt(t, s).Some? && e <= NameAt(t, s).value
  {
    if NameAt(t, s).Some? {
      var m := RunEnd(t, s + 1, Lowercase);
      assert NameSplit(t, s, m, NameAt(t, s).value);
    }
    forall m: nat, e: nat | NameSplit(t, s, m, e)
      ensures NameAt(t, s).Some? && e <= NameAt(t, s).value
    {
      RunEndExact(t, s + 1, m, Lowercase);
      RunEndCovers(t, m + 2, e, Lowercase);
    }
  }

  // ---------------------------------------------------------------------------
  // /(?:https?:\/\/)?(?:www\.)?github\.com\/[a-zA-Z0-9_-]+/i   (the GitHub URL pattern)

  /** `t[s..e]` is an optional scheme `t[s..p]`, an optional `www.` `t[p..q]`, then
      `github.com/` and a user name, letters compared without case. */
  ghost predicate GithubSplit(t: string, s: nat, p: nat, q: nat, e: nat) {
    s <= p <= q && q + 11 < e <= |t|
    && (p == s || (p == s + 7 && MatchesAtCI(t, s, "http://")) || (p == s + 8 && MatchesAtCI(t, s, "https://")))
    && (q == p || (q == p + 4 && MatchesAtCI(t, p, "www.")))
    && MatchesAtCI(t, q, "github.com/")
    && AllIn(t, q + 11, e, UserName)
  }

  /** Where the optional scheme ends when the match starts at `s`. */
  function SchemeEnd(t: string, s: nat): nat {
    if MatchesAtCI(t, s, "https://") then s + 8
    else if MatchesAtCI(t, s, "http://") then s + 7
    else s
  }

  /** Where the optional `www.` ends when it starts at `p`. */
  function WwwEnd(t: string, p: nat): nat {
    if MatchesAtCI(t, p, "www.") then p + 4 else p
  }

  /** The end of the GitHub URL match the engine finds when it starts at `s`. */
  function GithubAt(t: string, s: nat): Option<nat>
    requires s <= |t|
  {
    var q := WwwEnd(t, SchemeEnd(t, s));
    if !MatchesAtCI(t, q, "github.com/") then None
    else
      var e := RunEnd(t, q + 11, UserName);
      if e == q + 11 then None else Some(e)
  }

  /** Two literals that differ (case aside) at position `k` cannot both occur at the
      same place. */
  lemma LetterClash(t: string, i: nat, v: string, w: string, k: nat)
    requires k < |v| && k < |w| && LowerChar(v[k]) != LowerChar(w[k])
    ensures !(MatchesAtCI(t, i, v) && MatchesAtCI(t, i, w))
  {
    if i + k < |t| {
      var c := LowerChar(t[i + k]);
      assert MatchesAtCI(t, i, v) ==> c == LowerChar(v[k]);
      assert MatchesAtCI(t, i, w) ==> c == LowerChar(w[k]);
    }
  }

  lemma GithubAtExact(t: string, s: nat)
    requires s <= |t|
    ensures GithubAt(t, s).Some? ==> exists p: nat, q: nat :: GithubSplit(t, s, p, q, GithubAt(t, s).value)
    ensures forall p: nat, q: nat, e: nat :: GithubSplit(t, s, p, q, e) ==> GithubAt(t, s).Some? && e <= GithubAt(t, s).value
  {
    var p := SchemeEnd(t, s);
    var q := WwwEnd(t, p);
    if GithubAt(t, s).Some? {
      assert GithubSplit(t, s, p, q, GithubAt(t, s).value);
    }
    forall p': nat, q': nat, e: nat | GithubSplit(t, s, p', q', e)
      ensures GithubAt(t, s).Some? && e <= GithubAt(t, s).value
    {
      LetterClash(t, s, "https://", "www.", 0);
      LetterClash(t, s, "https://", "github.com/", 0);
      LetterClash(t, s, "http://", "www.", 0);
      LetterClash(t, s, "http://", "github.com/", 0);
      LetterClash(t, s, "http://", "https://", 4);
      LetterClash(t, p', "www.", "github.com/", 0);
      assert p == p';
      assert q == q';
      RunEndCovers(t, q + 11, e, UserName);
    }
  }

  // ---------------------------------------------------------------------------
  // The leftmost match, and the longest one that starts there

  /** The three patterns for which the engine's choice is the leftmost match and,
      among the matches that start there, the longest. */
  datatype Pattern = EmailPattern | NamePattern | GithubUrlPattern

  /** `t[s..e]` is a match of pattern `p` (the set of strings the pattern accepts,
      with the positional constraints `^` adds). */
  ghost predicate Accepts(p: Pattern, t: string, s: nat, e: nat) {
    match p
    case EmailPattern => exists a: nat, b: nat, c: nat, d: nat, f: nat :: EmailSplit(t, s, a, b, c, d, f, e)
    case NamePattern => exists m: nat :: NameSplit(t, s, m, e)
    case GithubUrlPattern => exists q: nat, r: nat :: GithubSplit(t, s, q, r, e)
  }

  function MatchAt(p: Pattern, t: string, s: nat): Option<nat>
    requires s <= |t|
  {
    match p
    case EmailPattern => EmailAt(t, s)
    case NamePattern => NameAt(t, s)
    case GithubUrlPattern => GithubAt(t, s)
  }

  lemma AcceptsInside(p: Pattern, t: string, s: nat, e: nat)
    ensures Accepts(p, t, s, e) ==> s < e <= |t|
  {
  }

  /** At each start, the engine's match is a match of the pattern and no match from
      there is longer. */
  lemma MatchAtExact(p: Pattern, t: string, s: nat)
    requires s <= |t|
    ensures MatchAt(p, t, s).Some? ==> s < MatchAt(p, t, s).value <= |t| && Accepts(p, t, s, MatchAt(p, t, s).value)
    ensures forall e: nat :: Accepts(p, t, s, e) ==> MatchAt(p, t, s).Some? && e <= MatchAt(p, t, s).value
  {
    match p
    case EmailPattern => EmailAtExact(t, s);
    case NamePattern => NameAtExact(t, s);
    case GithubUrlPattern => GithubAtExact(t, s);
  }

  /** The first position from `s` up to `n` where `m` reports an end, with that end. */
  function FirstFrom(m: nat -> Option<nat>, s: nat, n: nat): (r: Option<(nat, nat)>)
    requires s <= n
    decreases n - s
    ensures r.Some? ==> s <= r.value.0 <= n && m(r.value.0) == Some(r.value.1)
    ensures r.Some? ==> forall i: nat :: s <= i < r.value.0 ==> m(i).None?
    ensures r.None? ==> forall i: nat :: s <= i <= n ==> m(i).None?
  {
    if m(s).Some? then Some((s, m(s).value))
    else if s == n then None
    else FirstFrom(m, s + 1, n)
  }

  /** `MatchAt` as a total function of the start. */
  function Matcher(p: Pattern, t: string): nat -> Option<nat> {
    (i: nat) => if i <= |t| then MatchAt(p, t, i) else None
  }

  /** `t.match(pattern)` from position `s` on: the first start where the engine
      finds a match, with the end the engine picks there. */
  function FindFrom(p: Pattern, t: string, s: nat): (r: Option<(nat, nat)>)
    requires s <= |t|
    ensures r.Some? ==> s <= r.value.0 <= |t| && MatchAt(p, t, r.value.0) == Some(r.value.1)
    ensures r.Some? ==> forall i: nat :: s <= i < r.value.0 ==> MatchAt(p, t, i).None?
    ensures r.None? ==> forall i: nat :: s <= i <= |t| ==> MatchAt(p, t, i).None?
  {
    var m := Matcher(p, t);
    var r := FirstFrom(m, s, |t|);
    assert forall i: nat :: i <= |t| ==> m(i) == MatchAt(p, t, i);
    r
  }

  /** The search picks the leftmost match of the pattern and, among the matches
      that start there, the longest; it finds none only when there is none. */
  lemma FindFromExact(p: Pattern, t: string)
    ensures FindFrom(p, t, 0).Some? ==>
      var s := FindFrom(p, t, 0).value.0;
      var e := FindFrom(p, t, 0).value.1;
      && s < e <= |t| && Accepts(p, t, s, e)
      && (forall i: nat, e': nat :: i < s ==> !Accepts(p, t, i, e'))
      && (forall e': nat :: Accepts(p, t, s, e') ==> e' <= e)
    ensures FindFrom(p, t, 0).None? ==> forall i: nat, e: nat :: !Accepts(p, t, i, e)
  {
    forall i: nat, e: nat | Accepts(p, t, i, e)
      ensures FindFrom(p, t, 0).Some? && FindFrom(p, t, 0).value.0 <= i
    {
      AcceptsInside(p, t, i, e);
      MatchAtExact(p, t, i);
    }
    if FindFrom(p, t, 0).Some? {
      MatchAtExact(p, t, FindFrom(p, t, 0).value.0);
    }
  }

  /** The matched text of the first match of `p` in `t`, if any. */
  function Find(p: Pattern, t: string): (r: Option<string>)
    ensures r.Some? ==> |r.value| > 0
  {
    match FindFrom(p, t, 0)
    case Some((s, e)) =>
      MatchAtExact(p, t, s);
      Some(t[s..e])
    case None => None
  }

  /** The search reports a match exactly when the pattern matches somewhere. */
  lemma FindExists(p: Pattern, t: string)
    ensures Find(p, t).Some? <==> exists s: nat, e: nat :: Accepts(p, t, s, e)
  {
    FindFromExact(p, t);
  }

  /** Where the reported match lies: a match of the pattern, cut out of the text. */
  lemma FindSpan(p: Pattern, t: string) returns (s: nat, e: nat)
    requires Find(p, t).Some?
    ensures s < e <= |t| && Accepts(p, t, s, e) && Find(p, t).value == t[s..e]
  {
    s := FindFrom(p, t, 0).value.0;
    e := FindFrom(p, t, 0).value.1;
    MatchAtExact(p, t, s);
  }

  // ---------------------------------------------------------------------------
  // Results of `String.prototype.match` whose capture groups the code reads

  /** A successful `match` without the g flag: element 0 is the whole match and
      element k the k-th capture group. Reading past the groups the pattern has
      gives `undefined` (None). */
  datatype RegexMatch = RegexMatch(groups: seq<Option<string>>)

  function Group(m: RegexMatch, k: nat): Option<string> {
    if k < |m.groups| then m.groups[k] else None
  }

  /** The end of the line part that starts at `i`: where a greedy `.*` stops. */
  function LineEnd(t: string, i: nat): (e: nat)
    requires i <= |t|
    ensures i <= e <= |t|
    ensures forall m :: i <= m < e ==> !IsLineTerminator(t[m])
    ensures e < |t| ==> IsLineTerminator(t[e])
  {
    RunEnd(t, i, LineChars)
  }

  /** `t.match(/tag(.*)/)`: the first occurrence of `tag` (case kept), with the
      rest of its line as group 1. */
  function LabelledRest(t: string, tag: string): (r: Option<RegexMatch>)
    ensures r.Some? <==> Includes(t, tag)
    ensures r.Some? ==> |r.value.groups| == 2 && r.value.groups[1].Some?
    ensures r.Some? ==>
      var i := IndexOfFrom(t, tag, 0).value;
      var rest := r.value.groups[1].value;
      && i + |tag| + |rest| <= |t|
      && r.value.groups[0] == Some(tag + rest)
      && t[i + |tag|..i + |tag| + |rest|] == rest
      && (forall c :: c in rest ==> !IsLineTerminator(c))
      && (i + |tag| + |rest| == |t| || IsLineTerminator(t[i + |tag| + |rest|]))
  {
    match IndexOfFrom(t, tag, 0)
    case None => None
    case Some(i) =>
      var rest := t[i + |tag|..LineEnd(t, i + |tag|)];
      assert t[i..i + |tag|] == tag;
      assert t[i..i + |tag| + |rest|] == tag + rest;
      Some(RegexMatch([Some(tag + rest), Some(rest)]))
  }

  /** `t.match(githubUrlPattern)`: a pattern without capture groups. */
  function GithubUrlMatch(t: string): (r: Option<RegexMatch>)
    ensures r.Some? <==> Find(GithubUrlPattern, t).Some?
    ensures r.Some? ==> r.value.groups == [Find(GithubUrlPattern, t)]
  {
    match Find(GithubUrlPattern, t)
    case Some(w) => Some(RegexMatch([Some(w)]))
    case None => None
  }

  // ---------------------------------------------------------------------------
  // head([\s\S]*?)(?=stop|stop...) with the i flag: the section patterns

  /** One of the lookahead literals occurs at `p`, case ignored. */
  predicate StopAt(t: string, p: nat, stops: seq<string>) {
    exists k :: 0 <= k < |stops| && MatchesAtCI(t, p, stops[k])
  }

  /** The first position at or after `p` where a stop literal occurs. */
  function FirstStop(t: string, p: nat, stops: seq<string>): (r: Option<nat>)
    decreases |t| + 1 - p
    ensures r.Some? ==> p <= r.value <= |t| && StopAt(t, r.value, stops)
    ensures r.Some? ==> forall q :: p <= q < r.value ==> !StopAt(t, q, stops)
    ensures r.None? ==> forall q :: p <= q ==> !StopAt(t, q, stops)
  {
    if p > |t| then None
    else if StopAt(t, p, stops) then Some(p)
    else FirstStop(t, p + 1, stops)
  }

  /** `head` at `s` and a stop at `e`, with the body `t[s + |head|..e]` between them. */
  ghost predicate SectionAt(t: string, head: string, stops: seq<string>, s: nat, e: nat) {
    MatchesAtCI(t, s, head) && s + |head| <= e && StopAt(t, e, stops)
  }

  /** A lazy section pattern: the leftmost `head` that has a stop after it, and the
      nearest stop after it; returns (start of `head`, end of the body). */
  function FindSection(t: string, head: string, stops: seq<string>): (r: Option<(nat, nat)>)
    ensures r.Some? ==> r.value.0 + |head| <= r.value.1 <= |t|
    ensures r.Some? ==> SectionAt(t, head, stops, r.value.0, r.value.1)
    ensures r.Some? ==> forall s: nat, e: nat :: s < r.value.0 ==> !SectionAt(t, head, stops, s, e)
    ensures r.Some? ==> forall e: nat :: SectionAt(t, head, stops, r.value.0, e) ==> r.value.1 <= e
    ensures r.None? ==> forall s: nat, e: nat {:trigger SectionAt(t, head, stops, s, e)} :: !SectionAt(t, head, stops, s, e)
  {
    match IndexOfFromCI(t, head, 0)
    case None => None
    case Some(s) =>
      match FirstStop(t, s + |head|, stops)
      case None => None
      case Some(e) => Some((s, e))
  }

  /** `t.match(new RegExp(head + '([\\s\\S]*?)(?=' + stops + ')', 'i'))[1]`: the section
      body, when the pattern matches. */
  function SectionBody(t: string, head: string, stops: seq<string>): (r: Option<string>)
    ensures r.Some? <==> FindSection(t, head, stops).Some?
    ensures r.Some? ==>
      var s := FindSection(t, head, stops).value.0;
      var e := FindSection(t, head, stops).value.1;
      r.value == t[s + |head|..e]
  {
    match FindSection(t, head, stops)
    case Some((s, e)) => Some(t[s + |head|..e])
    case None => None
  }

  /** `t.match(/head([\s\S]*)/i)[1]`: everything after the first `head`. */
  function RestAfter(t: string, head: string): (r: Option<string>)
    ensures r.Some? <==> exists s: nat :: MatchesAtCI(t, s, head)
    ensures r.Some? ==>
      var s := IndexOfFromCI(t, head, 0).value;
      (forall i: nat :: i < s ==> !MatchesAtCI(t, i, head)) && r.value == t[s + |head|..]
  {
    match IndexOfFromCI(t, head, 0)
    case None => None
    case Some(s) => Some(t[s + |head|..])
  }

  // ---------------------------------------------------------------------------
  // Patterns applied to single lines of a section

  /** `/,.*$/` (no m flag) matches at `c`: a comma after which no line terminator
      occurs up to the end of the text. */
  predicate CommaTailAt(u: string, c: nat) {
    c < |u| && u[c] == ',' && forall m :: c < m < |u| ==> !IsLineTerminator(u[m])
  }

  function FirstCommaTail(u: string, c: nat): (r: Option<nat>)
    decreases |u| - c
    ensures r.Some? ==> c <= r.value && CommaTailAt(u, r.value)
    ensures r.Some? ==> forall d :: c <= d < r.value ==> !CommaTailAt(u, d)
    ensures r.None? ==> forall d :: c <= d ==> !CommaTailAt(u, d)
  {
    if c >= |u| then None
    else if CommaTailAt(u, c) then Some(c)
    else FirstCommaTail(u, c + 1)
  }

  /** `u.replace(/,.*$/, '')`: cut the text at the first comma of its last line. */
  function CutCommaTail(u: string): (r: string)
    ensures (forall c: nat :: !CommaTailAt(u, c)) ==> r == u
    ensures forall c: nat :: CommaTailAt(u, c) && (forall d: nat :: d < c ==> !CommaTailAt(u, d)) ==> r == u[..c]
  {
    match FirstCommaTail(u, 0)
    case None => u
    case Some(c) => u[..c]
  }

  /** `/\((.*?)\)/` matches at `o` with its `)` at `q`: nothing between crosses a
      line end. */
  predicate ParenAt(u: string, o: nat, q: nat) {
    o < q < |u| && u[o] == '(' && u[q] == ')' && forall m :: o < m < q ==> !IsLineTerminator(u[m])
  }

  /** The engine's match of `/\((.*?)\)/` from `o` on: leftmost `(`, nearest `)`. */
  function ParenFrom(u: string, o: nat): (r: Option<(nat, nat)>)
    decreases |u| - o
    ensures r.Some? ==> o <= r.value.0 && ParenAt(u, r.value.0, r.value.1)
    ensures r.Some? ==> forall o': nat, q: nat :: o <= o' < r.value.0 ==> !ParenAt(u, o', q)
    ensures r.Some? ==> forall q: nat :: ParenAt(u, r.value.0, q) ==> r.value.1 <= q
    ensures r.None? ==> forall o': nat, q: nat :: o <= o' ==> !ParenAt(u, o', q)
  {
    if o >= |u| then None
    else if u[o] != '(' then ParenFrom(u, o + 1)
    else
      var q := RunEnd(u, o + 1, ParenBody);
      if q < |u| && u[q] == ')' then Some((o, q)) else ParenFrom(u, o + 1)
  }

  /** `u.match(/\((.*?)\)/)?.[1]`: the text inside the first parentheses of a line. */
  function ParenGroup(u: string): (r: Option<string>)
    ensures r.Some? <==> exists o: nat, q: nat :: ParenAt(u, o, q)
    ensures r.Some? ==> exists o: nat, q: nat :: ParenAt(u, o, q) && r.value == u[o + 1..q]
  {
    match ParenFrom(u, 0)
    case None => None
    case Some((o, q)) => Some(u[o + 1..q])
  }

  /** Two whitespace characters at `j`: where `\s{2,}` can start. */
  predicate TwoSpacesAt(u: string, j: nat) {
    j + 1 < |u| && IsSpace(u[j]) && IsSpace(u[j + 1])
  }

  /** `(.*?)\s{2,}` matches from `s` with the lazy group ending at `j`. */
  predicate GapAt(u: string, s: nat, j: nat) {
    s <= j && TwoSpacesAt(u, j) && forall m :: s <= m < j ==> !IsLineTerminator(u[m])
  }

  /** The lazy group's scan from start `s`: the nearest `j` at which two spaces follow. */
  function GapScan(u: string, s: nat, j: nat): (r: Option<nat>)
    requires s <= j <= |u|
    requires forall m :: s <= m < j ==> !IsLineTerminator(u[m]) && !TwoSpacesAt(u, m)
    decreases |u| - j
    ensures r.Some? ==> GapAt(u, s, r.value) && forall k: nat :: GapAt(u, s, k) ==> r.value <= k
    ensures r.None? ==> forall k: nat :: !GapAt(u, s, k)
  {
    if TwoSpacesAt(u, j) then Some(j)
    else if j < |u| && !IsLineTerminator(u[j]) then GapScan(u, s, j + 1)
    else None
  }

  /** The engine's match of `(.*?)\s{2,}` from `s` on, as (start, end of group 1). */
  function GapFrom(u: string, s: nat): (r: Option<(nat, nat)>)
    decreases |u| - s
    ensures r.Some? ==> s <= r.value.0 && GapAt(u, r.value.0, r.value.1)
    ensures r.Some? ==> forall k: nat :: GapAt(u, r.value.0, k) ==> r.value.1 <= k
    ensures r.Some? ==> forall s': nat, k: nat :: s <= s' < r.value.0 ==> !GapAt(u, s', k)
    ensures r.None? ==> forall s': nat, k: nat :: s <= s' ==> !GapAt(u, s', k)
  {
    if s > |u| then None
    else
      match GapScan(u, s, s)
      case Some(j) => Some((s, j))
      case None => GapFrom(u, s + 1)
  }

  /** `u.match(/(.*?)\s{2,}/)`: group 1 runs up to the first two-space gap. */
  function CompanyMatch(u: string): (r: Option<RegexMatch>)
    ensures r.Some? <==> exists s: nat, j: nat :: GapAt(u, s, j)
    ensures r.Some? ==> |r.value.groups| == 2 && r.value.groups[1].Some?
    ensures r.Some? ==> forall c :: c in r.value.groups[1].value ==> !IsLineTerminator(c)
    ensures r.Some? ==> (GapFrom(u, 0).Some? &&
      r.value.groups[1] == Some(u[GapFrom(u, 0).value.0..GapFrom(u, 0).value.1]))
  {
    match GapFrom(u, 0)
    case None => None
    case Some((s, j)) =>
      var k := RunEnd(u, j, Spaces);
      Some(RegexMatch([Some(u[s..k]), Some(u[s..j])]))
  }

  /** `j` is where the first gap of `u` starts, counting from the start of `u`. */
  predicate FirstGapAt(u: string, j: nat) {
    GapAt(u, 0, j) && forall k: nat :: GapAt(u, 0, k) ==> j <= k
  }

  /** When the line has a gap reachable from its start, the match starts at 0 and
      its lazy group stops at the first gap. */
  lemma GapFromStart(u: string, j: nat)
    requires FirstGapAt(u, j)
    ensures GapFrom(u, 0) == Some((0, j))
  {
    var g := GapScan(u, 0, 0);
    assert g.Some?;
    assert g.value == j;
  }

  /** `u.match(/(.*?)\s{2,}(.*)/)`: group 1 as above; the whitespace run is taken
      whole and group 2 is the rest of that line. */
  function TitleDurationMatch(u: string): (r: Option<RegexMatch>)
    ensures r.Some? <==> exists s: nat, j: nat :: GapAt(u, s, j)
    ensures r.Some? ==> |r.value.groups| == 3 && r.value.groups[1].Some? && r.value.groups[2].Some?
    ensures r.Some? ==> r.value.groups[1] == CompanyMatch(u).value.groups[1]
    ensures r.Some? ==> forall c :: c in r.value.groups[2].value ==> !IsLineTerminator(c)
    ensures r.Some? ==> r.value.groups[2].value == [] || !IsSpace(r.value.groups[2].value[0])
    ensures r.Some? ==> (GapFrom(u, 0).Some? &&
      var k := RunEnd(u, GapFrom(u, 0).value.1, Spaces);
      r.value.groups[2] == Some(u[k..LineEnd(u, k)]))
  {
    match GapFrom(u, 0)
    case None => None
    case Some((s, j)) =>
      var k := RunEnd(u, j, Spaces);
      var e := LineEnd(u, k);
      Some(RegexMatch([Some(u[s..e]), Some(u[s..j]), Some(u[k..e])]))
  }

  // ---------------------------------------------------------------------------
  // /(?:PROFILE|SUMMARY|CAREER OBJECTIVE)\s*\n([\s\S]*?)(?=\n\n[A-Z\s]+$|\n\n[A-Z])/im

  /** The lookahead of the summary pattern at `q`: a blank line, then either a letter
      or a run of letters and whitespace that reaches a line end. */
  predicate SummaryStopAt(t: string, q: nat) {
    && MatchesAt(t, q, "\n\n")
    && var p := q + 2;
       || (p < |t| && (IsUpper(t[p]) || IsLower(t[p])))
       || (var u := RunEnd(t, p, LettersOrSpaces);
           p < u && (u == |t| || exists r :: p < r < u && IsLineTerminator(t[r])))
  }

  function FirstSummaryStop(t: string, q: nat): (r: Option<nat>)
    decreases |t| - q
    ensures r.Some? ==> q <= r.value && SummaryStopAt(t, r.value)
    ensures r.Some? ==> forall m :: q <= m < r.value ==> !SummaryStopAt(t, m)
    ensures r.None? ==> forall m :: q <= m ==> !SummaryStopAt(t, m)
  {
    if q + 2 > |t| then None
    else if SummaryStopAt(t, q) then Some(q)
    else FirstSummaryStop(t, q + 1)
  }

  /** The end of the alternative `PROFILE|SUMMARY|CAREER OBJECTIVE` at `s`, case ignored. */
  function HeadingEnd(t: string, s: nat): (r: Option<nat>)
    ensures r.Some? ==> s < r.value <= |t|
  {
    if MatchesAtCI(t, s, "PROFILE") then Some(s + 7)
    else if MatchesAtCI(t, s, "SUMMARY") then Some(s + 7)
    else if MatchesAtCI(t, s, "CAREER OBJECTIVE") then Some(s + 16)
    else None
  }

  /** Backtracking of the greedy `\s*\n`: the line feed at `x - 1`, `x - 2`, down to
      `k`, each followed by the lazy body up to the first lookahead. */
  function SummaryBody(t: string, k: nat, x: nat): (r: Option<(nat, nat)>)
    requires k <= x <= |t|
    decreases x - k
    ensures r.Some? ==> k < r.value.0 <= r.value.1 <= |t| && t[r.value.0 - 1] == '\n' && SummaryStopAt(t, r.value.1)
  {
    if x == k then None
    else if t[x - 1] == '\n' && FirstSummaryStop(t, x).Some? then Some((x, FirstSummaryStop(t, x).value))
    else SummaryBody(t, k, x - 1)
  }

  /** The engine's match of the summary pattern from `s` on, as (start, body start,
      body end). */
  function SummaryFrom(t: string, s: nat): (r: Option<(nat, nat, nat)>)
    decreases |t| - s
    ensures r.Some? ==> s <= r.value.0 < r.value.1 <= r.value.2 <= |t|
  {
    if s >= |t| then None
    else
      var body: Option<(nat, nat)> := match HeadingEnd(t, s)
        case None => None
        case Some(k) => SummaryBody(t, k, RunEnd(t, k, Spaces));
      match body
      case Some((b, e)) => Some((s, b, e))
      case None => SummaryFrom(t, s + 1)
  }

  /** `t.match(summaryPattern)`: the pattern has one capture group, so the match
      array has exactly two entries. */
  function CareerObjectiveMatch(t: string): (r: Option<RegexMatch>)
    ensures r.Some? ==> |r.value.groups| == 2 && r.value.groups[1].Some?
  {
    match SummaryFrom(t, 0)
    case None => None
    case Some((s, b, e)) => Some(RegexMatch([Some(t[s..e]), Some(t[b..e])]))
  }
}
