/** The shared portfolio state of the front end: the initial details, the
    normalisation applied to details loaded from the server, and the merge of a
    parsed resume into the details. */
module PortfolioContext {
  import opened Optional
  import opened JsText
  import opened JsValues

  /** The keys of an education entry. */
  const EducationKeys: set<string> := {"university", "degree", "duration", "details"}

  /** The text fields of the details. */
  const TextFields: set<string> :=
    {"fullName", "headline", "email", "linkedin", "github", "skills", "careerObjective"}

  /** The list fields of the details. */
  const ListFields: set<string> := {"projects", "experience", "achievements", "education"}

  const EmptyProject := Obj(map["title" := Str(""), "description" := Str(""), "technologies" := Str(""), "link" := Str("")])
  const EmptyExperience := Obj(map["company" := Str(""), "jobTitle" := Str(""), "duration" := Str(""), "responsibilities" := Arr([])])
  const EmptyAchievement := Obj(map["quote" := Str("")])
  const EmptyEducation := Obj(map["university" := Str(""), "degree" := Str(""), "duration" := Str(""), "details" := Str("")])

  /** The details a new session starts from. */
  const InitialDetails: map<string, Val> := map[
    "fullName" := Str(""), "headline" := Str(""), "email" := Str(""), "linkedin" := Str(""),
    "github" := Str(""), "image" := Null, "skills" := Str(""), "careerObjective" := Str(""),
    "projects" := Arr([EmptyProject]), "experience" := Arr([EmptyExperience]),
    "achievements" := Arr([EmptyAchievement]), "education" := Arr([EmptyEducation]),
    "template" := Str("classic")]

  /** The initial details hold an empty string in every text field. */
  lemma InitialTextFields()
    ensures forall k :: k in TextFields ==> k in InitialDetails && InitialDetails[k] == Str("")
  {
    var text := ["fullName", "headline", "email", "linkedin", "github", "skills", "careerObjective"];
    assert forall i :: 0 <= i < |text| ==> text[i] in InitialDetails && InitialDetails[text[i]] == Str("");
    assert forall k :: k in TextFields ==> k in text;
  }

  /** The initial details hold exactly one entry in each list, no image and the
      classic template. */
  lemma InitialLists()
    ensures forall k :: k in ListFields ==> k in InitialDetails && InitialDetails[k].Arr? && |InitialDetails[k].items| == 1
    ensures InitialDetails["template"] == Str("classic") && InitialDetails["image"] == Null
  {
  }

  /** `{quote: s}`. */
  function Quote(s: Val): Val {
    Obj(map["quote" := s])
  }

  /** `typeof item === 'string' ? { quote: item } : item`. */
  function Wrap(item: Val): Val {
    if item.Str? then Quote(item) else item
  }

  function Wrapped(xs: seq<Val>): (r: seq<Val>)
    ensures |r| == |xs| && forall i :: 0 <= i < |xs| ==> r[i] == Wrap(xs[i])
  {
    seq(|xs|, i requires 0 <= i < |xs| => Wrap(xs[i]))
  }

  /** An entry whose quote is a string that is not blank. */
  predicate HasQuote(v: Val) {
    v.Obj? && "quote" in v.fields && v.fields["quote"].Str? && Trim(v.fields["quote"].s) != ""
  }

  /** `item.quote && item.quote.trim()` as a filter test: None when it throws (the
      item is `null` or `undefined`, or its quote is a truthy non-string). */
  function KeepQuote(item: Val): (r: Option<bool>)
    ensures r == Some(true) <==> HasQuote(item)
  {
    match Prop(item, "quote")
    case None => None
    case Some(q) =>
      if !Truthy(q) then Some(false)
      else if q.Str? then Some(Trim(q.s) != "")
      else None
  }

  /** `xs.filter(item => item.quote && item.quote.trim())`; None when the test
      throws on some item. */
  function FilterQuoted(xs: seq<Val>): (r: Option<seq<Val>>)
    ensures r.Some? ==> |r.value| <= |xs|
  {
    if |xs| == 0 then Some([])
    else
      match KeepQuote(xs[0])
      case None => None
      case Some(keep) =>
        match FilterQuoted(xs[1..])
        case None => None
        case Some(rest) => Some(if keep then [xs[0]] + rest else rest)
  }

  /** The filter throws exactly when the test throws on some item. */
  lemma {:induction false} FilterQuotedThrows(xs: seq<Val>)
    ensures FilterQuoted(xs).None? <==> exists i :: 0 <= i < |xs| && KeepQuote(xs[i]).None?
  {
    if |xs| > 0 {
      FilterQuotedThrows(xs[1..]);
      if KeepQuote(xs[0]).Some? && FilterQuoted(xs[1..]).None? {
        var i :| 0 <= i < |xs[1..]| && KeepQuote(xs[1..][i]).None?;
        assert xs[i + 1] == xs[1..][i];
      }
      if FilterQuoted(xs).Some? {
        forall i | 1 <= i < |xs| ensures KeepQuote(xs[i]).Some? {
          assert xs[i] == xs[1..][i - 1];
        }
      }
    }
  }

  /** Every item the filter keeps comes from the list and has a usable quote. */
  lemma {:induction false} FilterQuotedSound(xs: seq<Val>)
    ensures FilterQuoted(xs).Some? ==>
      forall k :: 0 <= k < |FilterQuoted(xs).value| ==> FilterQuoted(xs).value[k] in xs && HasQuote(FilterQuoted(xs).value[k])
  {
    if |xs| > 0 && FilterQuoted(xs).Some? {
      FilterQuotedSound(xs[1..]);
      var rest := FilterQuoted(xs[1..]).value;
      forall k | 0 <= k < |rest| ensures rest[k] in xs {
        assert rest[k] in xs[1..];
      }
    }
  }

  /** Every item with a usable quote is kept. */
  lemma {:induction false} FilterQuotedComplete(xs: seq<Val>)
    ensures FilterQuoted(xs).Some? ==> forall i :: 0 <= i < |xs| && HasQuote(xs[i]) ==> xs[i] in FilterQuoted(xs).value
  {
    if |xs| > 0 && FilterQuoted(xs).Some? {
      FilterQuotedComplete(xs[1..]);
      forall i | 1 <= i < |xs| && HasQuote(xs[i]) ensures xs[i] in FilterQuoted(xs).value {
        assert xs[i] == xs[1..][i - 1];
      }
    }
  }

  /** The filter keeps the order of the items: filtering a concatenation is
      concatenating the filtered parts. */
  lemma {:induction false} FilterQuotedAppend(xs: seq<Val>, ys: seq<Val>)
    ensures FilterQuoted(xs + ys) ==
      (if FilterQuoted(xs).Some? && FilterQuoted(ys).Some? then Some(FilterQuoted(xs).value + FilterQuoted(ys).value) else None)
  {
    if |xs| == 0 {
      assert xs + ys == ys;
      var rest := FilterQuoted(ys);
      if rest.Some? {
        assert FilterQuoted(xs).value + rest.value == rest.value;
      }
    } else {
      var z := xs + ys;
      assert z[1..] == xs[1..] + ys;
      assert z[0] == xs[0];
      FilterQuotedAppend(xs[1..], ys);
      var tail, rest := FilterQuoted(xs[1..]), FilterQuoted(ys);
      if KeepQuote(xs[0]) == Some(true) && tail.Some? && rest.Some? {
        assert [xs[0]] + (tail.value + rest.value) == ([xs[0]] + tail.value) + rest.value;
      }
    }
  }

  /** `achievements` as loaded: a string becomes one quote; a non-empty list has its
      strings wrapped as quotes and the entries without a usable quote dropped;
      anything else is left as it is. None when the filter throws. */
  function NormalizeAchievements(a: Val): (r: Option<Val>)
    ensures !Truthy(a) ==> r == Some(a)
    ensures a.Str? && Truthy(a) ==> r == Some(Arr([Quote(a)]))
    ensures !a.Str? && !(a.Arr? && |a.items| > 0) ==> r == Some(a)
    ensures a.Arr? && |a.items| > 0 ==>
      (r.None? <==> exists i :: 0 <= i < |a.items| && KeepQuote(Wrap(a.items[i])).None?)
    ensures a.Arr? && |a.items| > 0 && r.Some? ==>
      r.value.Arr? && |r.value.items| <= |a.items| && forall k :: 0 <= k < |r.value.items| ==> HasQuote(r.value.items[k])
    ensures a.Arr? && |a.items| > 0 && r.Some? ==>
      forall i :: 0 <= i < |a.items| && a.items[i].Str? && Trim(a.items[i].s) != "" ==> Quote(a.items[i]) in r.value.items
  {
    if !Truthy(a) then Some(a)
    else if a.Str? then Some(Arr([Quote(a)]))
    else if a.Arr? && |a.items| > 0 then
      var ws := Wrapped(a.items);
      FilterQuotedThrows(ws);
      FilterQuotedSound(ws);
      FilterQuotedComplete(ws);
      match FilterQuoted(ws)
      case None => None
      case Some(kept) =>
        assert forall i :: 0 <= i < |a.items| && a.items[i].Str? && Trim(a.items[i].s) != "" ==> HasQuote(ws[i]);
        Some(Arr(kept))
    else Some(a)
  }

  /** A list of usable quotes passes the filter whole. */
  lemma {:induction false} FilterQuotedKeepsQuotes(xs: seq<Val>)
    requires forall k :: 0 <= k < |xs| ==> HasQuote(xs[k])
    ensures FilterQuoted(xs) == Some(xs)
  {
    if |xs| > 0 {
      FilterQuotedKeepsQuotes(xs[1..]);
      assert [xs[0]] + xs[1..] == xs;
    }
  }

  /** `edu => ({university: edu.university || '', ...})`: exactly the four keys, a
      falsy value replaced by ''. None when `edu` is `null` or `undefined`. */
  function EducationEntry(edu: Val): (r: Option<Val>)
    ensures r.None? <==> edu.Null? || edu.Undefined?
    ensures r.Some? ==> r.value.Obj? && r.value.fields.Keys == EducationKeys
    ensures r.Some? ==> forall k :: k in EducationKeys ==>
      r.value.fields[k] == (if Truthy(Prop(edu, k).value) then Prop(edu, k).value else Str(""))
  {
    if edu.Null? || edu.Undefined? then None
    else Some(Obj(map k | k in EducationKeys :: Or(Prop(edu, k).value, Str(""))))
  }

  /** Normalising an entry a second time changes nothing. */
  lemma EducationEntryIdempotent(edu: Val)
    requires EducationEntry(edu).Some?
    ensures EducationEntry(EducationEntry(edu).value) == EducationEntry(edu)
  {
    var once := EducationEntry(edu).value;
    var twice := EducationEntry(once).value;
    assert twice.fields == once.fields;
  }

  /** `education.map(...)`: same length, same order, each entry normalised; None
      when some entry throws. */
  function NormalizeEducationList(xs: seq<Val>): (r: Option<seq<Val>>)
    ensures r.None? <==> exists i :: 0 <= i < |xs| && (xs[i].Null? || xs[i].Undefined?)
    ensures r.Some? ==> |r.value| == |xs| && forall i :: 0 <= i < |xs| ==> EducationEntry(xs[i]) == Some(r.value[i])
  {
    if |xs| == 0 then Some([])
    else
      match EducationEntry(xs[0])
      case None => None
      case Some(e) =>
        match NormalizeEducationList(xs[1..])
        case None =>
          assert forall i :: 0 <= i < |xs| - 1 ==> xs[1..][i] == xs[i + 1];
          None
        case Some(rest) =>
          assert forall i :: 1 <= i < |xs| ==> xs[i] == xs[1..][i - 1];
          Some([e] + rest)
  }

  /** The details `fetchUserDetails` stores for a decoded reply `data`: an object has
      its `achievements` and its `education` list normalised and every other key
      kept; any other value is stored as it is. None when normalising throws. */
  function NormalizeLoaded(data: Val): (r: Option<Val>)
    ensures data.Null? || data.Undefined? ==> r.None?
    ensures !data.Obj? && !data.Null? && !data.Undefined? ==> r == Some(data)
    ensures data.Obj? && r.Some? ==> r.value.Obj? && r.value.fields.Keys == data.fields.Keys
    ensures data.Obj? && r.Some? ==> forall k :: k in data.fields && k != "achievements" && k != "education" ==>
      r.value.fields[k] == data.fields[k]
  {
    match data
    case Null => None
    case Undefined => None
    case Obj(m) =>
      var a := Get(m, "achievements");
      var na := NormalizeAchievements(a);
      if na.None? then None
      else
        var m1 := if Truthy(a) then m["achievements" := na.value] else m;
        var e := Get(m1, "education");
        if Truthy(e) && e.Arr? then
          match NormalizeEducationList(e.items)
          case None => None
          case Some(es) => Some(Obj(m1["education" := Arr(es)]))
        else Some(Obj(m1))
    case _ => Some(data)
  }

  /** Loaded details whose achievements are a string become a single quote, and whose
      education entries each end up with exactly the four keys. */
  lemma LoadedShape(m: map<string, Val>)
    requires NormalizeLoaded(Obj(m)).Some?
    ensures var r := NormalizeLoaded(Obj(m)).value.fields;
      ("achievements" in m && m["achievements"].Str? && m["achievements"].s != "" ==>
        r["achievements"] == Arr([Quote(m["achievements"])]))
    ensures var r := NormalizeLoaded(Obj(m)).value.fields;
      ("education" in m && m["education"].Arr? ==>
        r["education"].Arr? && |r["education"].items| == |m["education"].items| &&
        forall i :: 0 <= i < |m["education"].items| ==> r["education"].items[i].fields.Keys == EducationKeys)
  {
  }

  /** A fresh list of quotes, as normalisation leaves it, survives a second load. */
  lemma QuotesReload(xs: seq<Val>)
    requires |xs| > 0 && forall k :: 0 <= k < |xs| ==> HasQuote(xs[k])
    ensures NormalizeAchievements(Arr(xs)) == Some(Arr(xs))
  {
    assert Wrapped(xs) == xs;
    FilterQuotedKeepsQuotes(xs);
  }

  /** A successful HTTP status. */
  predicate Ok(status: nat) {
    200 <= status < 300
  }

  /** The provider's state. */
  class Portfolio {
    var userDetails: Val
    var loading: bool

    /** The initial details: empty text fields, one empty entry in each list, no
        image, the classic template. */
    constructor ()
      ensures userDetails == Obj(InitialDetails) && !loading
    {
      userDetails := Obj(InitialDetails);
      loading := false;
    }

    /** `fetchUserDetails`: without a token nothing happens; otherwise the request
        is made (`status` is its status, `body` the decoded reply, None when
        decoding fails) and the normalised reply replaces the details when all
        goes well; `loading` is cleared in every case. */
    method FetchUserDetails(hasToken: bool, status: nat, body: Option<Val>)
      modifies this
      ensures !hasToken ==> userDetails == old(userDetails) && loading == old(loading)
      ensures hasToken ==> !loading
      ensures hasToken && Ok(status) && body.Some? && NormalizeLoaded(body.value).Some?
        ==> userDetails == NormalizeLoaded(body.value).value
      ensures !(Ok(status) && body.Some? && NormalizeLoaded(body.value).Some?) ==> userDetails == old(userDetails)
    {
      if !hasToken {
        return;
      }
      loading := true;
      if status == 404 || !Ok(status) || body.None? {
        loading := false;
        return;
      }
      var data := body.value;
      if data.Null? || data.Undefined? {
        loading := false;
        return;
      }
      if data.Obj? {
        var m := data.fields;
        var a := Get(m, "achievements");
        if Truthy(a) {
          var na := NormalizeAchievements(a);
          if na.None? {
            loading := false;
            return;
          }
          m := m["achievements" := na.value];
        }
        var e := Get(m, "education");
        if Truthy(e) && e.Arr? {
          var entries := NormalizeEducationList(e.items);
          if entries.None? {
            loading := false;
            return;
          }
          m := m["education" := Arr(entries.value)];
        }
        data := Obj(m);
      }
      userDetails := data;
      loading := false;
    }

    /** `uploadResume`: the parsed reply's keys are spread over the details when the
        request succeeds; `parsed` is the decoded reply, None when decoding fails. */
    method UploadResume(ok: bool, parsed: Option<Val>)
      modifies this
      ensures ok && parsed.Some? ==> userDetails == Obj(Overlay(Spread(old(userDetails)), Spread(parsed.value)))
      ensures !(ok && parsed.Some?) ==> userDetails == old(userDetails)
      ensures !loading
    {
      loading := true;
      if ok && parsed.Some? {
        userDetails := Obj(Overlay(Spread(userDetails), Spread(parsed.value)));
      }
      loading := false;
    }
  }
}
