/** The portfolio form's editing logic: how a parsed resume is merged into the form,
    the per-entry change handlers of the project and experience lists, the guard in
    front of the single-field enhancement request, and accepting the suggestions of
    a whole-form enhancement. */
module FormInputs {
  import opened Optional
  import opened JsText
  import opened JsValues
  import ResumeParser

  /** `data.k` on a reply that is neither `null` nor `undefined`. */
  function Field(data: Val, k: string): Val {
    match data
    case Obj(m) => Get(m, k)
    case _ => Undefined
  }

  /** The keys the upload merge writes. */
  const MergedKeys: set<string> :=
    {"fullName", "email", "linkedin", "careerObjective", "skills", "projects", "experience", "achievements"}

  /** The keys taken over only when the reply's value is truthy. */
  predicate TextKey(k: string) {
    k == "fullName" || k == "email" || k == "linkedin" || k == "careerObjective"
  }

  /** `Array.isArray(v) ? v.join(sep) : v || previous`: the string-or-list fields. */
  function JoinedOr(v: Val, sep: string, previous: Val): Val {
    if v.Arr? then Str(JoinVals(v.items, sep)) else Or(v, previous)
  }

  /** `Array.isArray(v) ? v : previous`: the list-only fields. */
  function ListOr(v: Val, previous: Val): Val {
    if v.Arr? then v else previous
  }

  /** The value the upload merge gives merged key `k`. */
  function MergedValue(prev: map<string, Val>, data: Val, k: string): Val {
    if TextKey(k) then Or(Field(data, k), Get(prev, k))
    else if k == "skills" then JoinedOr(Field(data, k), ", ", Get(prev, k))
    else if k == "achievements" then JoinedOr(Field(data, k), "\n", Get(prev, k))
    else ListOr(Field(data, k), Get(prev, k))
  }

  /** The state updater `uploadResume` hands to `setFormData`: the previous form
      with the merged keys written over it; None when reading a field of the reply
      throws (a `null` reply). */
  function MergeUpload(prev: map<string, Val>, data: Val): (r: Option<map<string, Val>>)
    ensures r.None? <==> data.Null? || data.Undefined?
    ensures r.Some? ==> r.value.Keys == prev.Keys + MergedKeys
    ensures r.Some? ==> forall k :: k in prev && k !in MergedKeys ==> r.value[k] == prev[k]
  {
    if data.Null? || data.Undefined? then None
    else
      Some(map k | k in prev.Keys + MergedKeys :: if k in MergedKeys then MergedValue(prev, data, k) else prev[k])
  }

  /** What each merged key receives: a truthy name, email, LinkedIn or objective
      replaces the previous one; a skills or achievements list is joined, and any
      other truthy value taken; a projects or experience list, even an empty one,
      replaces the previous list, and nothing else does. */
  lemma MergeUploadFields(prev: map<string, Val>, data: Val)
    requires MergeUpload(prev, data).Some?
    ensures var r := MergeUpload(prev, data).value;
      forall k :: TextKey(k) ==> r[k] == (if Truthy(Field(data, k)) then Field(data, k) else Get(prev, k))
    ensures var r := MergeUpload(prev, data).value; var v := Field(data, "skills");
      r["skills"] == (if v.Arr? then Str(JoinVals(v.items, ", ")) else if Truthy(v) then v else Get(prev, "skills"))
    ensures var r := MergeUpload(prev, data).value; var v := Field(data, "achievements");
      r["achievements"] == (if v.Arr? then Str(JoinVals(v.items, "\n")) else if Truthy(v) then v else Get(prev, "achievements"))
    ensures var r := MergeUpload(prev, data).value; var v := Field(data, "projects");
      r["projects"] == (if v.Arr? then v else Get(prev, "projects"))
    ensures var r := MergeUpload(prev, data).value; var v := Field(data, "experience");
      r["experience"] == (if v.Arr? then v else Get(prev, "experience"))
  {
  }

  /** Merging a key a second time with the same reply gives what the first merge
      gave. */
  lemma MergedValueStable(prev: map<string, Val>, once: map<string, Val>, data: Val, k: string)
    requires k in MergedKeys && k in once && once[k] == MergedValue(prev, data, k)
    ensures MergedValue(once, data, k) == MergedValue(prev, data, k)
  {
  }

  /** Uploading the same reply twice leaves the form as uploading it once. */
  lemma MergeUploadIdempotent(prev: map<string, Val>, data: Val)
    requires MergeUpload(prev, data).Some?
    ensures MergeUpload(MergeUpload(prev, data).value, data) == MergeUpload(prev, data)
  {
    var once := MergeUpload(prev, data).value;
    var twice := MergeUpload(once, data).value;
    forall k | k in once
      ensures twice[k] == once[k]
    {
      if k in MergedKeys {
        MergedValueStable(prev, once, data, k);
      }
    }
    assert twice == once;
  }

  /** A reply built by the heuristic parser replaces the project list, but not the
      experience list, which it only ever holds as a single object; the headline,
      which the merge does not read, stays as it was. */
  lemma ParsedReplyMerge(prev: map<string, Val>, p: ResumeParser.Parsed, data: Val)
    requires p.experience != ResumeParser.NoJobs && data == Obj(ResumeParser.ToJson(p))
    ensures MergeUpload(prev, data).Some?
    ensures MergeUpload(prev, data).value["projects"] == Arr(ResumeParser.ProjectList(p.projects))
    ensures MergeUpload(prev, data).value["experience"] == Get(prev, "experience")
    ensures "headline" in prev ==> MergeUpload(prev, data).value["headline"] == prev["headline"]
  {
    ResumeParser.ToJsonKeys(p);
    assert Field(data, "projects") == Arr(ResumeParser.ProjectList(p.projects));
    ListReplyMerge(prev, data);
  }

  /** A reply whose projects are a list and whose experience is not replaces the
      projects and keeps the experience and the headline. */
  lemma ListReplyMerge(prev: map<string, Val>, data: Val)
    requires data.Obj? && Field(data, "projects").Arr? && !Field(data, "experience").Arr?
    ensures MergeUpload(prev, data).Some?
    ensures MergeUpload(prev, data).value["projects"] == Field(data, "projects")
    ensures MergeUpload(prev, data).value["experience"] == Get(prev, "experience")
    ensures "headline" in prev ==> MergeUpload(prev, data).value["headline"] == prev["headline"]
  {
    assert "headline" !in MergedKeys;
  }

  /** Uploading a resume the model could not read fills the project list from the
      heuristic parse and leaves the previous experience list in place. */
  lemma HeuristicReplyMerge(prev: map<string, Val>, text: string, data: Val)
    requires data == Obj(ResumeParser.ToJson(ResumeParser.Extract(text)))
    ensures MergeUpload(prev, data).Some?
    ensures MergeUpload(prev, data).value["projects"] == Arr(ResumeParser.ProjectList(ResumeParser.ProjectsField(text)))
    ensures MergeUpload(prev, data).value["experience"] == Get(prev, "experience")
  {
    ParsedReplyMerge(prev, ResumeParser.Extract(text), data);
  }

  /** `{...entry, [name]: value}`, the entry an edit writes back. */
  function SetField(entry: Val, name: string, value: Val): (r: Val)
    ensures r.Obj? && r.fields.Keys == Spread(entry).Keys + {name} && r.fields[name] == value
    ensures forall k :: k in Spread(entry) && k != name ==> r.fields[k] == Spread(entry)[k]
  {
    Obj(Spread(entry)[name := value])
  }

  /** The list after entry `index` has field `name` set to `value`. */
  function EditEntry(xs: seq<Val>, index: nat, name: string, value: Val): (r: seq<Val>)
    requires index < |xs|
    ensures |r| == |xs| && r[index] == SetField(xs[index], name, value)
    ensures forall i :: 0 <= i < |xs| && i != index ==> r[i] == xs[i]
  {
    xs[index := SetField(xs[index], name, value)]
  }

  /** Two edits of the same field of the same entry: only the last one counts. */
  lemma EditEntryTwice(xs: seq<Val>, index: nat, name: string, v1: Val, v2: Val)
    requires index < |xs|
    ensures EditEntry(EditEntry(xs, index, name, v1), index, name, v2) == EditEntry(xs, index, name, v2)
  {
    assert Spread(SetField(xs[index], name, v1))[name := v2] == Spread(xs[index])[name := v2];
  }

  /** Writing back the value an object entry already holds changes nothing. */
  lemma EditEntrySame(xs: seq<Val>, index: nat, name: string)
    requires index < |xs| && xs[index].Obj? && name in xs[index].fields
    ensures EditEntry(xs, index, name, xs[index].fields[name]) == xs
  {
    assert SetField(xs[index], name, xs[index].fields[name]) == xs[index];
  }

  /** `(exp.responsibilities || []).join("\n")`, the text the responsibilities box
      shows; None when a truthy non-list makes `join` throw. */
  function ResponsibilitiesText(v: Val): Option<string> {
    var shown := Or(v, Arr([]));
    if shown.Arr? then Some(JoinVals(shown.items, "\n")) else None
  }

  /** The list an edit of the responsibilities box stores: `value.split("\n")`. */
  function ResponsibilitiesOf(text: string): (r: Val)
    ensures r.Arr? && |r.items| >= 1
  {
    Arr(Strs(Split(text, "\n")))
  }

  /** Showing a non-empty list of newline-free lines and storing the text back gives
      the same list. */
  lemma ResponsibilitiesRoundTrip(xs: seq<string>)
    requires |xs| >= 1 && forall k :: 0 <= k < |xs| ==> '\n' !in xs[k]
    ensures ResponsibilitiesText(Arr(Strs(xs))) == Some(Join(xs, "\n"))
    ensures ResponsibilitiesOf(Join(xs, "\n")) == Arr(Strs(xs))
  {
    assert Or(Arr(Strs(xs)), Arr([])) == Arr(Strs(xs));
    JoinValsOfStrings(xs, "\n");
    SplitJoinChar(xs, '\n');
  }

  /** How a single-field enhancement request ends. */
  datatype EnhanceOutcome = Refused | TrimThrew | Requested

  /** `!text || text.trim().length < 5`: the text is missing or too short. */
  predicate TooShort(text: Val) {
    !Truthy(text) || (text.Str? && |Trim(text.s)| < 5)
  }

  /** The form's state. */
  class Form {
    var formData: map<string, Val>
    var enhancing: bool
    var enhancedText: Val
    var globallyEnhancedData: Val

    constructor (initial: map<string, Val>)
      ensures formData == initial && !enhancing
      ensures enhancedText == Str("") && globallyEnhancedData == Null
    {
      formData := initial;
      enhancing := false;
      enhancedText := Str("");
      globallyEnhancedData := Null;
    }

    /** `key` holds a list with an entry at `index`: the only case the form renders
        the entry's inputs, and so the only case their handlers run. */
    predicate ListAt(key: string, index: nat)
      reads this
    {
      key in formData && formData[key].Arr? && index < |formData[key].items|
    }

    /** `uploadResume`: nothing happens without a file; `data` is the decoded
        reply, None when the request or decoding fails. */
    method UploadResume(hasFile: bool, data: Option<Val>)
      modifies this
      ensures hasFile && data.Some? && MergeUpload(old(formData), data.value).Some?
        ==> formData == MergeUpload(old(formData), data.value).value
      ensures !(hasFile && data.Some? && MergeUpload(old(formData), data.value).Some?)
        ==> formData == old(formData)
      ensures enhancing == old(enhancing) && enhancedText == old(enhancedText)
      ensures globallyEnhancedData == old(globallyEnhancedData)
    {
      if !hasFile || data.None? {
        return;
      }
      var merged := MergeUpload(formData, data.value);
      if merged.Some? {
        formData := merged.value;
      }
    }

    /** `handleProjectChange(index, e)` with `e.target` = {name, value}. */
    method HandleProjectChange(index: nat, name: string, value: Val)
      requires ListAt("projects", index)
      modifies this
      ensures formData == old(formData)["projects" := Arr(EditEntry(old(formData)["projects"].items, index, name, value))]
      ensures enhancing == old(enhancing) && enhancedText == old(enhancedText)
      ensures globallyEnhancedData == old(globallyEnhancedData)
    {
      var newProjects := formData["projects"].items;
      newProjects := newProjects[index := SetField(newProjects[index], name, value)];
      formData := formData["projects" := Arr(newProjects)];
    }

    /** `handleExperienceChange(index, e)` with `e.target` = {name, value}. */
    method HandleExperienceChange(index: nat, name: string, value: Val)
      requires ListAt("experience", index)
      modifies this
      ensures formData == old(formData)["experience" := Arr(EditEntry(old(formData)["experience"].items, index, name, value))]
      ensures enhancing == old(enhancing) && enhancedText == old(enhancedText)
      ensures globallyEnhancedData == old(globallyEnhancedData)
    {
      var newExperience := formData["experience"].items;
      newExperience := newExperience[index := SetField(newExperience[index], name, value)];
      formData := formData["experience" := Arr(newExperience)];
    }

    /** `handleResponsibilitiesChange(index, e)`: the box's text, split into lines,
        becomes the entry's `responsibilities`. */
    method HandleResponsibilitiesChange(index: nat, text: string)
      requires ListAt("experience", index)
      modifies this
      ensures formData == old(formData)["experience" :=
        Arr(EditEntry(old(formData)["experience"].items, index, "responsibilities", ResponsibilitiesOf(text)))]
      ensures enhancing == old(enhancing) && enhancedText == old(enhancedText)
      ensures globallyEnhancedData == old(globallyEnhancedData)
    {
      var newExperience := formData["experience"].items;
      var lines := Split(text, "\n");
      newExperience := newExperience[index := SetField(newExperience[index], "responsibilities", Arr(Strs(lines)))];
      formData := formData["experience" := Arr(newExperience)];
    }

    /** `enhanceText(field, text)`: a missing or too short text is refused before
        any request; a truthy non-string makes `trim` throw. `reply` is the decoded
        answer, None when the request fails. */
    method EnhanceText(field: string, text: Val, reply: Option<Val>) returns (outcome: EnhanceOutcome)
      modifies this
      ensures outcome == Refused <==> TooShort(text)
      ensures outcome == TrimThrew <==> Truthy(text) && !text.Str?
      ensures outcome != Requested ==> enhancing == old(enhancing) && enhancedText == old(enhancedText)
      ensures outcome == Requested ==> !enhancing
      ensures outcome == Requested && reply.Some? && Prop(reply.value, "enhanced").Some?
        ==> enhancedText == Or(Prop(reply.value, "enhanced").value, Str(""))
      ensures outcome == Requested && (reply.None? || Prop(reply.value, "enhanced").None?)
        ==> enhancedText == Str("")
      ensures formData == old(formData) && globallyEnhancedData == old(globallyEnhancedData)
    {
      if !Truthy(text) {
        return Refused;
      }
      if !text.Str? {
        return TrimThrew;
      }
      if |Trim(text.s)| < 5 {
        return Refused;
      }
      enhancing := true;
      enhancedText := Str("");
      if reply.Some? {
        var enhanced := Prop(reply.value, "enhanced");
        if enhanced.Some? {
          enhancedText := Or(enhanced.value, Str(""));
        }
      }
      enhancing := false;
      outcome := Requested;
    }

    /** `acceptGlobalEnhancement`: the suggested keys overwrite the form's and the
        suggestion is cleared; without a suggestion nothing happens. */
    method AcceptGlobalEnhancement()
      modifies this
      ensures Truthy(old(globallyEnhancedData)) ==>
        formData == Overlay(old(formData), Spread(old(globallyEnhancedData))) && globallyEnhancedData == Null
      ensures !Truthy(old(globallyEnhancedData)) ==>
        formData == old(formData) && globallyEnhancedData == old(globallyEnhancedData)
      ensures enhancing == old(enhancing) && enhancedText == old(enhancedText)
    {
      if Truthy(globallyEnhancedData) {
        formData := Overlay(formData, Spread(globallyEnhancedData));
        globallyEnhancedData := Null;
      }
    }
  }

  /** Accepting a suggestion a second time changes nothing: the first acceptance
      cleared it. */
  method AcceptTwice(f: Form)
    modifies f
    ensures f.formData == (if Truthy(old(f.globallyEnhancedData)) then Overlay(old(f.formData), Spread(old(f.globallyEnhancedData))) else old(f.formData))
  {
    f.AcceptGlobalEnhancement();
    f.AcceptGlobalEnhancement();
  }
}
