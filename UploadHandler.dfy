/** The `/api/upload-resume` handler: the text of the uploaded file is first offered
    to the language model, whose reply is cleaned of Markdown code fences, cut down to
    its outermost `{...}` block and decoded as JSON; when any of these steps fails the
    heuristic `parseResumeText` result is sent instead. */
module UploadHandler {
  import opened Optional
  import opened JsText
  import opened JsValues
  import ResumeParser

  const Fence := "```"
  const JsonFence := "```json"

  /** No code fence left anywhere in `s`. */
  predicate FenceFree(s: string) {
    forall j :: 0 <= j < |s| ==> !MatchesAt(s, j, Fence)
  }

  /** `.replace(/```json\s*|```/g, "")` on `t[i..]`: scanning left to right, an opening
      "```json" fence takes the white space after it along, any other "```" goes on
      its own, and every other character is kept. */
  function StripFencesFrom(t: string, i: nat): string
    requires i <= |t|
    decreases |t| - i
  {
    if i == |t| then ""
    else if MatchesAt(t, i, JsonFence) then StripFencesFrom(t, SkipSpaces(t, i + 7))
    else if MatchesAt(t, i, Fence) then StripFencesFrom(t, i + 3)
    else [t[i]] + StripFencesFrom(t, i + 1)
  }

  /** The reply text once fences are removed and the result is trimmed. */
  function CleanReply(reply: string): string {
    Trim(StripFencesFrom(reply, 0))
  }

  /** A character that does not start a fence is kept. */
  lemma KeepHead(t: string, i: nat)
    requires i < |t| && !MatchesAt(t, i, Fence)
    ensures StripFencesFrom(t, i) == [t[i]] + StripFencesFrom(t, i + 1)
  {
    if i + 7 <= |t| {
      assert t[i..i + 7][..3] == t[i..i + 3];
    }
  }

  /** A kept backtick is never followed, in the output, by two more backticks: the
      scan would otherwise have seen a fence where it kept that backtick. */
  lemma BacktickHead(t: string, i: nat)
    requires i < |t| && t[i] == '`' && !MatchesAt(t, i, Fence)
    ensures var rest := StripFencesFrom(t, i + 1); |rest| < 2 || rest[0] != '`' || rest[1] != '`'
  {
    if i + 1 < |t| {
      if i + 2 < |t| && t[i + 1] == '`' {
        assert t[i..i + 3] == [t[i], t[i + 1], t[i + 2]];
        assert t[i + 2] != '`';
      }
      assert i + 4 <= |t| ==> t[i + 1..i + 4][0] == t[i + 1] && t[i + 1..i + 4][1] == t[i + 2];
      KeepHead(t, i + 1);
      if t[i + 1] == '`' && i + 2 < |t| {
        assert i + 5 <= |t| ==> t[i + 2..i + 5][0] == t[i + 2];
        KeepHead(t, i + 2);
      }
    }
  }

  /** Removing the fences leaves none behind, however the backticks were arranged. */
  lemma {:induction false} StripFencesFromFree(t: string, i: nat)
    requires i <= |t|
    decreases |t| - i
    ensures FenceFree(StripFencesFrom(t, i))
  {
    if i == |t| {
    } else if MatchesAt(t, i, JsonFence) {
      StripFencesFromFree(t, SkipSpaces(t, i + 7));
    } else if MatchesAt(t, i, Fence) {
      StripFencesFromFree(t, i + 3);
    } else {
      StripFencesFromFree(t, i + 1);
      KeepHead(t, i);
      if t[i] == '`' {
        BacktickHead(t, i);
      }
      ConsFenceFree(t[i], StripFencesFrom(t, i + 1));
    }
  }

  /** Putting a character in front of a fence-free text keeps it fence free unless
      that character is a backtick followed by two more. */
  lemma ConsFenceFree(c: char, rest: string)
    requires FenceFree(rest)
    requires c == '`' ==> |rest| < 2 || rest[0] != '`' || rest[1] != '`'
    ensures FenceFree([c] + rest)
  {
    var r := [c] + rest;
    forall j | 0 <= j < |r|
      ensures !MatchesAt(r, j, Fence)
    {
      if j == 0 {
        if |r| >= 3 {
          assert r[0..3] == [c, rest[0], rest[1]];
        }
      } else if j + 3 <= |r| {
        assert r[j..j + 3] == rest[j - 1..j + 2];
        assert !MatchesAt(rest, j - 1, Fence);
      }
    }
  }

  /** The cleaned reply holds no code fence. */
  lemma CleanReplyFenceFree(reply: string)
    ensures FenceFree(CleanReply(reply))
    ensures !Includes(CleanReply(reply), Fence)
  {
    var s := StripFencesFrom(reply, 0);
    StripFencesFromFree(reply, 0);
    var a := TrimIsInfix(s);
    SliceFenceFree(s, a, a + |Trim(s)|);
  }

  /** A reply without backticks loses nothing but its surrounding white space. */
  lemma {:induction false} StripFencesFromPlain(t: string, i: nat)
    requires i <= |t| && '`' !in t
    decreases |t| - i
    ensures StripFencesFrom(t, i) == t[i..]
  {
    if i < |t| {
      assert i + 3 <= |t| ==> t[i..i + 3][0] == t[i];
      KeepHead(t, i);
      StripFencesFromPlain(t, i + 1);
    }
  }

  lemma CleanPlainReply(reply: string)
    requires '`' !in reply
    ensures CleanReply(reply) == Trim(reply)
  {
    StripFencesFromPlain(reply, 0);
    assert reply[0..] == reply;
  }

  /** The last position of `c` in `s[..n]`. */
  function LastIndexBefore(s: string, c: char, n: nat): (r: Option<nat>)
    requires n <= |s|
    ensures r.Some? ==> r.value < n && s[r.value] == c
    ensures r.Some? ==> forall k :: r.value < k < n ==> s[k] != c
    ensures r.None? ==> forall k :: 0 <= k < n ==> s[k] != c
  {
    if n == 0 then None
    else if s[n - 1] == c then Some(n - 1)
    else LastIndexBefore(s, c, n - 1)
  }

  /** `s.match(/\{[\s\S]*\}/)`: the leftmost start is the first "{" (any later "{" with
      a "}" after it would leave the first one one too), and the greedy run ends at
      the last "}". The result is the span's first and last index. */
  function BraceBounds(s: string): (r: Option<(nat, nat)>)
    ensures r.Some? ==> r.value.0 < r.value.1 < |s|
    ensures r.Some? ==> s[r.value.0] == '{' && '{' !in s[..r.value.0]
    ensures r.Some? ==> s[r.value.1] == '}' && '}' !in s[r.value.1 + 1..]
    ensures r.None? <==> forall o, q :: 0 <= o < q < |s| && s[o] == '{' ==> s[q] != '}'
  {
    match IndexOfChar(s, '{')
    case None => None
    case Some(o) =>
      match LastIndexBefore(s, '}', |s|)
      case None => None
      case Some(q) =>
        if o < q then Some((o, q))
        else
          None
  }

  /** The text `JSON.parse` receives: `jsonMatch[0]`. */
  function JsonSpan(s: string): (r: Option<string>)
    ensures r.Some? ==> |r.value| >= 2 && r.value[0] == '{' && r.value[|r.value| - 1] == '}'
    ensures r.Some? <==> exists o, q :: 0 <= o < q < |s| && s[o] == '{' && s[q] == '}'
  {
    match BraceBounds(s)
    case None => None
    case Some(b) => Some(s[b.0..b.1 + 1])
  }

  /** The model's answer once decoded: None when the model call throws, when the
      cleaned reply has no `{...}` block, or when `parse` (JSON.parse) throws. */
  function AiParse(aiReply: Option<string>, parse: string -> Option<Val>): Option<Val> {
    match aiReply
    case None => None
    case Some(t) =>
      match JsonSpan(CleanReply(t))
      case None => None
      case Some(j) => parse(j)
  }

  /** A slice of a fence-free text is fence free. */
  lemma SliceFenceFree(s: string, lo: nat, hi: nat)
    requires lo <= hi <= |s| && FenceFree(s)
    ensures FenceFree(s[lo..hi])
  {
    var j := s[lo..hi];
    forall k | 0 <= k < |j|
      ensures !MatchesAt(j, k, Fence)
    {
      if k + 3 <= |j| {
        assert j[k..k + 3] == [j[k], j[k + 1], j[k + 2]];
        assert s[lo + k..lo + k + 3] == [s[lo + k], s[lo + k + 1], s[lo + k + 2]];
        assert !MatchesAt(s, lo + k, Fence);
      }
    }
  }

  /** What `JSON.parse` is handed is a fence-free slice of the cleaned reply that runs
      from a "{" to a "}". */
  lemma ParsedSpanShape(reply: string, j: string)
    requires JsonSpan(CleanReply(reply)) == Some(j)
    ensures FenceFree(j) && j[0] == '{' && j[|j| - 1] == '}'
  {
    var c := CleanReply(reply);
    CleanReplyFenceFree(reply);
    SpanFenceFree(c);
    assert JsonSpan(c).value == j;
  }

  /** The `{...}` span of a fence-free text is fence free. */
  lemma SpanFenceFree(c: string)
    requires FenceFree(c)
    ensures JsonSpan(c).Some? ==> FenceFree(JsonSpan(c).value)
  {
    if BraceBounds(c).Some? {
      var b := BraceBounds(c).value;
      SliceFenceFree(c, b.0, b.1 + 1);
    }
  }

  /** The uploaded file: its MIME type, and the text the PDF or DOCX reader extracts
      from it (None when the reader throws). */
  datatype UploadedFile = UploadedFile(mimetype: string, extracted: Option<string>)

  /** An HTTP reply: status code and body. */
  datatype Reply = Reply(status: nat, body: Val)

  const PdfType := "application/pdf"
  const DocxType := "application/vnd.openxmlformats-officedocument.wordprocessingml.document"

  /** A PDF or a DOCX file. */
  predicate Supported(f: UploadedFile) {
    f.mimetype == PdfType || f.mimetype == DocxType
  }

  const NoFileReply := Reply(400, Str("No file uploaded."))
  const UnsupportedReply := Reply(400, Str("Unsupported file type. Please upload a PDF or DOCX."))
  const ServerErrorReply := Reply(500, Obj(map["error" := Str("Error processing resume file on the server.")]))

  /** The handler. `aiReply` is the model's reply text to the extraction prompt built
      from the file's text (None when the call throws; an absent `response.text` is
      the empty string), and `parse` stands for `JSON.parse`. */
  method UploadResume(file: Option<UploadedFile>, aiReply: Option<string>, parse: string -> Option<Val>)
    returns (reply: Reply)
    ensures file.None? ==> reply == NoFileReply
    ensures file.Some? && !Supported(file.value) ==> reply == UnsupportedReply
    ensures file.Some? && Supported(file.value) && file.value.extracted.None? ==> reply == ServerErrorReply
    ensures file.Some? && Supported(file.value) && file.value.extracted.Some? ==> reply.status == 200
    ensures file.Some? && Supported(file.value) && file.value.extracted.Some? && AiParse(aiReply, parse).Some?
      ==> reply.body == AiParse(aiReply, parse).value
    ensures file.Some? && Supported(file.value) && file.value.extracted.Some? && AiParse(aiReply, parse).None?
      ==> reply.body == Obj(ResumeParser.ToJson(ResumeParser.Extract(file.value.extracted.value)))
    ensures file.Some? && Supported(file.value) && file.value.extracted.Some? && AiParse(aiReply, parse).None?
      ==> "projects" in reply.body.fields && "careerObjective" !in reply.body.fields
  {
    if file.None? {
      return NoFileReply;
    }
    var f := file.value;
    if !Supported(f) {
      return UnsupportedReply;
    }
    if f.extracted.None? {
      return ServerErrorReply;
    }
    var text := f.extracted.value;
    var parsedData: Val;
    var ai := AiParse(aiReply, parse);
    if ai.Some? {
      parsedData := ai.value;
    } else {
      var response := ResumeParser.ParseResumeText(text);
      parsedData := Obj(response);
    }
    reply := Reply(200, parsedData);
  }
}
