# Resume import and form logic of the portfolio generator, in Dafny

This project models the parts of the portfolio generator that turn a resume into
portfolio details, and the form logic that edits those details:

- **The upload endpoint** (`/api/upload-resume` in `backend/server.js`). It sends the
  resume text to a language model. It removes Markdown code fences from the reply and
  cuts the reply down to its outermost `{...}` block, which it decodes as JSON. When
  any of these steps fails, it answers with the heuristic parser's result instead.
- **The heuristic parser** (`parseResumeText`). Its regular expressions are written
  as scanners that find the match JavaScript's backtracking engine reports. Each
  scanner is proved against a declarative description of the strings its pattern
  accepts: the reported match is the leftmost one, and the longest at that start
  for the greedy patterns. The response is then assembled key by key.
- **The portfolio form** (`FormInputs.jsx`). This covers the merge of an uploaded
  resume into the form, the per-entry change handlers, the guard in front of the
  single-field enhancement request, and accepting a whole-form suggestion.
- **The shared portfolio state** (`PortfolioContext.jsx`). This covers the initial
  details, the normalisation of details loaded from the server, and the resume merge.
- **The sign-up page's validation** (`SignUpPage.jsx`).
- **The scripted chat assistant** (`Chatbot.jsx`): its eleven questions, how an input
  is classed as a question for the model, skipping, storing answers, and step
  advancement.

JavaScript values are the datatype `JsValues.Val`. Truthiness, `||`, property
reads, `Array.prototype.join` and object spread are written out in `JsValues`.
Strings are sequences of Unicode scalar values (Dafny's `char`). JavaScript's `length` agrees with `|s|` only for text inside the Basic Multilingual Plane. White space (`\s`, `trim`) and ASCII
case folding are in `JsText`. A property read that throws a `TypeError` is `None`.
Every JSON reply, model reply, HTTP status and extracted file text is a parameter.

`backend/server.js` answers with the decoded model object, or with
`parseResumeText`'s object, unchanged. The parse keeps the code's behaviour for
`careerObjective`, which it never sets (see "## Findings"); the intended reading is
modelled beside it and proved to differ.

## Model

| member | source | states |
|---|---|---|
| JsValues.Overlay | frontend/src/components/PortfolioContext.jsx:152 | `{...prev, ...extra}`: the keys are the union, a key of `extra` takes its value from `extra`, every other key keeps its value |
| JsValues.OverlayIdempotent | frontend/src/components/FormInputs.jsx:137 | spreading the same keys a second time changes nothing more |
| JsValues.JoinValsOfStrings | frontend/src/components/FormInputs.jsx:348 | `join` on an array of strings is the join of the strings themselves |
| JsValues.NatToStringInjective | frontend/src/components/PortfolioContext.jsx:152 | distinct array indices give distinct spread keys |
| JsText.Trim | backend/server.js:749 | the trimmed text has no white space at either end, and is empty exactly when the input is all white space |
| JsText.TrimIsInfix | backend/server.js:749 | trimming removes only white space, and only at the two ends |
| JsText.TrimIdempotent | backend/server.js:786 | trimming twice is trimming once |
| JsText.SplitJoinChar | frontend/src/components/FormInputs.jsx:34 | splitting the join of separator-free pieces at that separator gives back the pieces |
| JsText.ReplaceAllIsSplitJoin | backend/server.js:773 | a global literal `replace` is `split` then `join` |
| JsText.IncludesTransitive | frontend/src/components/Chatbot.jsx:110 | a text that includes `r` includes everything `r` includes |
| ResumePatterns.RunEnd | backend/server.js:735 | a greedy run of one character class stops at the first character outside the class |
| ResumePatterns.EmailAtExact | backend/server.js:735 | from a given start, the email scanner's match is accepted by the pattern and no accepted match from there is longer |
| ResumePatterns.EmailAtComplete | backend/server.js:735 | every string the email pattern accepts from a start is covered by the scanner's match there |
| ResumePatterns.NameAtExact | backend/server.js:741 | the name scanner reports a line-start match of two capitalised words, and the longest one |
| ResumePatterns.GithubAtExact | backend/server.js:759 | the GitHub URL scanner reports a match of the case-insensitive pattern, and the longest one at that start |
| ResumePatterns.MatchAtExact | backend/server.js:735-759 | for each of the three patterns, the match at a start is accepted and maximal |
| ResumePatterns.FindFrom | backend/server.js:735 | the search reports the first start at which the pattern matches, and nothing when it matches nowhere |
| ResumePatterns.FindFromExact | backend/server.js:735 | `match` reports the leftmost match and, at that start, the longest; no match means no accepted substring |
| ResumePatterns.FindExists | backend/server.js:736 | a match is reported exactly when the pattern accepts some substring |
| ResumePatterns.FindSpan | backend/server.js:737 | the reported text is a substring accepted by the pattern |
| ResumePatterns.LineEnd | backend/server.js:753 | `.*` runs to the first line terminator |
| ResumePatterns.LabelledRest | backend/server.js:753 | `/tag(.*)/` matches exactly when the tag occurs; group 1 is the rest of that line after the first occurrence |
| ResumePatterns.GithubUrlMatch | backend/server.js:759 | the URL `match` has only group 0, the found URL |
| ResumePatterns.FirstStop | backend/server.js:771 | the lookahead stops at the first position where one of its literals occurs, case ignored |
| ResumePatterns.FindSection | backend/server.js:771 | a lazy section pattern takes the leftmost heading that has a stop after it, and the nearest stop |
| ResumePatterns.RestAfter | backend/server.js:837 | `/head([\s\S]*)/i` matches exactly when the heading occurs; the group is everything after its first occurrence |
| ResumePatterns.CutCommaTail | backend/server.js:780 | `replace(/,.*$/, '')` cuts at the first comma after which the text has no line break, and changes nothing without one |
| ResumePatterns.ParenFrom | backend/server.js:780 | the leftmost `(` with a `)` on the same line, and the nearest such `)` |
| ResumePatterns.ParenGroup | backend/server.js:780 | the duration is the text inside the first parentheses of the line, when there are any |
| ResumePatterns.GapScan | backend/server.js:816 | the lazy group ends at the nearest two-space gap |
| ResumePatterns.GapFrom | backend/server.js:816 | `(.*?)\s{2,}` matches at the leftmost start with a gap, ending at the nearest gap |
| ResumePatterns.CompanyMatch | backend/server.js:816 | the company pattern matches exactly when a line part is followed by two white-space characters; group 1 is the text from the leftmost match start up to the nearest gap, with no line break |
| ResumePatterns.GapFromStart | backend/server.js:816-818 | on a line with a gap reachable from its start, the match starts at 0 and its lazy group stops at the first gap |
| ResumePatterns.TitleDurationMatch | backend/server.js:818 | group 1 is the company pattern's group; group 2 is the rest of the line after the whole white-space run that follows the gap |
| ResumePatterns.FirstSummaryStop | backend/server.js:765 | the summary lookahead stops at the first blank line followed by a letter, or by a run of letters and white space that reaches a line end (case ignored) |
| ResumePatterns.CareerObjectiveMatch | backend/server.js:765 | the summary pattern's match has exactly one capture group |
| ResumeParser.EmailShape | backend/server.js:735-738 | the reported e-mail is a piece of the text and holds an `@` |
| ResumeParser.NameShape | backend/server.js:741-744 | the reported name is two capitalised words of lower-case letters with one space between |
| ResumeParser.HeadlineField | backend/server.js:747-750 | a headline exists exactly when the text's second line is non-empty, shorter than 100 characters and free of `@`; the value has no line break |
| ResumeParser.HeadlineOfLines | backend/server.js:747-750 | on a text of lines, the headline is the trimmed second line when it is non-empty, shorter than 100 characters and free of `@` |
| ResumeParser.LinkedinField | backend/server.js:753-756 | set exactly when `linkedin:` occurs with text after it on its line; the value is the profile prefix followed by that text trimmed |
| ResumeParser.GithubField | backend/server.js:759-762 | set exactly when a GitHub URL or a `github:` label occurs |
| ResumeParser.GithubFromUrl | backend/server.js:759-761 | a found URL wins and is kept when it starts with `http`, otherwise `https://` is put in front |
| ResumeParser.GithubFromLabel | backend/server.js:759-761 | without a URL, the label gives the trimmed rest of its line, or `https://github:` when that rest is empty |
| ResumeParser.CareerObjectiveAsWritten | backend/server.js:765-768 | as written, the objective is never set: group 2 of a one-group match is `undefined`; the parse uses this reading |
| ResumeParser.CareerObjectiveField | backend/server.js:765-768 | corrected: set exactly when the summary pattern matches with a non-empty group 1; the value is group 1 trimmed |
| ResumeParser.CareerObjectiveDiscrepancy | backend/server.js:765-768 | on `SUMMARY\nx\n\nA` the code as written sets nothing, and the corrected reading gives `x` |
| ResumeParser.FilledSection | backend/server.js:771-772 | a section counts only when its pattern matches with a non-empty body |
| ResumeParser.CleanSkills | backend/server.js:773 | the cleaned skills text has no line feed |
| ResumeParser.CommaListGaps | backend/server.js:773 | in comma-free non-empty pieces joined by `, `, every comma is followed by a space and a non-comma |
| ResumeParser.CommaListClean | backend/server.js:773 | such a join holds no `, ,` and does not end in a comma |
| ResumeParser.SkillsOfLines | backend/server.js:773 | a skills section with one skill per line becomes the skills joined by `, ` |
| ResumeParser.SkillsField | backend/server.js:771-774 | skills are set exactly when the section has a body, as one line |
| ResumeParser.EducationOf | backend/server.js:779-780 | the degree has no `(` and no field has a line feed |
| ResumeParser.UniversityBeforeComma | backend/server.js:780 | the university is its line up to the first comma |
| ResumeParser.EducationField | backend/server.js:777-781 | education is set exactly when its section has a body |
| ResumeParser.TechValueOfLine | backend/server.js:798 | a `key: value` technologies line gives the trimmed value |
| ResumeParser.DescriptionLines | backend/server.js:795-802 | the description takes exactly the lines that are not technologies lines |
| ResumeParser.DescriptionIsJoin | backend/server.js:795-804 | the description is those lines, in order, each followed by a space |
| ResumeParser.LastTechLineWins | backend/server.js:795-802 | the last technologies line decides the technologies |
| ResumeParser.NoTechLine | backend/server.js:792-802 | without a technologies line the technologies are empty |
| ResumeParser.ProjectLoopStep | backend/server.js:795-802 | one turn of the loop appends the line to the description or replaces the technologies |
| ResumeParser.ScanProjectLines | backend/server.js:795-802 | the loop over the lines after the title leaves exactly `DescriptionOf` and `TechnologiesOf` of those lines |
| ResumeParser.ParseProjectBlock | backend/server.js:788-805 | the block's project is its trimmed first line plus the loop's results over the other lines; the title has no line feed |
| ResumeParser.ProjectTitleOneLine | backend/server.js:789-790 | a project's title never holds a line feed, since it is one piece of the split at line feeds |
| ResumeParser.ProjectBlocks | backend/server.js:784-787 | no section gives no blocks, a section gives at least one, and no block holds a blank line |
| ResumeParser.ProjectsField | backend/server.js:784-806 | one project per block, in order |
| ResumeParser.ParseProjects | backend/server.js:788-805 | `map` over the blocks: same length, each block's project in its place |
| ResumeParser.CompanyOf | backend/server.js:816-817 | the whole line trimmed when it has no gap, otherwise the matched text before the gap trimmed; no line feed from a line without one |
| ResumeParser.JobTitleOf | backend/server.js:818-823 | empty when the line has no gap, otherwise the matched text before the gap trimmed |
| ResumeParser.DurationOf | backend/server.js:818-823 | empty when the line has no gap, otherwise the rest of the line after the white-space run, trimmed |
| ResumeParser.CompanyAtFirstGap | backend/server.js:816-817 | on a line whose first gap is at `j`, the company is the text before `j`, trimmed |
| ResumeParser.JobTitleAtFirstGap | backend/server.js:818-822 | on a line whose first gap is at `j`, the job title is the text before `j`, trimmed |
| ResumeParser.DurationAtFirstGap | backend/server.js:818-823 | on a line without line terminators whose first gap is at `j`, the duration is everything after the white-space run at `j`, trimmed |
| ResumeParser.LineEndOfLine | backend/server.js:818 | `(.*)` on a line without line terminators runs to the end of the line |
| ResumeParser.FieldsWithoutGap | backend/server.js:816-823 | on a line without two adjacent white-space characters, the company is the whole line trimmed and job title and duration are empty |
| ResumeParser.ExperienceOf | backend/server.js:811-832 | an entry is built exactly when the first blank-line block has at least two lines; its company comes from line one, job title and duration from line two, responsibilities from the lines after; none of the one-line fields holds a line feed |
| ResumeParser.ExperienceNeverEmptyList | backend/server.js:812-833 | the branch that stores an empty experience list is never taken |
| ResumeParser.ExperienceField | backend/server.js:809-834 | no section means no experience; a section with a body gives that body's entry; experience is never a list |
| ResumeParser.NonEmpty | backend/server.js:839 | `filter(Boolean)` keeps exactly the non-empty strings |
| ResumeParser.NonEmptySingle | backend/server.js:839 | one string is kept exactly when it is not empty |
| ResumeParser.NonEmptyAppend | backend/server.js:839 | filtering a concatenation concatenates the filtered parts, so order and repetitions are kept |
| ResumeParser.AchievementsField | backend/server.js:837-840 | achievements are set exactly when the text after the heading is non-empty; they are the non-empty lines of that text trimmed, in order |
| ResumeParser.ToJsonUpTo | backend/server.js:731-806 | before experience and achievements, the response always holds the project list |
| ResumeParser.ToJsonKeys | backend/server.js:731-842 | `projects` is always present; `experience`, `careerObjective` and `achievements` are present exactly when found; a job becomes one object |
| ResumeParser.ResponseShape | backend/server.js:731-842 | for any text, projects is a list, experience, when present, an object, and there is no `careerObjective` |
| ResumeParser.ParseResumeText | backend/server.js:731-843 | the response built key by key is the response of the parse result, and it never holds `careerObjective` |
| UploadHandler.StripFencesFromFree | backend/server.js:707-709 | removing the fences leaves no three backticks in a row anywhere, however the backticks are arranged |
| UploadHandler.CleanReplyFenceFree | backend/server.js:707-709 | the cleaned reply holds no code fence |
| UploadHandler.CleanPlainReply | backend/server.js:707-709 | a reply without backticks is only trimmed |
| UploadHandler.LastIndexBefore | backend/server.js:712 | the last position of a character, with none after it |
| UploadHandler.BraceBounds | backend/server.js:712 | the span runs from the first `{` to the last `}`; none exactly when no `{` comes before a `}` |
| UploadHandler.JsonSpan | backend/server.js:712-713 | the text handed to `JSON.parse` starts with `{` and ends with `}`; it exists exactly when a `{` precedes a `}` |
| UploadHandler.SliceFenceFree | backend/server.js:712 | a slice of a fence-free text is fence free |
| UploadHandler.ParsedSpanShape | backend/server.js:707-715 | what `JSON.parse` receives is fence free and runs from `{` to `}` |
| UploadHandler.UploadResume | backend/server.js:659-728 | no file gives 400, another type gives 400, an extraction error gives 500; otherwise 200 with the model's object, or the heuristic response exactly when the model path fails, which lists projects and has no `careerObjective` |
| FormInputs.MergeUpload | frontend/src/components/FormInputs.jsx:60-76 | the merge writes exactly the eight merged keys and keeps every other key; a `null` reply throws |
| FormInputs.MergeUploadFields | frontend/src/components/FormInputs.jsx:62-75 | a truthy name, email, LinkedIn or objective replaces the old one; skills and achievements lists are joined; projects and experience change only for a list |
| FormInputs.MergeUploadIdempotent | frontend/src/components/FormInputs.jsx:60-76 | merging the same reply twice gives what merging it once gives |
| FormInputs.MergedValueStable | frontend/src/components/FormInputs.jsx:62-75 | re-merging a merged key with the same reply keeps its value |
| FormInputs.ListReplyMerge | frontend/src/components/FormInputs.jsx:69-72 | a reply whose projects are a list and whose experience is not replaces the projects and keeps the experience and the headline |
| FormInputs.ParsedReplyMerge | frontend/src/components/FormInputs.jsx:69-72 | a heuristic reply replaces the project list but never the experience list; the headline is kept |
| FormInputs.HeuristicReplyMerge | frontend/src/components/FormInputs.jsx:69-72 | after a heuristic upload the projects are the parsed blocks and experience is as before |
| FormInputs.SetField | frontend/src/components/FormInputs.jsx:19 | the edited entry has the new field value and every other field of the old entry |
| FormInputs.EditEntry | frontend/src/components/FormInputs.jsx:18-19 | only the entry at `index` changes |
| FormInputs.EditEntryTwice | frontend/src/components/FormInputs.jsx:16-28 | two edits of the same field: the last one counts |
| FormInputs.EditEntrySame | frontend/src/components/FormInputs.jsx:16-28 | writing back a field's own value changes nothing |
| FormInputs.ResponsibilitiesOf | frontend/src/components/FormInputs.jsx:34 | an edit always stores a non-empty list |
| FormInputs.ResponsibilitiesRoundTrip | frontend/src/components/FormInputs.jsx:34 | showing newline-free lines and storing the shown text back gives the same list |
| FormInputs.Form.constructor | frontend/src/components/FormInputs.jsx:60 | the form starts from the given details, with no suggestion pending |
| FormInputs.Form.UploadResume | frontend/src/components/FormInputs.jsx:48-81 | the form becomes the merge of the reply, or stays as it was when there is no file or the request fails |
| FormInputs.Form.HandleProjectChange | frontend/src/components/FormInputs.jsx:16-21 | only field `name` of project `index` changes |
| FormInputs.Form.HandleExperienceChange | frontend/src/components/FormInputs.jsx:23-28 | only field `name` of experience entry `index` changes |
| FormInputs.Form.HandleResponsibilitiesChange | frontend/src/components/FormInputs.jsx:30-37 | the entry's responsibilities become the box's lines; nothing else changes |
| FormInputs.Form.EnhanceText | frontend/src/components/FormInputs.jsx:89-107 | a missing or short text is refused before any request, a non-string throws, otherwise the reply's `enhanced` text or `""` is stored |
| FormInputs.Form.AcceptGlobalEnhancement | frontend/src/components/FormInputs.jsx:135-141 | a pending suggestion is spread over the form and cleared; without one nothing changes |
| FormInputs.AcceptTwice | frontend/src/components/FormInputs.jsx:135-141 | a second acceptance changes nothing |
| PortfolioContext.InitialTextFields | frontend/src/components/PortfolioContext.jsx:16-30 | every text field starts as the empty string |
| PortfolioContext.InitialLists | frontend/src/components/PortfolioContext.jsx:25-29 | each list starts with exactly one entry; no image; the classic template |
| PortfolioContext.Wrapped | frontend/src/components/PortfolioContext.jsx:77-78 | each string item is wrapped as a quote, other items are kept |
| PortfolioContext.KeepQuote | frontend/src/components/PortfolioContext.jsx:79 | an item is kept exactly when its quote is a string that is not blank |
| PortfolioContext.FilterQuoted | frontend/src/components/PortfolioContext.jsx:79 | the filter never lengthens the list |
| PortfolioContext.FilterQuotedThrows | frontend/src/components/PortfolioContext.jsx:79 | the filter throws exactly when the test throws on some item |
| PortfolioContext.FilterQuotedSound | frontend/src/components/PortfolioContext.jsx:79 | every kept item comes from the list and has a usable quote |
| PortfolioContext.FilterQuotedComplete | frontend/src/components/PortfolioContext.jsx:79 | every item with a usable quote is kept |
| PortfolioContext.FilterQuotedAppend | frontend/src/components/PortfolioContext.jsx:79 | the filter keeps the items' order |
| PortfolioContext.FilterQuotedKeepsQuotes | frontend/src/components/PortfolioContext.jsx:79 | a list of usable quotes passes whole |
| PortfolioContext.NormalizeAchievements | frontend/src/components/PortfolioContext.jsx:73-81 | a string becomes one quote; a non-empty list is wrapped and filtered; falsy values and the empty list are untouched |
| PortfolioContext.QuotesReload | frontend/src/components/PortfolioContext.jsx:76-79 | normalised quotes survive a second load unchanged |
| PortfolioContext.EducationEntry | frontend/src/components/PortfolioContext.jsx:85-90 | each entry gets exactly the four keys, a falsy value becoming `''` |
| PortfolioContext.EducationEntryIdempotent | frontend/src/components/PortfolioContext.jsx:85-90 | normalising an entry twice is normalising it once |
| PortfolioContext.NormalizeEducationList | frontend/src/components/PortfolioContext.jsx:84-91 | same length, same order, each entry normalised; throws exactly on a `null` or `undefined` entry |
| PortfolioContext.NormalizeLoaded | frontend/src/components/PortfolioContext.jsx:72-93 | every key other than achievements and education passes through unchanged |
| PortfolioContext.LoadedShape | frontend/src/components/PortfolioContext.jsx:74-91 | string achievements become one quote; education entries keep their number and get exactly the four keys |
| PortfolioContext.Portfolio.constructor | frontend/src/components/PortfolioContext.jsx:16-30 | the state starts from the initial details |
| PortfolioContext.Portfolio.FetchUserDetails | frontend/src/components/PortfolioContext.jsx:48-101 | without a token nothing happens; a good reply is normalised and stored; anything else keeps the details; loading ends cleared |
| PortfolioContext.Portfolio.UploadResume | frontend/src/components/PortfolioContext.jsx:134-160 | the parsed reply's keys overwrite, all other keys are kept |
| SignUp.EmailTest | frontend/src/pages/SignUpPage.jsx:41-42 | an accepted address has an `@` and no white space |
| SignUp.EmailTestSound | frontend/src/pages/SignUpPage.jsx:41 | what the scan accepts has the pattern's shape |
| SignUp.EmailTestComplete | frontend/src/pages/SignUpPage.jsx:41 | every address of the pattern's shape is accepted |
| SignUp.EmailTestMeansShape | frontend/src/pages/SignUpPage.jsx:41-42 | the scan accepts exactly the addresses the pattern describes |
| SignUp.EmailNeedsAt | frontend/src/pages/SignUpPage.jsx:41-42 | an address with white space or without `@` fails |
| SignUp.SignUpForm.constructor | frontend/src/pages/SignUpPage.jsx:23-24 | the page starts with empty fields and no errors |
| SignUp.ErrorsFor | frontend/src/pages/SignUpPage.jsx:23-45 | the errors for four field values: each key is present exactly when its check fails, with its message, and no other key; none exactly when all four checks pass |
| SignUp.SignUpForm.ValidateForm | frontend/src/pages/SignUpPage.jsx:23-48 | the recorded errors are `ErrorsFor` the current fields: each error exactly when its check fails, with its message, and no other key; the form is valid exactly when no error was recorded |
| SignUp.SignUpForm.HandleSubmit | frontend/src/pages/SignUpPage.jsx:50-60 | the errors shown under the fields are `ErrorsFor` the current fields; login and navigation happen exactly when every check passes |
| Chatbot.QuestionByWord | frontend/src/components/Chatbot.jsx:110 | an input holding a question word, once lower-cased, is a question |
| Chatbot.SkipIsQuestion | frontend/src/components/Chatbot.jsx:110 | `skip` holds the word `i`, so it goes to the model |
| Chatbot.LetterIMakesQuestion | frontend/src/components/Chatbot.jsx:110 | any input with an `i` or `I` is a question |
| Chatbot.ResponseListed | frontend/src/components/Chatbot.jsx:20-85 | every optional response of every step is one of ten listed responses |
| Chatbot.OptionalResponsesAsk | frontend/src/components/Chatbot.jsx:20-85 | every listed response except `don't have` and `later` holds a question word |
| Chatbot.SkipOnlyByDontHaveOrLater | frontend/src/components/Chatbot.jsx:110-133 | an input that reaches the script and skips holds `don't have` or `later` |
| Chatbot.NoIsQuestion | frontend/src/components/Chatbot.jsx:110 | `no` is itself a question word, so it goes to the model |
| Chatbot.SkipSkipsIntended | frontend/src/components/Chatbot.jsx:129-136 | if the optional responses were tested first, `skip` would skip every question that lists it and leave the details unchanged |
| Chatbot.QuestionsBraceFree | frontend/src/components/Chatbot.jsx:20-85 | no scripted question has a `{` |
| Chatbot.NoPlaceholder | frontend/src/components/Chatbot.jsx:149-151 | no scripted question holds `{{fullName}}`, so the personalisation never applies |
| Chatbot.ModelAnswer | frontend/src/components/Chatbot.jsx:119-123 | a failed request shows the apology; an object reply shows its `reply` |
| Chatbot.Recorded | frontend/src/components/Chatbot.jsx:131-141 | a skip of an optional question leaves the details; any other answer stores the raw input under the step's key and keeps the other keys |
| Chatbot.Chat.constructor | frontend/src/components/Chatbot.jsx:12-18 | the chat starts empty at step 0 |
| Chatbot.Chat.Open | frontend/src/components/Chatbot.jsx:93-98 | opening an empty chat shows the first question |
| Chatbot.Chat.HandleSend | frontend/src/components/Chatbot.jsx:100-166 | a blank input or a send while loading changes nothing; otherwise the user message and one bot message are appended; a question leaves step and details; an answer is recorded and the step advances by one, or stays at the end with the form suggestion |
| Chatbot.Chat.AskModel | frontend/src/components/Chatbot.jsx:112-126 | the question branch appends the model's answer and changes neither the step nor the details |
| Chatbot.Chat.FollowScript | frontend/src/components/Chatbot.jsx:128-165 | the answer is recorded, then the next question is shown and the step moves on, or the form suggestion is shown at the end |

## Left out

- Reading the PDF or DOCX file is left out. The extracted text, or its failure, is a parameter of `UploadHandler.UploadResume`.
- `UploadHandler.UploadResume`: `JSON.parse` is an unconstrained parameter. The model does not assume that a text running from `{` to `}` parses only to an object, so the 200 body is stated as the parsed value, not as an object.
- The language model is a parameter: the model's reply text, or its failure, and `JSON.parse` as a function from text to an optional value.
- JSON decoding of replies on the front end, `fetch`, tokens, toasts, alerts and `console` output are left out. Every decoded reply or status is a parameter.
- `setTimeout` in the chat and React's asynchronous state updates are left out. Each handler is one atomic state change. A handler that reads a stale `userDetails` closure is not modelled.
- `Chatbot.Chat.HandleSend`: the `/api/chatbot` request body, which holds the message history, is not modelled. Only the reply's effect is.
- `FormInputs.Form.EnhanceText`: the `/api/enhance` request itself is not modelled. `enhancing` is set and cleared within the one call. The page's render never calls `enhanceText`, so nothing in `FormInputs.jsx` reaches this handler; only `enhanceAllWithAI`, `acceptGlobalEnhancement` and `rejectGlobalEnhancement` are wired to buttons (lines 152, 244 and 247).
- `enhanceAllWithAI` and `rejectGlobalEnhancement` are left out. Only the pending suggestion they produce or clear is modelled, as the field `globallyEnhancedData`.
- `setResume` in `uploadResume` of `PortfolioContext.jsx` is left out: it stores the file object, which the model does not represent.
- Numbers are represented by their JavaScript string form, which is all the code observes of them. Arithmetic on them is not modelled.
- `toLowerCase` is ASCII lower-casing. Characters outside ASCII with a lower-case mapping are left unchanged.
- Key order of JavaScript objects is not modelled: objects are maps.
- `SignUp.SignUpForm.ValidateForm` (and so `SignUp.SignUpForm.HandleSubmit`): the password length test counts Unicode scalar values, not UTF-16 code units. A password with characters outside the Basic Multilingual Plane is longer in JavaScript: "😀😀😀😀" passes `length >= 8` there but is recorded as too short here.
- `ResumeParser.HeadlineField`: the `length < 100` test counts Unicode scalar values, so for a line with characters outside the Basic Multilingual Plane the model can accept a headline that JavaScript rejects.
- `PortfolioContext.Portfolio.UploadResume`: whether the request reaches the upload handler is not modelled. It posts to `/upload-resume` under the configured base URL, while `backend/server.js:659` serves `/api/upload-resume`. The routers mounted at `backend/server.js:209` are not part of this model, so the reply's `ok` is a parameter.
- The `link` field of a project is computed by `parseResumeText` but never stored, so the model does not compute it.
- The chat window's open/close state and the form-suggestion button are left out.
- `ResumeParser.CleanSkills`: states only that the result has no line feed. The exact text is stated by `ResumeParser.SkillsOfLines` for one-skill-per-line sections only.
- `ResumeParser.EducationOf`: the lines of the section body are stated only as the absence of `(` and line feeds. `ResumeParser.UniversityBeforeComma` and `ResumePatterns.ParenGroup` state the university and duration parts.
- `ResumePatterns.CareerObjectiveMatch`: states the group count only. The body it reports is described by `ResumePatterns.FirstSummaryStop` and the summary scan, not by a declarative acceptance predicate.
- `PortfolioContext.FilterQuoted`: its own contract gives only the length bound. The full behaviour is in `PortfolioContext.FilterQuotedThrows`, `PortfolioContext.FilterQuotedSound`, `PortfolioContext.FilterQuotedComplete` and `PortfolioContext.FilterQuotedAppend`.

## Findings

| source | as written | input that shows it | evidently intended | confidence | as-written member | corrected member |
|---|---|---|---|---|---|---|
| backend/server.js:765-768 | `careerObjectiveMatch[2]` reads capture group 2 of a pattern with one capture group, so `careerObjective` is never set | `SUMMARY\nx\n\nA` matches with group 1 `x`, yet no `careerObjective` key is produced | group 1, the text under the heading, trimmed | high (not executed) | ResumeParser.CareerObjectiveAsWritten | ResumeParser.CareerObjectiveField |
| frontend/src/components/Chatbot.jsx:110-133 | the question test runs before the optional responses, and `skip` holds the question word `i` while `no` is one, so typing either goes to the model | `skip` at the email question (prompt at :28, listed at :31): the model answers and the step stays | the words the prompts at :28, :46, :52, :69 and :75 offer skip the question | high (not executed) | Chatbot.SkipIsQuestion | Chatbot.SkipSkipsIntended |
