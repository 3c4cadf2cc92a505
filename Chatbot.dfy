/** The scripted assistant: a fixed list of questions, each filling one key of the
    user's details. An input that looks like a question goes to the language model
    instead; any other input answers, or skips, the current question, and the
    assistant moves on to the next one. */
module Chatbot {
  import opened Optional
  import opened JsText
  import opened JsValues

  /** One scripted question; `optionalResponses` is None where the script gives
      none. */
  datatype Step = Step(question: string, key: string, required: bool, optionalResponses: Option<seq<string>>)

  /** The scripted questions, in order, each written in short pieces so that the
      verifier can look through them character by character. */
  const Question0 := "Hi there! I'm Vita, " +
    "your personal portfolio " +
    "assistant. What's your " +
    "full name to get " +
    "started?"
  const Question1 := "Great, ! What's a good " +
    "email address for you? " +
    "(You can also say " +
    "'skip' or 'I don't have " +
    "one')"
  const Question2 := "Perfect. What's your " +
    "professional headline? " +
    "(e.g., 'Full Stack " +
    "Developer' or 'UI/UX " +
    "Designer')"
  const Question3 := "Nice! Could you share a " +
    "short bio about " +
    "yourself? (You can skip " +
    "this, and I’ll generate " +
    "a default bio for you)"
  const Question4 := "Awesome! What's your " +
    "GitHub profile link or " +
    "username? (or say " +
    "'skip' if you don't " +
    "have one)"
  const Question5 := "Do you have a LinkedIn " +
    "profile? If yes, please " +
    "drop the link. " +
    "Otherwise, just say " +
    "'no' or 'skip'."
  const Question6 := "Great! Please list your " +
    "top skills, separated " +
    "by commas. (Example: " +
    "React, Node.js, " +
    "MongoDB, UI/UX, AWS)"
  const Question7 := "Would you like to add a " +
    "portfolio/personal " +
    "website link? You can " +
    "skip this if you don't " +
    "have one."
  const Question8 := "Do you want to include " +
    "any notable projects? " +
    "If yes, type the " +
    "project name and short " +
    "description. Otherwise " +
    "say 'skip'."
  const Question9 := "Do you want to upload a " +
    "profile picture or " +
    "should I continue " +
    "without it? (Say 'skip' " +
    "to continue without a " +
    "photo)"
  const Question10 := "Everything looks good " +
    "so far! Should I " +
    "generate your portfolio " +
    "now? (yes / no)"

  const Script: seq<Step> := [
    Step(Question0, "fullName", true, Some([])),
    Step(Question1, "email", false, Some(["skip", "no", "don't have", "continue without email"])),
    Step(Question2, "headline", false, Some(["skip", "no headline", "not now"])),
    Step(Question3, "careerObjective", false, Some(["skip", "no bio", "not now"])),
    Step(Question4, "github", false, Some(["skip", "don't have", "no github"])),
    Step(Question5, "linkedin", false, Some(["skip", "no"])),
    Step(Question6, "skills", true, None),
    Step(Question7, "portfolio", false, Some(["skip", "no"])),
    Step(Question8, "projects", false, Some(["skip", "no", "later"])),
    Step(Question9, "avatar", false, Some(["skip", "no", "continue without", "not now"])),
    Step(Question10, "confirmation", true, None)]

  /** The words that mark an input as a question for the model. */
  const QuestionWords: seq<string> :=
    ["what", "how", "why", "who", "when", "where", "can you", "i", "i cant", "no", "done", "?"]

  /** Every optional response the script lists, once each. */
  const ListedResponses: seq<string> :=
    ["skip", "no", "don't have", "continue without email", "no headline", "not now",
     "no bio", "no github", "later", "continue without"]

  const Placeholder := "{{fullName}}"

  const FinalText := "That's a great start! I've collected the basic information. Would you like to go to the form to review and add more details like projects and experience?"
  const AiErrorText := "Sorry, I couldn't process that question. Let's get back to the form."

  datatype Message = Message(role: string, content: Val, action: Option<string>)

  /** The lower-cased input holds one of the question words. */
  predicate IsQuestion(input: string) {
    exists k :: 0 <= k < |QuestionWords| && Includes(ToLower(input), QuestionWords[k])
  }

  /** The input holds one of the step's optional responses (case ignored). */
  predicate Skips(step: Step, input: string) {
    step.optionalResponses.Some? &&
    exists k :: 0 <= k < |step.optionalResponses.value| && Includes(ToLower(input), step.optionalResponses.value[k])
  }

  /** An input holding a question word, once lower-cased, is a question. */
  lemma QuestionByWord(input: string, k: nat)
    requires k < |QuestionWords| && Includes(ToLower(input), QuestionWords[k])
    ensures IsQuestion(input)
  {
  }

  /** "skip" holds the question word "i", so typing it asks the model. */
  lemma SkipIsQuestion()
    ensures IsQuestion("skip")
  {
    assert ToLower("skip") == "skip";
    assert MatchesAt("skip", 2, "i");
    IncludesAt("skip", "i", 2);
    QuestionByWord("skip", 7);
  }

  /** Any input with an "i" or an "I" in it is a question. */
  lemma LetterIMakesQuestion(input: string, k: nat)
    requires k < |input| && (input[k] == 'i' || input[k] == 'I')
    ensures IsQuestion(input)
  {
    var low := ToLower(input);
    assert low[k..k + 1] == "i";
    IncludesAt(low, "i", k);
    QuestionByWord(input, 7);
  }

  /** A `w` with an "i" at `at` holds the question word "i". */
  lemma HoldsLetterI(w: string, at: nat)
    requires at < |w| && w[at] == 'i'
    ensures Includes(w, QuestionWords[7])
  {
    assert w[at..at + 1] == QuestionWords[7];
    IncludesAt(w, QuestionWords[7], at);
  }

  /** A `w` that starts with "no" holds the question word "no". */
  lemma HoldsNo(w: string)
    requires |w| >= 2 && w[0] == 'n' && w[1] == 'o'
    ensures Includes(w, QuestionWords[9])
  {
    assert w[0..2] == QuestionWords[9];
    IncludesAt(w, QuestionWords[9], 0);
  }

  /** Every optional response other than "don't have" and "later" holds a question
      word ("i" or "no"), so an input holding it is sent to the model. */
  lemma OptionalResponsesAsk(r: string)
    requires r in ListedResponses && r != "don't have" && r != "later"
    ensures exists k :: 0 <= k < |QuestionWords| && Includes(r, QuestionWords[k])
  {
    if r == "skip" {
      HoldsLetterI(r, 2);
    } else if r == "continue without email" || r == "continue without" {
      HoldsLetterI(r, 4);
    } else {
      HoldsNo(r);
    }
  }

  /** Every optional response of the script is one of these. */
  lemma ResponseListed(s: nat, r: string)
    requires s < |Script| && Script[s].optionalResponses.Some? && r in Script[s].optionalResponses.value
    ensures r in ListedResponses
  {
    if s == 1 { assert Script[1].optionalResponses == Some(["skip", "no", "don't have", "continue without email"]); }
    else if s == 2 { assert Script[2].optionalResponses == Some(["skip", "no headline", "not now"]); }
    else if s == 3 { assert Script[3].optionalResponses == Some(["skip", "no bio", "not now"]); }
    else if s == 4 { assert Script[4].optionalResponses == Some(["skip", "don't have", "no github"]); }
    else if s == 5 || s == 7 { assert Script[s].optionalResponses == Some(["skip", "no"]); }
    else if s == 8 { assert Script[8].optionalResponses == Some(["skip", "no", "later"]); }
    else if s == 9 { assert Script[9].optionalResponses == Some(["skip", "no", "continue without", "not now"]); }
    else {
      // Step 0 has no optional responses, and steps 6 and 10 have none listed.
      assert false;
    }
  }

  /** Only "don't have" and "later" can ever skip a question: an input holding any
      other optional response is a question and never reaches the script. */
  lemma SkipOnlyByDontHaveOrLater(s: nat, input: string)
    requires s < |Script| && !IsQuestion(input) && Skips(Script[s], input)
    ensures Includes(ToLower(input), "don't have") || Includes(ToLower(input), "later")
  {
    var rs := Script[s].optionalResponses.value;
    var j :| 0 <= j < |rs| && Includes(ToLower(input), rs[j]);
    if rs[j] != "don't have" && rs[j] != "later" {
      ResponseListed(s, rs[j]);
      OptionalResponsesAsk(rs[j]);
      var k :| 0 <= k < |QuestionWords| && Includes(rs[j], QuestionWords[k]);
      IncludesTransitive(ToLower(input), rs[j], QuestionWords[k]);
      assert false;
    }
  }

  /** "no" holds the question word "no", so typing it asks the model too. */
  lemma NoIsQuestion()
    ensures IsQuestion("no")
  {
    assert ToLower("no") == "no";
    HoldsNo("no");
    QuestionByWord("no", 9);
  }

  /** The routing the prompts promise: an input holding one of the step's optional
      responses skips the step before any question test. */
  predicate AsksModelIntended(step: Step, input: string) {
    !Skips(step, input) && IsQuestion(input)
  }

  /** Under that routing, typing "skip" skips every question whose responses list
      it, and the details stay as they are. */
  lemma SkipSkipsIntended(s: nat, details: map<string, Val>)
    requires s < |Script| && Script[s].optionalResponses.Some? && "skip" in Script[s].optionalResponses.value
    ensures Skips(Script[s], "skip") && !AsksModelIntended(Script[s], "skip")
    ensures Recorded(details, Script[s], "skip") == details
  {
    var rs := Script[s].optionalResponses.value;
    var j :| 0 <= j < |rs| && rs[j] == "skip";
    assert ToLower("skip") == "skip";
    IncludesAt("skip", "skip", 0);
    assert Includes(ToLower("skip"), rs[j]);
    assert Script[0].optionalResponses == Some([]);
    assert s != 0 && s != 6 && s != 10;
    assert !Script[s].required;
  }

  /** Question by question: none has a "{". */
  lemma BraceFreeQ0() ensures '{' !in Question0 {}
  lemma BraceFreeQ1() ensures '{' !in Question1 {}
  lemma BraceFreeQ2() ensures '{' !in Question2 {}
  lemma BraceFreeQ3() ensures '{' !in Question3 {}
  lemma BraceFreeQ4() ensures '{' !in Question4 {}
  lemma BraceFreeQ5() ensures '{' !in Question5 {}
  lemma BraceFreeQ6() ensures '{' !in Question6 {}
  lemma BraceFreeQ7() ensures '{' !in Question7 {}
  lemma BraceFreeQ8() ensures '{' !in Question8 {}
  lemma BraceFreeQ9() ensures '{' !in Question9 {}
  lemma BraceFreeQ10() ensures '{' !in Question10 {}

  /** No scripted question has a "{". */
  lemma QuestionsBraceFree(s: nat)
    requires s < |Script|
    ensures '{' !in Script[s].question
  {
    if s == 0 { BraceFreeQ0(); }
    else if s == 1 { BraceFreeQ1(); }
    else if s == 2 { BraceFreeQ2(); }
    else if s == 3 { BraceFreeQ3(); }
    else if s == 4 { BraceFreeQ4(); }
    else if s == 5 { BraceFreeQ5(); }
    else if s == 6 { BraceFreeQ6(); }
    else if s == 7 { BraceFreeQ7(); }
    else if s == 8 { BraceFreeQ8(); }
    else if s == 9 { BraceFreeQ9(); }
    else { BraceFreeQ10(); }
  }

  /** No scripted question holds "{{fullName}}", so the personalisation of the next
      question never applies. */
  lemma NoPlaceholder(s: nat)
    requires s < |Script|
    ensures !Includes(Script[s].question, Placeholder)
  {
    QuestionsBraceFree(s);
    if Includes(Script[s].question, Placeholder) {
      IncludesFirstChar(Script[s].question, Placeholder);
    }
  }

  /** What the question branch shows: `data.reply`, or the apology when the request
      fails or the reply is null. */
  function ModelAnswer(aiReply: Option<Val>): (v: Val)
    ensures aiReply.None? ==> v == Str(AiErrorText)
    ensures aiReply.Some? && aiReply.value.Obj? ==> v == Prop(aiReply.value, "reply").value
  {
    if aiReply.Some? && Prop(aiReply.value, "reply").Some? then Prop(aiReply.value, "reply").value
    else Str(AiErrorText)
  }

  /** The details once `input` answers `step`: unchanged for a skip of an optional
      question, otherwise the raw input stored under the step's key. */
  function Recorded(details: map<string, Val>, step: Step, input: string): (r: map<string, Val>)
    ensures Skips(step, input) && !step.required ==> r == details
    ensures !(Skips(step, input) && !step.required) ==>
      r.Keys == details.Keys + {step.key} && r[step.key] == Str(input) &&
      forall k :: k in details && k != step.key ==> r[k] == details[k]
  {
    if Skips(step, input) && !step.required then details else details[step.key := Str(input)]
  }

  /** The chat window's state; `userDetails` is the shared portfolio details. */
  class Chat {
    var messages: seq<Message>
    var input: string
    var isLoading: bool
    var currentStep: nat
    var userDetails: map<string, Val>

    /** The step counter always names a scripted question. */
    predicate Valid()
      reads this
    {
      currentStep < |Script|
    }

    constructor (details: map<string, Val>)
      ensures Valid() && messages == [] && input == "" && !isLoading && currentStep == 0
      ensures userDetails == details
    {
      messages := [];
      input := "";
      isLoading := false;
      currentStep := 0;
      userDetails := details;
    }

    /** Opening an empty chat shows the first question. */
    method Open()
      requires Valid()
      modifies this
      ensures Valid()
      ensures old(messages) == [] ==> messages == [Message("bot", Str(Script[0].question), None)] && currentStep == 0
      ensures old(messages) != [] ==> messages == old(messages) && currentStep == old(currentStep)
      ensures input == old(input) && isLoading == old(isLoading) && userDetails == old(userDetails)
    {
      if |messages| == 0 {
        messages := [Message("bot", Str(Script[0].question), None)];
        currentStep := 0;
      }
    }

    /** `handleSend`. `aiReply` is the decoded reply of the chatbot endpoint, None
        when the request fails; it is only used for a question. */
    method HandleSend(aiReply: Option<Val>)
      requires Valid()
      modifies this
      ensures Valid()
      ensures Trim(old(input)) == "" || old(isLoading) ==>
        messages == old(messages) && input == old(input) && isLoading == old(isLoading) &&
        currentStep == old(currentStep) && userDetails == old(userDetails)
      ensures Trim(old(input)) != "" && !old(isLoading) ==>
        input == "" && !isLoading && |messages| == |old(messages)| + 2 &&
        messages[..|old(messages)| + 1] == old(messages) + [Message("user", Str(old(input)), None)]
      ensures Trim(old(input)) != "" && !old(isLoading) && IsQuestion(old(input)) ==>
        currentStep == old(currentStep) && userDetails == old(userDetails) &&
        messages[|old(messages)| + 1] == Message("bot", ModelAnswer(aiReply), None)
      ensures Trim(old(input)) != "" && !old(isLoading) && !IsQuestion(old(input)) ==>
        userDetails == Recorded(old(userDetails), Script[old(currentStep)], old(input)) &&
        (old(currentStep) + 1 < |Script| ==>
          (currentStep == old(currentStep) + 1 &&
           messages[|old(messages)| + 1] == Message("bot", Str(Script[old(currentStep) + 1].question), None))) &&
        (old(currentStep) + 1 == |Script| ==>
          (currentStep == old(currentStep) &&
           messages[|old(messages)| + 1] == Message("bot", Str(FinalText), Some("SUGGEST_FORM"))))
    {
      if Trim(input) == "" || isLoading {
        return;
      }
      var text := input;
      messages := messages + [Message("user", Str(text), None)];
      input := "";
      isLoading := true;
      if IsQuestion(text) {
        AskModel(aiReply);
      } else {
        FollowScript(text);
      }
    }

    /** The question branch: the model's reply, or the apology when the request
        fails, is appended; the step and the details stay as they are. */
    method AskModel(aiReply: Option<Val>)
      requires Valid()
      modifies this
      ensures Valid() && !isLoading
      ensures messages == old(messages) + [Message("bot", ModelAnswer(aiReply), None)]
      ensures input == old(input) && currentStep == old(currentStep) && userDetails == old(userDetails)
    {
      var reply := Str(AiErrorText);
      if aiReply.Some? {
        var r := Prop(aiReply.value, "reply");
        if r.Some? {
          reply := r.value;
        }
      }
      messages := messages + [Message("bot", reply, None)];
      isLoading := false;
    }

    /** The scripted branch: the answer is recorded unless it skips an optional
        question, and the next question, or the closing suggestion, is appended. */
    method FollowScript(text: string)
      requires Valid()
      modifies this
      ensures Valid() && !isLoading && input == old(input)
      ensures userDetails == Recorded(old(userDetails), Script[old(currentStep)], text)
      ensures old(currentStep) + 1 < |Script| ==>
        currentStep == old(currentStep) + 1 &&
        messages == old(messages) + [Message("bot", Str(Script[old(currentStep) + 1].question), None)]
      ensures old(currentStep) + 1 == |Script| ==>
        currentStep == old(currentStep) &&
        messages == old(messages) + [Message("bot", Str(FinalText), Some("SUGGEST_FORM"))]
    {
      var step := Script[currentStep];
      var isSkipping := Skips(step, text);
      if !(isSkipping && !step.required) {
        userDetails := userDetails[step.key := Str(text)];
      }
      var nextStep := currentStep + 1;
      if nextStep < |Script| {
        var nextQuestion := Script[nextStep].question;
        NoPlaceholder(nextStep);
        if Includes(nextQuestion, Placeholder) {
          // the personalisation: no scripted question carries the placeholder
          assert false;
        }
        messages := messages + [Message("bot", Str(nextQuestion), None)];
        currentStep := nextStep;
      } else {
        messages := messages + [Message("bot", Str(FinalText), Some("SUGGEST_FORM"))];
      }
      isLoading := false;
    }
  }
}
