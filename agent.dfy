/**
 * The sales agent (rag_pipeline/agent.py): keyword-based intent classification, the
 * lead slots gathered across turns, the heuristic extraction that fills them from each
 * user message, and the per-turn decision to complete the lead or to ask for the next
 * missing slot.
 *
 * `str.lower()` and `str.isdigit()` are taken on ASCII only (see `Text.Lower`).
 */
module Agent {
  import opened Wrappers
  import opened Text

  /** `Intent`, with the string values the analytics log records. */
  datatype Intent = Sales | Support | General | ChitChat {
    function Value(): (v: string)
      ensures v in {"sales", "support", "general", "chit-chat"}
    {
      match this
      case Sales => "sales"
      case Support => "support"
      case General => "general"
      case ChitChat => "chit-chat"
    }
  }

  /** Different intents are recorded under different values. */
  lemma {:induction false} ValueInjective(a: Intent, b: Intent)
    requires a.Value() == b.Value()
    ensures a == b
  {
  }

  const SalesKeywords: seq<string> := [
    "price", "pricing", "cost", "membership", "package", "plan", "offer", "discount",
    "book", "booking", "reserve", "signup", "sign up"]

  const SupportKeywords: seq<string> := [
    "problem", "issue", "error", "cancel", "refund", "help", "support"]

  const ChitChatWords: seq<string> := ["hi", "hello", "how are you", "thanks"]

  /** `any(k in text for k in words)`. */
  function AnyIn(words: seq<string>, text: string): (b: bool)
    ensures b <==> exists k | 0 <= k < |words| :: Contains(text, words[k])
  {
    if words == [] then false
    else Contains(text, words[0]) || AnyIn(words[1..], text)
  }

  /**
   * `classify_intent`: on the lower-cased message, a sales keyword anywhere wins, then a
   * support keyword, then a greeting; anything else is general.
   */
  function Classify(message: string): (i: Intent)
    ensures i == Sales <==> exists k | 0 <= k < |SalesKeywords| :: Contains(Lower(message), SalesKeywords[k])
    ensures i == Support <==> !AnyIn(SalesKeywords, Lower(message)) && AnyIn(SupportKeywords, Lower(message))
    ensures i == ChitChat <==>
      !AnyIn(SalesKeywords, Lower(message)) && !AnyIn(SupportKeywords, Lower(message)) && AnyIn(ChitChatWords, Lower(message))
  {
    var text := Lower(message);
    if AnyIn(SalesKeywords, text) then Sales
    else if AnyIn(SupportKeywords, text) then Support
    else if AnyIn(ChitChatWords, text) then ChitChat
    else General
  }

  /** A string that contains a pattern is at least as long as the pattern. */
  lemma {:induction false} ContainsLength(s: string, pat: string)
    requires Contains(s, pat)
    ensures |pat| <= |s|
  {
  }

  /** A pattern longer than a string does not occur in it. */
  lemma {:induction false} LongPatternAbsent(s: string, pat: string)
    requires |pat| > |s|
    ensures !Contains(s, pat)
  {
    ContainsIff(s, pat);
  }

  /** A pattern holding a character that does not occur in a string does not occur in it. */
  lemma {:induction false} NotContainsAt(s: string, pat: string, j: int)
    requires 0 <= j < |pat| && pat[j] !in s
    ensures !Contains(s, pat)
  {
    forall i | 0 <= i && i + |pat| <= |s| ensures !OccursAt(s, pat, i) {
      assert s[i..i + |pat|][j] == s[i + j];
    }
    ContainsIff(s, pat);
  }

  /** A pattern that occurs at `i`, and whose first character does not occur before `i`, is first found at `i`. */
  lemma {:induction false} FindFirstAt(s: string, pat: string, i: nat)
    requires OccursAt(s, pat, i) && pat != [] && pat[0] !in s[..i]
    ensures Find(s, pat) == Some(i)
  {
    forall j | 0 <= j < i && j + |pat| <= |s| ensures !OccursAt(s, pat, j) {
      assert s[j..j + |pat|][0] == s[j] == s[..i][j];
    }
  }

  /** A lower-case pattern that matches a stretch of a string letter by letter, ignoring case, occurs in its lower-cased form. */
  lemma {:induction false} LowerMatches(s: string, pat: string, i: int)
    requires 0 <= i && i + |pat| <= |s|
    requires forall k | 0 <= k < |pat| :: LowerChar(s[i + k]) == pat[k]
    ensures OccursAt(Lower(s), pat, i) && Contains(Lower(s), pat)
  {
    forall k | 0 <= k < |pat| ensures Lower(s)[i..i + |pat|][k] == pat[k] {
      assert Lower(s)[i + k] == LowerChar(s[i + k]);
    }
    assert Lower(s)[i..i + |pat|] == pat;
    assert OccursAt(Lower(s), pat, i);
    ContainsIff(Lower(s), pat);
  }

  /** A lower-case letter is absent from a lower-cased string when neither case of it occurs in the string. */
  lemma {:induction false} LowerAvoids(s: string, c: char)
    requires 'a' <= c <= 'z' && c !in s && (c as int - 32) as char !in s
    ensures c !in Lower(s)
  {
    forall k | 0 <= k < |Lower(s)| ensures Lower(s)[k] != c {
      assert Lower(s)[k] == LowerChar(s[k]);
    }
  }

  /** A sales message is at least four characters long, the length of the shortest sales keyword. */
  lemma {:induction false} SalesMessageLength(message: string)
    requires Classify(message) == Sales
    ensures |message| >= 4
  {
    var k :| 0 <= k < |SalesKeywords| && Contains(Lower(message), SalesKeywords[k]);
    SalesKeywordsLong(k);
    ContainsLength(Lower(message), SalesKeywords[k]);
  }

  lemma SalesKeywordsLong(k: nat)
    requires k < |SalesKeywords|
    ensures |SalesKeywords[k]| >= 4
  {
  }

  /** A lower-cased string is unchanged by lower-casing. */
  lemma {:induction false} LowerIdempotent(s: string)
    ensures Lower(Lower(s)) == Lower(s)
  {
  }

  /** Classification ignores case. */
  lemma {:induction false} ClassifyIgnoresCase(message: string)
    ensures Classify(Lower(message)) == Classify(message)
  {
    LowerIdempotent(message);
  }

  /** The example of the tests: a question about prices and plans is a sales message. */
  lemma {:induction false} ClassifyPriceQuestion()
    ensures Classify("What is the price of your membership plans?") == Sales
  {
    var m := "What is the price of your membership plans?";
    LowerMatches(m, "price", 12);
    assert Contains(Lower(m), SalesKeywords[0]);
  }

  /** Keywords match inside words: "this" contains "hi", so it is taken for small talk. */
  lemma {:induction false} ClassifySubstringGreeting()
    ensures Classify("this") == ChitChat
  {
    var text := Lower("this");
    assert text == "this";
    assert OccursAt(text, "hi", 1);
    assert ChitChatWords[0] == "hi";
    forall k | 0 <= k < |SalesKeywords| ensures !Contains(text, SalesKeywords[k]) {
      var w := SalesKeywords[k];
      if |w| > 4 {
        LongPatternAbsent(text, w);
      } else {
        NotContainsAt(text, w, if w == "help" then 1 else 0);
      }
    }
    forall k | 0 <= k < |SupportKeywords| ensures !Contains(text, SupportKeywords[k]) {
      var w := SupportKeywords[k];
      if |w| > 4 {
        LongPatternAbsent(text, w);
      } else {
        NotContainsAt(text, w, if w == "help" then 1 else 0);
      }
    }
  }

  // ----- lead slots -----

  /** A slot that Python treats as true: present and not the empty string. */
  predicate Truthy(slot: Option<string>) {
    slot.Some? && slot.value != []
  }

  /** `LeadState`: the four contact slots of the lead under construction. */
  datatype LeadState = LeadState(
    name: Option<string>,
    email: Option<string>,
    phone: Option<string>,
    interest: Option<string>)
  {
    /** `is_complete`: every slot is present and non-empty. */
    predicate IsComplete()
      ensures IsComplete() ==> NoEmptySlot() && name.Some? && email.Some? && phone.Some? && interest.Some?
    {
      Truthy(name) && Truthy(email) && Truthy(phone) && Truthy(interest)
    }

    /** Every slot that is set holds a non-empty string. */
    predicate NoEmptySlot() {
      (name.Some? ==> name.value != [])
      && (email.Some? ==> email.value != [])
      && (phone.Some? ==> phone.value != [])
      && (interest.Some? ==> interest.value != [])
    }
  }

  const EmptyLead: LeadState := LeadState(None, None, None, None)

  const NameQuestion: string := "To help our team follow up, may I have your name?"
  const EmailQuestion: string := "What is the best email address to reach you?"
  const PhoneQuestion: string := "Do you have a phone or WhatsApp number we can contact?"
  const InterestQuestion: string := "Which service or package are you most interested in?"

  /**
   * `next_lead_question`: the question for the first slot that is not set, in the order
   * name, email, phone, interest; none when all four are set.
   */
  function NextQuestion(s: LeadState): (q: Option<string>)
    ensures q.None? <==> s.name.Some? && s.email.Some? && s.phone.Some? && s.interest.Some?
    ensures q == Some(NameQuestion) <==> s.name.None?
    ensures q == Some(EmailQuestion) <==> s.name.Some? && s.email.None?
    ensures q == Some(PhoneQuestion) <==> s.name.Some? && s.email.Some? && s.phone.None?
    ensures q == Some(InterestQuestion) <==> s.name.Some? && s.email.Some? && s.phone.Some? && s.interest.None?
  {
    if s.name.None? then Some(NameQuestion)
    else if s.email.None? then Some(EmailQuestion)
    else if s.phone.None? then Some(PhoneQuestion)
    else if s.interest.None? then Some(InterestQuestion)
    else None
  }

  /** When no slot holds an empty string, there is no next question exactly when the lead is complete. */
  lemma {:induction false} NoQuestionIffComplete(s: LeadState)
    requires s.NoEmptySlot()
    ensures NextQuestion(s).None? <==> s.IsComplete()
  {
  }

  // ----- extraction -----

  /** `str.isdigit()` on one character, restricted to ASCII digits. */
  predicate IsDigit(c: char) {
    '0' <= c <= '9'
  }

  /** `any(ch.isdigit() for ch in text)`. */
  predicate HasDigit(text: string) {
    exists k | 0 <= k < |text| :: IsDigit(text[k])
  }

  /** The e-mail test of the extraction: `"@gmail.com" in text or "@" in text`. */
  predicate LooksLikeEmail(text: string) {
    Contains(text, "@gmail.com") || Contains(text, "@")
  }

  /** The e-mail test comes down to the presence of `@`. */
  lemma {:induction false} LooksLikeEmailIff(text: string)
    ensures LooksLikeEmail(text) <==> Contains(text, "@")
  {
    if Contains(text, "@gmail.com") {
      var i := Find(text, "@gmail.com").value;
      assert text[i..i + 10][0] == text[i];
      assert OccursAt(text, "@", i);
    }
  }

  /**
   * The name the extraction takes from a message that says "my name is": what follows
   * the first case-sensitive "is", stripped; none when there is no such "is" (the
   * `IndexError` the source swallows) or nothing follows it.
   */
  function NameAfterIs(text: string): (r: Option<string>)
    ensures r.Some? ==> r.value != [] && IsStripped(r.value)
  {
    match Find(text, "is")
    case None => None
    case Some(i) =>
      var name := Strip(text[i + 2..]);
      if name != [] then Some(name) else None
  }

  /** The name the method reads after the first "is" is the one `NameAfterIs` gives. */
  lemma NameAfterIsFound(text: string, i: nat, name: string)
    requires Find(text, "is") == Some(i) && i + 2 <= |text|
    requires name == Strip(text[i + 2..]) && name != []
    ensures NameAfterIs(text) == Some(name)
  {
  }

  /**
   * `update_from_user_message` on the slots `s`: on the stripped message, a message with
   * `@` becomes the e-mail; one with a digit and at least 8 characters becomes the phone
   * when no phone is held; a message saying "my name is" sets the name that follows it.
   */
  function Extract(s: LeadState, message: string): (r: LeadState)
    ensures r.interest == s.interest
    ensures r.email == s.email || r.email == Some(Strip(message))
    ensures r.phone == s.phone || (!Truthy(s.phone) && r.phone == Some(Strip(message)))
    ensures r.name == s.name || r.name == NameAfterIs(Strip(message))
  {
    var text := Strip(message);
    WithName(WithPhone(WithEmail(s, text), text), text)
  }

  /**
   * When extraction changes the e-mail, the phone and the name: the e-mail exactly when
   * the stripped message holds "@"; the phone exactly when none is held and the message
   * has a digit and at least 8 characters; the name only when the lower-cased message
   * says "my name is", and then always when a non-empty text follows the first "is".
   */
  lemma ExtractRules(s: LeadState, message: string)
    ensures var r := Extract(s, message); var t := Strip(message);
      && (r.email != s.email ==> Contains(t, "@"))
      && (Contains(t, "@") ==> r.email == Some(t))
      && (r.phone != s.phone ==> !Truthy(s.phone) && HasDigit(t) && |t| >= 8)
      && (!Truthy(s.phone) && HasDigit(t) && |t| >= 8 ==> r.phone == Some(t))
      && (r.name != s.name ==> Contains(Lower(t), "my name is"))
      && (Contains(Lower(t), "my name is") && NameAfterIs(t).Some? ==> r.name == NameAfterIs(t))
      && (NameAfterIs(t).None? ==> r.name == s.name)
  {
    LooksLikeEmailIff(Strip(message));
  }

  /** The e-mail step: a text that looks like an address becomes the e-mail. */
  function WithEmail(s: LeadState, text: string): LeadState {
    if LooksLikeEmail(text) then s.(email := Some(text)) else s
  }

  /** The phone step: a text with a digit and at least 8 characters becomes the phone when none is held. */
  function WithPhone(s: LeadState, text: string): LeadState {
    if HasDigit(text) && |text| >= 8 && !Truthy(s.phone) then s.(phone := Some(text)) else s
  }

  /** The name step: a text saying "my name is" sets the name that follows its first "is". */
  function WithName(s: LeadState, text: string): LeadState {
    if Contains(Lower(text), "my name is") && NameAfterIs(text).Some? then s.(name := NameAfterIs(text)) else s
  }

  /** Extraction never touches the interest, never clears a slot, and sets only non-empty values. */
  lemma {:induction false} ExtractSlots(s: LeadState, message: string)
    ensures var t := Extract(s, message);
      && t.interest == s.interest
      && (s.name.Some? ==> t.name.Some?) && (s.email.Some? ==> t.email.Some?) && (s.phone.Some? ==> t.phone.Some?)
      && (Truthy(s.phone) ==> t.phone == s.phone)
      && (s.NoEmptySlot() ==> t.NoEmptySlot())
  {
    var text := Strip(message);
    if LooksLikeEmail(text) {
      LooksLikeEmailIff(text);
      ContainsLength(text, "@");
    }
  }

  /** A message with `@` always becomes the e-mail, whatever was held before. */
  lemma {:induction false} ExtractEmail(s: LeadState, message: string)
    requires Contains(Strip(message), "@")
    ensures Extract(s, message).email == Some(Strip(message))
  {
    LooksLikeEmailIff(Strip(message));
  }

  /** An example of the name rule: "My name is Ana" gives the name "Ana". */
  lemma {:induction false} ExtractNameExample()
    ensures Extract(EmptyLead, "My name is Ana").name == Some("Ana")
  {
    var text := "My name is Ana";
    assert Strip(text) == text by {
      TrimEndSlice(text);
    }
    LowerMatches(text, "my name is", 0);
    NameAfterIsExample();
  }

  /** The text after the first "is" of "My name is Ana", stripped, is "Ana". */
  lemma {:induction false} NameAfterIsExample()
    ensures NameAfterIs("My name is Ana") == Some("Ana")
  {
    var text := "My name is Ana";
    assert Find(text, "is") == Some(8) by {
      assert text[8..10] == "is" && 'i' !in text[..8];
      FindFirstAt(text, "is", 8);
    }
    assert text[10..] == " Ana";
    StripLeadingBlank();
  }

  /** Stripping drops the blank before a name. */
  lemma {:induction false} StripLeadingBlank()
    ensures Strip(" Ana") == "Ana"
  {
    TrimEndSlice("Ana");
  }

  /** Upper-case "IS" is no "is": the name is then left as it was, and no error escapes. */
  lemma {:induction false} ExtractNameNeedsLowerCaseIs(s: LeadState)
    ensures Extract(s, "MY NAME IS ANA").name == s.name
  {
    var text := "MY NAME IS ANA";
    assert Strip(text) == text by {
      TrimEndSlice(text);
    }
    assert 'i' !in text;
    NotContainsAt(text, "is", 0);
  }

  // ----- the turn -----

  const CompletionNote: string :=
    "\n\nIt looks like we have enough details to contact you. "
    + "Our team will follow up shortly with the best offer."

  /** The payload of a completed lead: each slot under its name, `""` for a slot not set. */
  function Payload(s: LeadState): (p: map<string, string>)
    ensures p.Keys == {"name", "email", "phone", "interest"}
    ensures p["name"] == s.name.GetOr("") && p["email"] == s.email.GetOr("")
    ensures p["phone"] == s.phone.GetOr("") && p["interest"] == s.interest.GetOr("")
  {
    map["name" := s.name.GetOr(""), "email" := s.email.GetOr(""),
        "phone" := s.phone.GetOr(""), "interest" := s.interest.GetOr("")]
  }

  /** What `process_turn` returns, with the slots it leaves behind. */
  datatype TurnResult = TurnResult(
    answer: string,
    intent: Intent,
    completed: bool,
    payload: Option<map<string, string>>,
    state: LeadState)

  /** The slots of a sales turn after extraction: the message becomes the interest unless one is held. */
  function SalesSlots(s: LeadState, message: string): LeadState {
    var t := Extract(s, message);
    if !Truthy(t.interest) then t.(interest := Some(message)) else t
  }

  /** `process_turn` on the slots `s`. */
  function Turn(s: LeadState, message: string, ragAnswer: string): (r: TurnResult)
    ensures r.intent == Classify(message)
    ensures r.completed <==> r.payload.Some?
    ensures r.completed ==> r.intent == Sales && r.state == EmptyLead
  {
    var intent := Classify(message);
    if intent != Sales then TurnResult(ragAnswer, intent, false, None, Extract(s, message))
    else
      var t := SalesSlots(s, message);
      if t.IsComplete() then TurnResult(ragAnswer + CompletionNote, intent, true, Some(Payload(t)), EmptyLead)
      else
        var q := NextQuestion(t);
        var answer := if q.Some? && q.value != [] then ragAnswer + "\n\n" + q.value else ragAnswer;
        TurnResult(answer, intent, false, None, t)
  }

  /**
   * A turn that is not about sales only extracts: the answer is the retrieval answer
   * unchanged, no lead is completed and nothing is asked.
   */
  lemma {:induction false} NonSalesTurn(s: LeadState, message: string, ragAnswer: string)
    requires Classify(message) != Sales
    ensures var r := Turn(s, message, ragAnswer);
      r.answer == ragAnswer && !r.completed && r.payload.None? && r.state == Extract(s, message)
  {
  }

  /** On a sales turn the interest becomes the raw message only when none is held, and is never overwritten. */
  lemma {:induction false} SalesInterest(s: LeadState, message: string)
    requires Classify(message) == Sales
    ensures Truthy(s.interest) ==> SalesSlots(s, message).interest == s.interest
    ensures !Truthy(s.interest) ==> SalesSlots(s, message).interest == Some(message)
    ensures Truthy(SalesSlots(s, message).interest)
  {
    ExtractSlots(s, message);
    SalesMessageLength(message);
  }

  /**
   * A sales turn completes the lead exactly when its slots are complete; it then hands
   * over the four values, appends the closing note and starts a new lead.
   */
  lemma {:induction false} CompletingTurn(s: LeadState, message: string, ragAnswer: string)
    ensures var r := Turn(s, message, ragAnswer);
      r.completed <==> Classify(message) == Sales && SalesSlots(s, message).IsComplete()
    ensures var r := Turn(s, message, ragAnswer);
      r.completed ==>
        && r.payload == Some(Payload(SalesSlots(s, message)))
        && r.answer == ragAnswer + CompletionNote
        && r.state == EmptyLead
    ensures var r := Turn(s, message, ragAnswer); r.payload.Some? <==> r.completed
  {
  }

  /**
   * A sales turn that leaves the lead incomplete appends exactly one question, the one
   * for the first missing slot, and keeps the slots.
   */
  lemma {:induction false} AskingTurn(s: LeadState, message: string, ragAnswer: string)
    requires s.NoEmptySlot()
    requires Classify(message) == Sales && !SalesSlots(s, message).IsComplete()
    ensures var t := SalesSlots(s, message); var r := Turn(s, message, ragAnswer);
      && NextQuestion(t).Some?
      && r.answer == ragAnswer + "\n\n" + NextQuestion(t).value
      && r.state == t && !r.completed
  {
    ExtractSlots(s, message);
    SalesInterest(s, message);
    var t := SalesSlots(s, message);
    assert t.NoEmptySlot();
    NoQuestionIffComplete(t);
  }

  /** Every turn keeps the invariant that a set slot is never empty. */
  lemma {:induction false} TurnKeepsNoEmptySlot(s: LeadState, message: string, ragAnswer: string)
    requires s.NoEmptySlot()
    ensures Turn(s, message, ragAnswer).state.NoEmptySlot()
  {
    ExtractSlots(s, message);
    if Classify(message) == Sales {
      SalesInterest(s, message);
    }
  }

  /** A message without the letter m never names anyone: its name slot is left as it was. */
  lemma {:induction false} ExtractNeedsLetterM(s: LeadState, message: string)
    requires 'm' !in message && 'M' !in message
    ensures Extract(s, message).name == s.name
  {
    var text := Strip(message);
    StripSlice(message);
    assert 'm' !in text && 'M' !in text;
    LowerAvoids(text, 'm');
    NotContainsAt(Lower(text), "my name is", 0);
  }

  /** A sales turn that leaves the name unknown answers and then asks for the name. */
  lemma {:induction false} SalesTurnAsksName(s: LeadState, message: string, ragAnswer: string)
    requires Classify(message) == Sales && Extract(s, message).name.None?
    ensures var r := Turn(s, message, ragAnswer);
      r.answer == ragAnswer + "\n\n" + NameQuestion && !r.completed && r.payload.None?
  {
  }

  /** The example of the tests: a first message about packages is a sales message and asks for the name. */
  lemma {:induction false} FirstPackageQuestionAsksName(ragAnswer: string)
    ensures var r := Turn(EmptyLead, "I want to know about your packages", ragAnswer);
      && r.intent == Sales
      && r.answer == ragAnswer + "\n\n" + NameQuestion
  {
    PackageMessageIsSales();
    PackageMessageNamesNoOne();
    SalesTurnAsksName(EmptyLead, "I want to know about your packages", ragAnswer);
  }

  /** The message of the tests about packages is a sales message: it contains "package". */
  lemma {:induction false} PackageMessageIsSales()
    ensures Classify("I want to know about your packages") == Sales
  {
    var m := "I want to know about your packages";
    LowerMatches(m, "package", 26);
    assert Contains(Lower(m), SalesKeywords[4]);
  }

  /** The message of the tests about packages names no one. */
  lemma {:induction false} PackageMessageNamesNoOne()
    ensures Extract(EmptyLead, "I want to know about your packages").name.None?
  {
    ExtractNeedsLetterM(EmptyLead, "I want to know about your packages");
  }

  /** `Agent`: the lead slots of one chat session. */
  class Agent {
    var lead: LeadState

    constructor ()
      ensures lead == EmptyLead && lead.NoEmptySlot()
    {
      lead := EmptyLead;
    }

    /** `update_from_user_message`: fills the slots from one message. */
    method UpdateFromUserMessage(message: string)
      modifies this
      ensures lead == Extract(old(lead), message)
      ensures old(lead).NoEmptySlot() ==> lead.NoEmptySlot()
    {
      var text := Strip(message);
      ghost var s0 := lead;
      if Contains(text, "@gmail.com") || Contains(text, "@") {
        lead := lead.(email := Some(text));
      }
      assert lead == WithEmail(s0, text);
      ghost var s1 := lead;
      if HasDigit(text) && |text| >= 8 && !Truthy(lead.phone) {
        lead := lead.(phone := Some(text));
      }
      assert lead == WithPhone(s1, text);
      ghost var s2 := lead;
      var lowered := Lower(text);
      if Contains(lowered, "my name is") {
        var i := Find(text, "is");
        if i.Some? {
          var name := Strip(text[i.value + 2..]);
          if name != [] {
            NameAfterIsFound(text, i.value, name);
            lead := lead.(name := Some(name));
          }
        }
      }
      assert lead == WithName(s2, text);
      ExtractSlots(s0, message);
    }

    /** `process_turn`: classifies, extracts, and on a sales turn completes the lead or asks for the next slot. */
    method ProcessTurn(userMessage: string, ragAnswer: string)
      returns (finalAnswer: string, intent: Intent, leadCompleted: bool, leadPayload: Option<map<string, string>>)
      modifies this
      ensures Turn(old(lead), userMessage, ragAnswer)
        == TurnResult(finalAnswer, intent, leadCompleted, leadPayload, lead)
      ensures old(lead).NoEmptySlot() ==> lead.NoEmptySlot()
    {
      ghost var s0 := lead;
      intent := Classify(userMessage);
      UpdateFromUserMessage(userMessage);
      leadPayload := None;
      leadCompleted := false;
      finalAnswer := ragAnswer;
      if intent == Sales {
        if !Truthy(lead.interest) {
          lead := lead.(interest := Some(userMessage));
        }
        if lead.IsComplete() {
          leadCompleted := true;
          leadPayload := Some(Payload(lead));
          finalAnswer := finalAnswer + CompletionNote;
          lead := EmptyLead;
        } else {
          var q := NextQuestion(lead);
          if q.Some? && q.value != [] {
            finalAnswer := finalAnswer + "\n\n" + q.value;
          }
        }
      }
      if s0.NoEmptySlot() {
        TurnKeepsNoEmptySlot(s0, userMessage, ragAnswer);
      }
    }
  }
}
