/**
 The per-message decision of `handle_message` (bot.py:170-220), with the chat
 SDK's reply call recorded as a value: which completion requests the message
 causes and which reply, if any, it gets.
 */
module Dispatch {
  import opened Options
  import opened Text
  import opened Detector
  import opened Prompts
  import opened Cleanup
  import opened Client

  /** An incoming update's message: its id and its text, which may be absent. */
  datatype Message = Message(messageId: int, text: Option<string>)

  /** A reply posted to the chat, quoting the message it answers. */
  datatype Reply = Reply(text: string, replyToMessageId: int)

  /** What handling one update did: the prompts sent to the completion API, and the reply. */
  datatype Outcome = Outcome(calls: seq<Prompt>, reply: Option<Reply>)

  const UrduName: string := "乌尔都语"
  const EnglishName: string := "英语"

  /** The hint-to-target table: the target code and its display name, or no translation. */
  function TargetFor(hint: Option<Lang>): (r: Option<(Lang, string)>)
    ensures r.Some? <==> hint in {Some(Zh), Some(Tl), Some(Ur)}
    ensures r.Some? ==> (r.value.0 == Ur <==> hint == Some(Zh))
    ensures r.Some? ==> r.value.0 in {Ur, En}
    ensures r.Some? ==> r.value.1 == (if r.value.0 == Ur then UrduName else EnglishName)
  {
    match hint
    case Some(Zh) => Some((Ur, UrduName))
    case Some(Tl) => Some((En, EnglishName))
    case Some(Ur) => Some((En, EnglishName))
    case _ => None
  }

  /** Short messages and commands are not translated. */
  predicate SkipText(text: string) {
    |text| < 2 || text[0] == '/'
  }

  /** The lead of every reply: a globe, a space and "translated into". */
  const ReplyLead: string := "🌐 翻译成"

  /** The reply format: the lead, the target's name, ":", a newline, the translation. */
  function ReplyText(name: string, translated: string): (r: string)
    ensures IsPrefix(ReplyLead + name + ":\n", r)
    ensures IsSuffix(translated, r)
    ensures |r| == |ReplyLead| + |name| + 2 + |translated|
  {
    ReplyLead + name + ":\n" + translated
  }

  /**
   The stripped text of an update worth looking at, if any: the update must
   carry a message with non-empty text whose stripped form is at least two
   characters long and does not start with '/'.
   */
  function Candidate(update: Option<Message>): (r: Option<string>)
    ensures r.Some? <==> update.Some? && update.value.text.Some? && update.value.text.value != []
                         && !SkipText(Strip(update.value.text.value))
    ensures r.Some? ==> r.value == Strip(update.value.text.value) && |r.value| >= 2 && r.value[0] != '/'
  {
    if update.None? || update.value.text.None? || update.value.text.value == [] then None
    else
      var t := Strip(update.value.text.value);
      if SkipText(t) then None else Some(t)
  }

  function HandleMessage(update: Option<Message>, api: Api): (o: Outcome)
    // at most one completion request, and a reply only after one
    ensures |o.calls| <= 1
    ensures o.reply.Some? ==> |o.calls| == 1
    // no message, no text, or a short or command text: nothing at all
    ensures update.None? || update.value.text.None? || update.value.text.value == [] ==> o == Outcome([], None)
    ensures update.Some? && update.value.text.Some? && SkipText(Strip(update.value.text.value))
            ==> o == Outcome([], None)
    // a request exactly when the text passes and has a hint, for the table's target
    ensures |o.calls| == 1 <==> Candidate(update).Some? && Detect(Candidate(update).value).Some?
    ensures |o.calls| == 1 ==>
              var t := Candidate(update).value;
              var h := Detect(t);
              o.calls[0] == BuildPrompt(t, h, Some(if h == Some(Zh) then Ur else En))
    // a reply exactly when the cleaned translation is non-empty and new
    ensures o.reply.Some? <==>
              |o.calls| == 1 && api(o.calls[0]).Some?
              && Clean(api(o.calls[0]).value) != []
              && Clean(api(o.calls[0]).value) != Candidate(update).value
    ensures o.reply.Some? ==>
              o.reply.value.replyToMessageId == update.value.messageId
              && o.reply.value.text ==
                 ReplyText(if Detect(Candidate(update).value) == Some(Zh) then UrduName else EnglishName,
                           Clean(api(o.calls[0]).value))
  {
    match Candidate(update)
    case None => Outcome([], None)
    case Some(original) =>
      var hint := Detect(original);
      match TargetFor(hint)
      case None => Outcome([], None)
      case Some((target, name)) =>
        var prompt := BuildPrompt(original, hint, Some(target));
        var translated := Translate(original, hint, Some(target), api);
        if translated.Some? && translated.value != [] && translated.value != original then
          Outcome([prompt], Some(Reply(ReplyText(name, translated.value), update.value.messageId)))
        else
          Outcome([prompt], None)
  }

  // ---------------------------------------------------------------------------
  // Properties

  /** A message of fewer than two characters is never translated. */
  lemma ShortMessageSkipped(id: int, text: string, api: Api)
    requires |text| < 2
    ensures HandleMessage(Some(Message(id, Some(text))), api) == Outcome([], None)
  {
  }

  /** A message whose stripped text starts with '/' is never translated. */
  lemma CommandSkipped(id: int, text: string, api: Api)
    requires |Strip(text)| > 0 && Strip(text)[0] == '/'
    ensures HandleMessage(Some(Message(id, Some(text))), api) == Outcome([], None)
  {
  }

  /** Text with no hint makes no API call at all, whatever the API would answer. */
  lemma NoHintNoCall(id: int, text: string, api: Api)
    requires Detect(Strip(text)) == None
    ensures HandleMessage(Some(Message(id, Some(text))), api) == Outcome([], None)
  {
  }

  /**
   An API that answers with the original text itself gets no reply, unless
   the text holds a marker the clean-up would cut at.
   */
  lemma EchoGetsNoReply(id: int, text: string)
    requires !Occurs(M0, Strip(text)) && !Occurs(M1, Strip(text))
    ensures HandleMessage(Some(Message(id, Some(text))), (p: Prompt) => Some(Strip(text))).reply.None?
  {
    var t := Strip(text);
    StripIdempotent(text);
    CleanWithoutMarkers(t);
  }

  /** The reply names its direction and ends with a non-empty suffix of the stripped completion. */
  lemma ReplyCarriesTranslation(update: Option<Message>, api: Api)
    ensures var o := HandleMessage(update, api);
            o.reply.Some? ==>
              var raw := api(o.calls[0]).value;
              exists tr :: IsSuffix(tr, Strip(raw)) && tr != []
                && (o.reply.value.text == ReplyText(UrduName, tr) || o.reply.value.text == ReplyText(EnglishName, tr))
  {
    var o := HandleMessage(update, api);
    if o.reply.Some? {
      var raw := api(o.calls[0]).value;
      var tr := Clean(raw);
      assert IsSuffix(tr, Strip(raw));
    }
  }

  /** The reply text determines both the target name and the translation. */
  lemma ReplyTextInjective(n: string, t: string, n': string, t': string)
    requires n in {UrduName, EnglishName} && n' in {UrduName, EnglishName}
    requires ReplyText(n, t) == ReplyText(n', t')
    ensures n == n' && t == t'
  {
    var lead := ReplyLead;
    var r := ReplyText(n, t);
    assert r == lead + n + ":\n" + t;
    assert r == lead + n' + ":\n" + t';
    if n != n' {
      // the ':' after the shorter name lands on a letter of the longer one
      ReplyTextLetters(n, t);
      ReplyTextLetters(n', t');
      assert false;
    }
    DropPrefix(lead + n + ":\n", t);
    DropPrefix(lead + n' + ":\n", t');
  }

  lemma ReplyTextLetters(n: string, t: string)
    ensures forall i :: 0 <= i < |n| ==> ReplyText(n, t)[5 + i] == n[i]
    ensures ReplyText(n, t)[5 + |n|] == ':'
  {
  }

  lemma DropPrefix(a: string, b: string)
    ensures (a + b)[|a|..] == b
  {
  }

  // ---------------------------------------------------------------------------
  // End-to-end examples

  /** A message with a hint is sent once, under the table's target. */
  lemma HintedMessageDispatched(id: int, text: string, api: Api, h: Lang)
    requires !SkipText(Strip(text)) && Detect(Strip(text)) == Some(h)
    ensures HandleMessage(Some(Message(id, Some(text))), api).calls
            == [BuildPrompt(Strip(text), Some(h), Some(if h == Zh then Ur else En))]
  {
    var u := Some(Message(id, Some(text)));
    CandidateOfText(id, text);
    OneCall(HandleMessage(u, api).calls);
  }

  lemma CandidateOfText(id: int, text: string)
    requires !SkipText(Strip(text))
    ensures Candidate(Some(Message(id, Some(text)))) == Some(Strip(text))
  {
  }

  lemma OneCall(calls: seq<Prompt>)
    requires |calls| == 1
    ensures calls == [calls[0]]
  {
  }

  lemma ChineseGoesToUrdu(id: int, api: Api, t: string)
    requires t == "你好世界"
    ensures HandleMessage(Some(Message(id, Some(t))), api).calls
            == [BuildPrompt(t, Some(Zh), Some(Ur))]
  {
    StripOfStripped(t);
    assert [] + [t[0]] + t[1..] == t;
    CjkDominates([], t[0], t[1..]);
    HintedMessageDispatched(id, t, api, Zh);
  }

  lemma TagalogGoesToEnglish(id: int, api: Api, t: string)
    requires t == "kumusta ka"
    ensures HandleMessage(Some(Message(id, Some(t))), api).calls
            == [BuildPrompt(t, Some(Tl), Some(En))]
  {
    KumustaKaSplit(t);
    StripOfStripped(t);
    KumustaKaIsTagalog(t);
    HintedMessageDispatched(id, t, api, Tl);
  }

  lemma KumustaKaIsTagalog(t: string)
    requires t == "kumusta ka"
    ensures Detect(t) == Some(Tl)
  {
    KumustaKaSplit(t);
    KeywordInAnyCase([], TagalogKeywords[12], " ka", 12);
  }

  // The literal facts the lemmas above need, kept apart so the solver does not
  // unfold the detector on the literal text.
  lemma KumustaKaSplit(t: string)
    requires t == "kumusta ka"
    ensures t == [] + TagalogKeywords[12] + " ka" && !HasCjk(t) && SpelledAs(TagalogKeywords[12], TagalogKeywords[12])
    ensures IsStripped(t) && !SkipText(t)
  {
  }

  lemma HelloThereNoCall(id: int, api: Api, t: string)
    requires t == "hello there"
    ensures HandleMessage(Some(Message(id, Some(t))), api) == Outcome([], None)
  {
    StripOfStripped(t);
    HelloThereHasNoHint();
    NoHintNoCall(id, t, api);
  }
}
