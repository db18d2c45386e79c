/**
 Prompt-template selection in `translate_with_deepseek` (bot.py:86-105): three
 specific (hint, target) pairs have their own system and user prompts, every
 other pair falls back to a generic translate-to-English prompt, and the user
 prompt always ends with the text to translate.
 */
module Prompts {
  import opened Options
  import opened Text
  import opened Detector

  /** The system and user messages of one completion request. */
  datatype Prompt = Prompt(system: string, user: string)

  datatype Template = ZhToUr | TlToEn | UrToEn | Generic

  /** The (hint, target) pair a specific template is written for; None for the generic one. */
  function PairOf(t: Template): Option<(Lang, Lang)> {
    match t
    case ZhToUr => Some((Zh, Ur))
    case TlToEn => Some((Tl, En))
    case UrToEn => Some((Ur, En))
    case Generic => None
  }

  /** The (hint, target) pair of a request when both are given. */
  function PairKey(hint: Option<Lang>, target: Option<Lang>): Option<(Lang, Lang)> {
    if hint.Some? && target.Some? then Some((hint.value, target.value)) else None
  }

  /**
   The if/elif chain of bot.py:87-105. Selection is total and exact: a
   specific template is chosen precisely for its own pair, and every other
   pair (a None hint or target included) gets the generic one.
   */
  function SelectTemplate(hint: Option<Lang>, target: Option<Lang>): (t: Template)
    ensures t != Generic ==> PairOf(t) == PairKey(hint, target)
    ensures t == Generic <==> forall u :: u != Generic ==> PairOf(u) != PairKey(hint, target)
  {
    if hint == Some(Zh) && target == Some(Ur) then ZhToUr
    else if hint == Some(Tl) && target == Some(En) then TlToEn
    else if hint == Some(Ur) && target == Some(En) then UrToEn
    else
      assert PairKey(hint, target) !in {Some((Zh, Ur)), Some((Tl, En)), Some((Ur, En))};
      Generic
  }

  /** The opening all four system prompts share. */
  const SystemOpening: string := "你是一位专业的翻译专家。请将以下"

  /** The system prompt after the shared opening. */
  function SystemRest(t: Template): string {
    match t
    case ZhToUr => "中文内容准确、自然地翻译成乌尔都语（Urdu）。保持原文语气和风格。"
    case TlToEn => "他加禄语（Filipino/Tagalog）内容准确翻译成英语。保持原文意思。"
    case UrToEn => "乌尔都语（Urdu）内容准确翻译成英语。保持原文意思。"
    case Generic => "内容翻译成英语。如果是混合语言，请整体翻译。"
  }

  function SystemPrompt(t: Template): string {
    SystemOpening + SystemRest(t)
  }

  /** The fixed part of the user prompt; the text to translate follows it. */
  function UserLead(t: Template): string {
    match t
    case ZhToUr => "请将以下中文翻译成乌尔都语："
    case TlToEn => "请将以下他加禄语翻译成英语："
    case UrToEn => "请将以下乌尔都语翻译成英语："
    case Generic => "请翻译以下内容："
  }

  /** The two messages sent for `text` under the given hint and target. */
  function BuildPrompt(text: string, hint: Option<Lang>, target: Option<Lang>): (p: Prompt)
    ensures IsSuffix(text, p.user) && |p.user| > |text|
    ensures |p.user| == |UserLead(SelectTemplate(hint, target))| + |text|
    ensures var t := SelectTemplate(hint, target);
            p.system == SystemPrompt(t) && IsPrefix(UserLead(t), p.user)
  {
    var t := SelectTemplate(hint, target);
    Prompt(SystemPrompt(t), UserLead(t) + text)
  }

  // ---------------------------------------------------------------------------
  // Properties

  /** The four templates have pairwise different system prompts. */
  lemma SystemPromptsDistinct(t: Template, u: Template)
    ensures SystemPrompt(t) == SystemPrompt(u) ==> t == u
  {
    if SystemPrompt(t) == SystemPrompt(u) {
      // the prompts share their opening and differ right after it
      assert SystemRest(t)[0] == SystemPrompt(t)[|SystemOpening|];
      assert SystemRest(u)[0] == SystemPrompt(u)[|SystemOpening|];
    }
  }

  /** Which template a system prompt belongs to, if any. */
  function TemplateOf(system: string): (r: Option<Template>)
    ensures r.Some? ==> SystemPrompt(r.value) == system
    ensures r.None? ==> forall t: Template :: SystemPrompt(t) != system
  {
    if system == SystemPrompt(ZhToUr) then Some(ZhToUr)
    else if system == SystemPrompt(TlToEn) then Some(TlToEn)
    else if system == SystemPrompt(UrToEn) then Some(UrToEn)
    else if system == SystemPrompt(Generic) then Some(Generic)
    else None
  }

  /** Reads back the template and the translated text from a prompt. */
  function ParsePrompt(p: Prompt): (r: Option<(Template, string)>)
    ensures r.Some? ==> p == Prompt(SystemPrompt(r.value.0), UserLead(r.value.0) + r.value.1)
  {
    match TemplateOf(p.system)
    case None => None
    case Some(t) =>
      var lead := UserLead(t);
      if IsPrefix(lead, p.user) then
        assert p.user == lead + p.user[|lead|..];
        Some((t, p.user[|lead|..]))
      else None
  }

  /** A prompt determines its template and its text: nothing is lost in building it. */
  lemma ParseBuild(text: string, hint: Option<Lang>, target: Option<Lang>)
    ensures ParsePrompt(BuildPrompt(text, hint, target)) == Some((SelectTemplate(hint, target), text))
  {
    var t := SelectTemplate(hint, target);
    var p := BuildPrompt(text, hint, target);
    var t' := TemplateOf(p.system).value;
    SystemPromptsDistinct(t, t');
    assert (UserLead(t) + text)[|UserLead(t)|..] == text;
  }

  /** Two requests that send the same prompt were built from the same text. */
  lemma BuildPromptInjective(a: string, b: string, hint: Option<Lang>, target: Option<Lang>,
                             hint': Option<Lang>, target': Option<Lang>)
    requires BuildPrompt(a, hint, target) == BuildPrompt(b, hint', target')
    ensures a == b
    ensures SelectTemplate(hint, target) == SelectTemplate(hint', target')
  {
    ParseBuild(a, hint, target);
    ParseBuild(b, hint', target');
  }
}
