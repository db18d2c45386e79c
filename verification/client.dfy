/**
 The translation client `translate_with_deepseek` (bot.py:71-140) with the HTTP
 exchange abstracted: `api` maps the prompt sent to the raw completion content,
 and every failure the source catches (timeout, request error, a response
 without `choices[0].message.content`, anything else) is `None`.
 */
module Client {
  import opened Options
  import opened Text
  import opened Detector
  import opened Prompts
  import opened Cleanup

  /** The completion endpoint as seen by the bot: prompt in, raw content or failure out. */
  type Api = Prompt -> Option<string>

  function Translate(text: string, hint: Option<Lang>, target: Option<Lang>, api: Api): (r: Option<string>)
    ensures r.None? <==> api(BuildPrompt(text, hint, target)).None?
    ensures r.Some? ==> IsSuffix(r.value, Strip(api(BuildPrompt(text, hint, target)).value))
    ensures r.Some? ==> IsStripped(r.value)
    // the result is the clean-up of exactly the completion for this prompt
    ensures r.Some? ==> r.value == Clean(api(BuildPrompt(text, hint, target)).value)
    // a completion without "翻译：" or "Translation:" comes back only stripped
    ensures r.Some? ==>
              var raw := api(BuildPrompt(text, hint, target)).value;
              !Occurs(M0, Strip(raw)) && !Occurs(M1, Strip(raw)) ==> r.value == Strip(raw)
  {
    match api(BuildPrompt(text, hint, target))
    case None => None
    case Some(raw) =>
      assert !Occurs(M0, Strip(raw)) && !Occurs(M1, Strip(raw)) ==> Clean(raw) == Strip(raw) by {
        if !Occurs(M0, Strip(raw)) && !Occurs(M1, Strip(raw)) {
          CleanWithoutMarkers(raw);
        }
      }
      Some(Clean(raw))
  }
}
