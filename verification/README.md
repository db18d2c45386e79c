# Telegram translation relay: the decision logic of `bot.py`, in Dafny

The bot reads group messages, guesses the source language with a few
heuristics, asks a chat-completion API (DeepSeek) for a translation and posts
the result as a reply. This project models the pure part of that pipeline and
proves what it does:

- `Detector`: `detect_language_hint`, the first-match-wins classifier. Any CJK
  ideograph (U+4E00..U+9FFF) means `zh`. Otherwise a Tagalog keyword occurring
  as a *substring* of the lower-cased text means `tl`. Otherwise an Arabic-block
  character (U+0600..U+06FF) means `ur`. Otherwise there is no hint.
- `Prompts`: the prompt-template table of `translate_with_deepseek`. Three
  (hint, target) pairs have their own system and user prompts. Every other pair
  gets the generic translate-to-English prompt. The user prompt is a fixed lead
  followed by the text.
- `Cleanup`: the clean-up of the raw completion. The content is stripped. Then,
  for each of `翻译：`, `Translation:`, `乌尔都语翻译：`, `英语翻译：` in that order,
  the text after the marker's first occurrence is kept and stripped again.
- `Client`: `translate_with_deepseek` with the HTTP exchange as a parameter
  `api: Prompt -> Option<string>`. `None` stands for every failure the function
  catches and turns into `None`.
- `Dispatch`: `handle_message`. It covers the skip rules, the hint-to-target
  table (zh→ur, tl→en, ur→en, no hint → nothing) and the reply rule. The
  outcome records the prompts sent to the API (so "no API call" is
  `calls == []`) and the reply, which quotes the original message id.
- `Health`: the path-to-status choice of the health-check handler.
- `Startup`: `main`'s configuration check and its polling retry loop.
- `Text`: the string primitives the bot uses: Python's `strip()`, the part of
  `lower()` that the ASCII keyword test can observe, `k in s` and
  `s.split(k, 1)[1]`.

Strings are `seq<char>`, so a character is one Unicode scalar value. A Python
`str` is a sequence of code points and can also hold lone surrogates
(U+D800..U+DFFF), which have no counterpart here: text holding one is outside
this model. `Text.IsSpace` is the set of
code points for which Python 3's `str.isspace()` is true; this is what
`strip()` removes.

What `bot.py` does not do, and the model therefore does not do either:
- It does not hand the kind of a failure to its caller. Failures are told
  apart only in the log: a timeout, any other request error (an HTTP error
  status included, with no special case for 429, 402, 401 or 403), a response
  without `choices[0].message.content`, and anything else. The caller gets
  `None` for every one of them.
- The clean-up does not trim quote characters.
- A marker is cut wherever it occurs, not only as a prefix.
- The health endpoint returns a fixed 200 text or an empty 404. There is no
  JSON body, no 503/500 and no failure counter.
- A failed translation sends no error reply, in any chat.
- No "processing" message is sent.
- The start-up retry waits a fixed 10 s, not an exponentially growing delay.

## Model

| member | source | states |
|---|---|---|
| Text.Strip | bot.py:122 | the result has no whitespace at either end and is the input minus a leading and a trailing run of whitespace |
| Text.StripIdempotent | bot.py:178 | stripping twice is stripping once |
| Text.Lower | bot.py:157 | lower-casing leaves no upper-case ASCII letter and never shortens the text; without U+0130 it works character by character, turning `A`-`Z` into `a`-`z` and keeping every other ASCII character; text with nothing to lower is returned unchanged |
| Text.LowerOfSpelled | bot.py:157-159 | a lower-case word written with any mix of capitals lowers to the word itself |
| Text.LowerIdempotent | bot.py:157 | lower-casing an already lower-cased text changes nothing |
| Text.Find | bot.py:126-127 | the index found is an occurrence with none before it; no index means the marker does not occur |
| Text.Contains | bot.py:126 | `k in s` holds exactly when `k` occurs somewhere in `s` |
| Text.AfterFirst | bot.py:127 | `split(k, 1)[1]` is the suffix that starts right after the first occurrence of `k` |
| Detector.AnyCharIn | bot.py:148 | the scan is true exactly when some character lies in the given code-point range |
| Detector.AnyOccurs | bot.py:158 | the keyword test is true exactly when some listed keyword is a substring of the text |
| Detector.Detect | bot.py:142-166 | `zh` iff a CJK ideograph occurs; `tl` iff no CJK and a keyword occurs in the lower-cased text; `ur` iff neither and an Arabic-block character occurs; no hint iff none of the three; never `en` |
| Detector.CjkDominates | bot.py:148-149 | one CJK ideograph anywhere yields `zh`, whatever else the text contains |
| Detector.KeywordInAnyCase | bot.py:152-159 | a keyword written in any mix of upper and lower case, anywhere in a text without CJK ideographs, gives `tl` |
| Detector.PianoIsTagalog | bot.py:152-159 | keywords match inside longer words: "piano" is classified `tl` through "ano" |
| Detector.CapitalisedKeywordIsTagalog | bot.py:157-159 | "Salamat po", with a capital S, is classified `tl` |
| Detector.UpperCaseKeywordIsTagalog | bot.py:157-159 | "KUMUSTA", all capitals, is classified `tl` |
| Detector.KelvinSignIsTagalog | bot.py:157-159 | "kumusta" written with U+212A KELVIN SIGN for its `k` is classified `tl`, because Python lowers that sign to `k` |
| Detector.EmptyHasNoHint | bot.py:163-166 | the empty text has no hint |
| Detector.HelloThereHasNoHint | bot.py:142-166 | plain English with no keyword substring, "hello there", has no hint |
| Prompts.SelectTemplate | bot.py:87-105 | a specific template is chosen exactly for its own (hint, target) pair; every other pair, including a missing hint or target, gets the generic template |
| Prompts.BuildPrompt | bot.py:86-105 | the user prompt starts with the selected template's lead and ends with the text, and is exactly as long as the two together; the system prompt is the selected template's |
| Prompts.SystemPromptsDistinct | bot.py:89-104 | the four system prompts are pairwise different |
| Prompts.ParseBuild | bot.py:86-105 | the template and the text can be read back from any built prompt |
| Prompts.BuildPromptInjective | bot.py:86-105 | equal prompts come from the same text and the same template |
| Cleanup.CutAfter | bot.py:125-127 | a marker that does not occur leaves the text unchanged; one that does leaves the stripped rest after its first occurrence |
| Cleanup.CutAll | bot.py:125-127 | the steps never lengthen the text, and on stripped text every run of steps leaves a stripped suffix of it |
| Cleanup.Clean | bot.py:122-128 | the clean-up never adds characters: its result is a suffix of the stripped content, with no whitespace at either end |
| Cleanup.CleanSteps | bot.py:122-127 | the clean-up is the four marker steps in the listed order, applied to the stripped content |
| Cleanup.ShadowedMarkers | bot.py:125 | wherever `乌尔都语翻译：` or `英语翻译：` occurs, `翻译：` occurs too |
| Cleanup.AbsentStaysAbsent | bot.py:125-127 | a marker missing from the stripped content is missing after any sequence of steps |
| Cleanup.CleanWithoutMarkers | bot.py:125-127 | without `翻译：` and `Translation:` in the stripped content, the clean-up returns it unchanged |
| Cleanup.LongerMarkersShadowed | bot.py:125-127 | when the first `翻译：` is the only one, the two longer Chinese markers never fire |
| Cleanup.CleanKeepsSecondMarker | bot.py:125-127 | each marker cuts once: content holding `翻译：` twice keeps the second occurrence after one clean-up |
| Cleanup.CleanAgainCutsIt | bot.py:125-127 | a second clean-up removes that occurrence |
| Cleanup.CleanNotIdempotent | bot.py:122-127 | the clean-up is not idempotent: cleaning `翻译：翻译：x` again changes the result |
| Client.Translate | bot.py:117-140 | no translation exactly when the API call fails; otherwise the clean-up of the completion for the built prompt, a stripped suffix of the stripped completion, and the stripped completion itself when it holds neither `翻译：` nor `Translation:` |
| Dispatch.TargetFor | bot.py:188-208 | `zh` goes to Urdu, `tl` and `ur` go to English, and no hint gives no target |
| Dispatch.Candidate | bot.py:175-182 | an update is worth translating exactly when it has a message with non-empty text whose stripped form has at least two characters and does not start with '/'; the candidate is that stripped form |
| Dispatch.ReplyText | bot.py:212 | the reply starts with the globe, "翻译成", the target's name, ':' and a newline, and ends with the translation |
| Dispatch.HandleMessage | bot.py:170-220 | at most one API call; none for a missing or empty text, a short or command text, or no hint; the call uses the table's target; a reply exactly when the cleaned translation is non-empty and differs from the stripped original, formatted with the target's name and quoting the message id |
| Dispatch.ShortMessageSkipped | bot.py:178-182 | a text of fewer than two characters causes no call and no reply |
| Dispatch.CommandSkipped | bot.py:178-182 | a text that starts with '/' once stripped causes no call and no reply |
| Dispatch.NoHintNoCall | bot.py:206-208 | text without a hint makes zero API calls, whatever the API would answer |
| Dispatch.HintedMessageDispatched | bot.py:188-204 | a hinted text is sent exactly once, under the target the table gives |
| Dispatch.EchoGetsNoReply | bot.py:210 | an API that answers with the stripped original text itself gets no reply, unless that text holds `翻译：` or `Translation:` |
| Dispatch.ReplyCarriesTranslation | bot.py:210-218 | every reply is the fixed header with a target name, followed by a non-empty suffix of the stripped completion |
| Dispatch.ReplyTextInjective | bot.py:212 | the reply text determines the target name and the translation |
| Dispatch.ChineseGoesToUrdu | bot.py:188-191 | "你好世界" is sent with hint `zh` and target `ur` |
| Dispatch.TagalogGoesToEnglish | bot.py:194-197 | "kumusta ka" is sent with hint `tl` and target `en` |
| Dispatch.HelloThereNoCall | bot.py:206-208 | "hello there" causes no API call and no reply |
| Health.HandleGet | bot.py:42-50 | status 200 with the fixed text exactly for "/health" and "/"; every other path gets 404 with an empty body |
| Health.PathComparedWhole | bot.py:43 | a query string or any other suffix on "/health" gives 404 |
| Startup.RunWithRetries | bot.py:354-391 | one to five attempts; every attempt before the last failed retryably; the loop ends stopped, interrupted, or giving up after the fifth retryable failure; it slept 10 s after each failed attempt but the last |
| Startup.StartBot | bot.py:301-396 | a missing bot token or API key means zero attempts and no sleep; otherwise the retry loop's behaviour (one to five attempts, all but the last failed retryably, the exit reason set by the last attempt, 10 s slept per retry); the exit status is 0 or 1, and 1 exactly when the fifth attempt also failed |

## Left out

- The HTTP request itself (bot.py:79-84, 107-121, 131-140): URL, headers, JSON payload, model name, temperature 0.3, 1000-token cap and 30 s timeout. It is network I/O, so it is the `api` parameter. Logging of the error kinds is left out too.
- A completion whose content is not a string (for example JSON `null`). The source's catch-all turns it into `None`; the model's `api` already returns either a string or `None`.
- The Telegram SDK: `Application`, handler registration, the `filters.TEXT & ~filters.COMMAND` filter, `reply_text` and `run_polling`. This is foreign library code with async delivery; a reply is a `Reply` value instead.
- `start_health_server` (bot.py:56-67): socket binding and the server thread. This is I/O and concurrency. Only the path-to-status choice is modelled.
- The command handlers `/start`, `/help`, `/status` and `/languages` (bot.py:222-299). They send constant texts and have no behaviour to model.
- Printing, logging, `load_dotenv` and the `sleep` call itself. `Startup` counts the seconds slept instead.
- Startup.StartBot: does not model an exception while building the application before the loop (bot.py:332-344), which also ends with exit status 1. Building the application is SDK code.
- Text.Lower: only the ASCII letters and the two capitals whose Python lower-case contains an ASCII letter (U+212A to `k`; U+0130 to `i` plus U+0307) are lowered. Every other character is kept as it is. The result differs from Python's `lower()` there, but such characters lower to non-ASCII characters, so they can never be part of an ASCII keyword match.
- Text.IsSpace: fixed to Python 3's current whitespace table. It does not follow later Unicode database changes.
- Detector.Lang: only the four codes the file uses (`zh`, `tl`, `ur`, `en`) are representable. `translate_with_deepseek` would send any other code to the generic template as well.
