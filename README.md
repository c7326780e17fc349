# Gemini Telegram bot: a verified model of its deterministic core

The bot passes Telegram messages on to Gemini and sends back the replies. Most of the repository is glue around the Telegram and Gemini SDKs. This project models the deterministic pieces underneath that glue, and proves what they do.

- **Utilities** (`Utils`, utils.py):
  - the markdown escaping and two-tier truncation of `format_message`;
  - the sliding-window limiter `rate_limit_check`. It updates the caller's request table in place, so it is modelled as a method over a `RequestTable` object;
  - `escape_markdown_v2`, `truncate_text`, `sanitize_filename`, `format_uptime`, `is_admin` and `validate_image_type`.
- **The dispatcher** (`Bot.TelegramBot`, bot.py). It is a class whose fields are the per-user histories (`user_contexts`), the limiter's log (`user_requests`) and the usage counters (`stats`). The `/clear` handler, the text-message handler, the photo handler and `/generate` each run as one method. What they learn from collaborators comes in as parameters: what the SDK call returned or raised, and the exception raised by the Telegram call that ends each branch. The other Telegram calls are taken to succeed; "## Left out" names them handler by handler.
- **Request and response shaping** (`GeminiHandler`, gemini_handler.py):
  - the prompts it sends;
  - the last-ten window and role mapping of `chat_with_context`;
  - the fold over the response parts in `generate_image`;
  - how a text reply, or the exception in its place, becomes the returned string.
- **The admin panel** (`AdminControls`, admin_controls.py):
  - the guarded dispatch of `handle_callback`, with each Telegram edit modelled as an outcome value;
  - the stable ranking of `show_user_info`;
  - the two aggregates of `show_detailed_stats`.
- **Configuration** (`BotConfig`, config.py): `Config.__init__` reads a given environment map, plus `validate` and `get_bot_info`.

Modelling choices:
- Time is an integer number of seconds and is passed in as `now`.
- The 70% test `cut_point > max_length * 0.7` compares an integer with a double. `Utils.PastSeventyPercent` states it exactly in integers for `|max_length| < 2^50`: it is `10 * cut > 7 * max_length`, except that a cut of exactly 70% passes when the double product rounds below it (at limits such as 90, 170 and 350). At the configured limit of 4096 it is the plain integer comparison.
- The escaping round-trips are stated for MarkdownV2's reading of escaped text, in which a backslash makes the next character literal and is dropped (`Utils.Unescape`). That is the dialect whose eighteen reserved characters `format_message` and `escape_markdown_v2` escape. The handlers send their replies with the legacy `ParseMode.MARKDOWN` (bot.py:228, bot.py:290), which is not modelled (see "## Left out").
- Python's slices (`s[:k]` with a negative `k`, `s[-n:]`), `str.rfind`, `str(int)`, `int(str)` and `str.join` are defined in `Common` with their Python meaning.

In three places the code behaves differently from what its comments or names suggest; the model follows the code:
- **History length.** The comment at bot.py:206 says the last 20 messages are kept. The code trims to 20 after the user turn and then appends the assistant turn, so a stored history holds up to 21 entries (`Bot.FullHistoryHasTwentyOne`).
- **Truncated length.** The docstring at utils.py:13 promises proper length limits. The hard cut produces `max_length + 2` characters and can split an escape pair (see Findings). The handlers are modelled as written, with `Utils.FormatMessage`. `Utils.FormatMessageBounded` is the corrected definition, with its bound proved.
- **AI failures in the text handler.** The counter named `errors` (bot.py:43) suggests that failed AI calls are counted there. The Gemini handler catches every SDK exception and returns an "Error: ..." string. `handle_message` sends that string as an answer and counts it in `messages_processed`; only a failed reply counts in `errors`. The photo handler likewise counts a failed `analyze_image` as an analysis. `/generate` does count a failed `generate_image` as an error, because no image comes back.

## Model

| member | source | states |
|---|---|---|
| Common.PyPrefix | utils.py:24 | Python's `s[:k]`: a prefix of `s` of length `min(k, len)` for `k >= 0`; for negative `k`, `k` elements counted from the end are dropped, clamped at 0 |
| Common.LastN | gemini_handler.py:112 | `s[-n:]` is the last `min(n, len)` elements of `s` |
| Common.Rfind | utils.py:25-26 | `rfind` gives -1 or an index holding `x`, and no later index holds `x` |
| Common.RfindIsLast | utils.py:68 | the text after the last occurrence (what `rsplit(x, 1)` leaves as its tail) contains no `x` |
| Common.JoinLength | utils.py:88 | a join is at least as long as its first part |
| Common.DigitsValueOfNatToString | config.py:19 | the digits `str` writes for a natural number read back as that number |
| Common.ParseIntOfIntToString | config.py:15 | `int(str(i)) == i` for every integer, which is how the text defaults "0" and "5000" become the integer defaults |
| BotConfig.NewConfig | config.py:11-32 | construction fails exactly when ADMIN_ID or WEBHOOK_PORT is not an integer; otherwise every field is its variable (read as an integer for the admin id and the port) or its default, and the fixed settings are 4096, 20971520, jpeg/png/webp, 10 and 60 |
| BotConfig.DefaultsFromEmptyEnvironment | config.py:15-20 | with nothing set, admin id is 0, the port is 5000, the username is GeminiAIBot and there is no webhook URL |
| BotConfig.MalformedAdminIdIsAnError | config.py:15 | an ADMIN_ID of "abc" makes construction fail |
| BotConfig.Validate | config.py:34-42 | false when the token is empty, when the key is empty and when the admin id is 0; true exactly when all three are set |
| BotConfig.EmptyEnvironmentDoesNotValidate | config.py:13-15 | a configuration built from an empty environment is invalid |
| BotConfig.GetBotInfo | config.py:44-52 | `webhook_configured` holds exactly when the URL is present and non-empty; the other fields are copied from the configuration |
| Utils.Escape | utils.py:19 | escaping lengthens the text by the number of reserved characters in it |
| Utils.EscapeFirst | utils.py:19 | the escaping of a text starts with the escaping of its first character |
| Utils.EscapeAppend | utils.py:19 | escaping works character by character, so it distributes over concatenation |
| Utils.EscapePlain | utils.py:19 | text with no reserved character is left unchanged |
| Utils.UnescapeEscape | utils.py:19 | when the backslash is in the escaped set, reading the escaped text as MarkdownV2 does gives back the original text |
| Utils.ReservedCharacters | utils.py:19 | '.' and the backslash are in the substitution's class; the newline is not |
| Utils.EscapeReserved | utils.py:19 | `format_message`'s substitution, read as MarkdownV2 reads it, gives back the input, and adds one character per reserved character; it is also the corrected `escape_markdown_v2` (utils.py:116-119), whose set lacks the backslash (corrected member) |
| Utils.EscapeMarkdownV2 | utils.py:116-119 | the output length is the input length plus the number of the 18 characters in it |
| Utils.MarkdownV2DropsBackslash | utils.py:118-119 | "\a" is left as it is, and MarkdownV2 reads it as "a" (the finding) |
| Utils.PastSeventyPercent | utils.py:29 | a cut past 70% in exact arithmetic passes, a cut below 70% never does, and where 70% of the limit is not an integer the test is the plain comparison |
| Utils.SeventyPercentDoubling | utils.py:29 | doubling both the cut and the limit never changes the verdict, as doubling a double is exact |
| Utils.SeventyPercentOfDefaultLimit | utils.py:29 | at the configured limit of 4096 the float test is the integer comparison |
| Utils.SeventyPercentRounding | utils.py:29 | at 350 a cut of exactly 245 (70%) passes, because `350 * 0.7` rounds below 245; at 100 a cut of exactly 70 does not |
| Utils.CutPoint | utils.py:24-28 | the cut point is -1 or the position of a '.' or newline inside the first `max_length - 100` escaped characters, and no later position in that window holds either |
| Utils.Truncate | utils.py:22-32 | both branches keep a prefix of the escaped text and append the marker |
| Utils.FormatMessage | utils.py:12-22 | empty text gives "No response generated."; escaped text that fits is returned as it is, and it reads back as the input as MarkdownV2 reads it |
| Utils.BoundaryIsUnitAligned | utils.py:19-30 | a '.' or newline in escaped text ends a whole escape unit: the text up to it is the escaping of a prefix of the input |
| Utils.FormatMessageBoundaryCut | utils.py:24-30 | a boundary past 70% is kept with the marker appended; the result is at most `max_length - 83` long and is the escaping of a prefix of the input plus the marker |
| Utils.FormatMessageHardCut | utils.py:29-32 | when the float test fails, the result is the first `max_length - 15` escaped characters plus the marker, `max_length + 2` in all (as written) |
| Utils.EscapeDot | utils.py:19 | a '.' after plain text becomes "\." in place |
| Utils.HardCutSplitsEscapePair | utils.py:19-32 | a hard cut can land between a backslash and the '.' it escapes, leaving the backslash before the marker (as written) |
| Utils.FormatMessageExceedsLimit | utils.py:22-32 | 4097 letters with the 4096 limit come out 4098 characters long (as written) |
| Utils.FormatMessageBounded | utils.py:12-34 | never longer than `max_length` (for `max_length >= 100`), and the same as `format_message` except in the hard-cut branch (corrected member) |
| Utils.TruncateText | utils.py:121-126 | text that fits is unchanged; longer text ends with the suffix and, when the limit is at least the suffix length, is exactly `max_length` long and starts with the input's prefix |
| Utils.ReplaceUnsafe | utils.py:65 | the substitution keeps the length and turns every character outside `\w`, '-' and '.' into '_' and keeps the rest |
| Utils.SanitizeFilename | utils.py:62-71 | every character of the result is safe; a name of at most 255 characters is only substituted |
| Utils.CutLongName | utils.py:67-69 | the cut is no longer than the name, keeps the first `min(250, stem)` characters, and with a '.' ends with the extension |
| Utils.CutLongNameShape | utils.py:67-69 | a long name split at its last '.' becomes the first 250 stem characters, '.', and the extension; a trailing '.' is dropped |
| Utils.SanitizeLongName | utils.py:67-69 | a long name without '.' is cut to 250 characters; with an extension the result is `min(250, stem) + 1 + ext` long, which is over 255 for an extension longer than four characters |
| Utils.ReplaceUnsafeOfSafe | utils.py:65 | the substitution leaves a safe name unchanged |
| Utils.CutLongNameStable | utils.py:68-69 | a rebuilt name with an extension, rebuilt again, is unchanged |
| Utils.SanitizeIdempotent | utils.py:62-71 | sanitizing twice gives the same name as sanitizing once |
| Utils.UptimeFields | utils.py:75-78 | days, hours and minutes are `timedelta`'s normalisation: hours below 24, minutes below 60, and the fields account for the duration to within a minute |
| Utils.UptimePartNotZero | utils.py:81-86 | a non-zero component is written with its unit and is never "0" plus the unit |
| Utils.UptimeText | utils.py:80-88 | the text is "0m" exactly when all three components are zero |
| Utils.UptimeFieldsZero | utils.py:76-88 | all three components are zero exactly when the duration is under a minute |
| Utils.FormatUptime | utils.py:73-88 | the loop builds the joined non-zero components and gives "0m" exactly for a duration under a minute |
| Utils.IsAdmin | utils.py:36-38 | true exactly for the one configured admin id |
| Utils.UnsetAdminMatchesNobody | utils.py:36-38 | with ADMIN_ID unset (admin id 0) no positive user id is the admin |
| Utils.Lower | utils.py:92 | `lower()` maps every character and keeps the length |
| Utils.LowerIdempotent | utils.py:92 | lowering twice is lowering once |
| Utils.ValidateImageType | utils.py:90-92 | a type is accepted exactly when it equals an allowed type ignoring case |
| Utils.ValidateImageTypeIgnoresCase | utils.py:90-92 | the case of the queried type never changes the verdict |
| Utils.RequestTable.constructor | bot.py:36 | the request table starts empty |
| Utils.Recent | utils.py:47-50 | the purge keeps exactly the times strictly after the window start, each as often as it occurs |
| Utils.RecentAllKept | utils.py:47-50 | when every time is inside the window, the purge keeps the whole log |
| Utils.RecentAllDropped | utils.py:47-50 | when every time is at or before the window start, the purge empties the log |
| Utils.Admit | utils.py:43-60 | rejection happens exactly when `limit` recent entries remain, and records nothing; acceptance appends `now`; a log within the limit stays within it; for a positive window, only times inside it remain |
| Utils.BurstThenRecover | utils.py:40-60 | with 10 per 60 seconds, ten requests at one instant pass, the eleventh is refused, and a request exactly 60 seconds later passes with a fresh log |
| Utils.RateLimitCheck | utils.py:40-60 | the verdict is the specification's, the user's entry becomes the purged log (plus `now` when accepted), and no other user's entry changes |
| GeminiHandler.FullPrompt | gemini_handler.py:30 | with a context the prompt is the context, "\n\nUser: " and the prompt; without one, the prompt alone |
| GeminiHandler.AnalysisPrompt | gemini_handler.py:47-52 | the built-in prompt is used exactly when the given one is empty |
| GeminiHandler.ImagePrompt | gemini_handler.py:76 | the prompt follows "Generate an image: " |
| GeminiHandler.TextReply | gemini_handler.py:37-41 | non-empty response text is returned; absent or empty text gives the fallback; an exception gives its prefix and text; the reply is never empty |
| GeminiHandler.ResponseReply | gemini_handler.py:27-41 | `generate_response` (and `chat_with_context`, lines 126-130) always returns a non-empty reply; an exception becomes "Error: " and its text |
| GeminiHandler.AnalysisReply | gemini_handler.py:65-69 | `analyze_image` always returns a non-empty reply; an exception becomes "Error analyzing image: " and its text |
| GeminiHandler.BuildContents | gemini_handler.py:111-119 | one content per message of the last ten, in order; role 'user' stays "user" and any other or missing role becomes "model"; missing content becomes '' |
| GeminiHandler.LastImage | gemini_handler.py:92-96 | no image exactly when no part is an image part; otherwise the data of the last image part, which is non-empty |
| GeminiHandler.TextPartIsNeverTheImage | gemini_handler.py:93-96 | a text part extends the description and never replaces the image |
| GeminiHandler.Description | gemini_handler.py:93-94 | the description is empty exactly when no part carries text, and holds every text part's length |
| GeminiHandler.DescriptionAppend | gemini_handler.py:93-94 | the description of concatenated parts is the concatenation of their descriptions |
| GeminiHandler.FoldParts | gemini_handler.py:89-96 | the loop's image is the last image part's data and its description is the texts joined in order |
| GeminiHandler.FirstParts | gemini_handler.py:82-87 | the parts folded over are those of the first candidate, and exist only when non-empty |
| GeminiHandler.GenerateImage | gemini_handler.py:71-105 | no candidates, no content or parts, no image data and an exception each give no image and their own message; with an image, the message is the description or "Image generated successfully" |
| AdminControls.ParseTag | admin_controls.py:194-225 | a branch is selected only by its own callback data |
| AdminControls.ParseTagData | admin_controls.py:195-224 | each tag's data selects that tag's branch |
| AdminControls.TagDataInjective | admin_controls.py:195-224 | distinct branches are selected by distinct data |
| AdminControls.Dispatch | admin_controls.py:195-224 | every recognised tag makes an edit, and none is the access-denied edit |
| AdminControls.HandleCallback | admin_controls.py:182-228 | access is denied exactly to non-admins; no edit happens exactly for the admin with unrecognised data; otherwise the branch's edit, or the error edit when it raised |
| AdminControls.GuardIgnoresData | admin_controls.py:187-190 | for a non-admin the outcome does not depend on the data |
| AdminControls.PanelButtonsAreHandled | admin_controls.py:22-36 | every button on the main panel is recognised and makes an edit; the back button re-renders the panel |
| AdminControls.Insert | admin_controls.py:105-109 | insertion adds exactly one element |
| AdminControls.InsertBound | admin_controls.py:105-109 | insertion keeps a lower bound on the counts |
| AdminControls.InsertSorted | admin_controls.py:105-109 | insertion keeps the list in descending order |
| AdminControls.SortByCount | admin_controls.py:105-109 | the sort is a permutation of the items |
| AdminControls.SortByCountSorted | admin_controls.py:105-109 | the sort is descending by history length |
| AdminControls.WithCountAppend | admin_controls.py:105-109 | the users with a given count in a concatenation are those of each half, in order |
| AdminControls.WithCountNone | admin_controls.py:105-109 | a list with no entry of a count has no users with that count |
| AdminControls.WithCountSingle | admin_controls.py:105-109 | a single item is among the users with its own count and no other |
| AdminControls.InsertStable | admin_controls.py:105-109 | insertion places the new item after every earlier item with the same count |
| AdminControls.InsertStableAtEnd | admin_controls.py:105-109 | an item with no more messages than the last one goes after every item with its count |
| AdminControls.InsertStablePast | admin_controls.py:105-109 | passing an item with fewer messages keeps the order of the items with each count |
| AdminControls.SortByCountStable | admin_controls.py:105-109 | the sort is stable: users with equal counts keep their dictionary order |
| AdminControls.Top | admin_controls.py:105-109 | at most ten users are listed |
| AdminControls.TopAreMostActive | admin_controls.py:105-109 | the listed users are descending, come from the input, and none left out has a longer history than any listed |
| AdminControls.RankRow | admin_controls.py:112 | each row starts with its rank, which reads back as that number, and ends the line |
| AdminControls.UserInfoHeader | admin_controls.py:102 | the heading starts with the title, and the user count reads back from between the label and the blank line |
| AdminControls.RankRowsStep | admin_controls.py:111-112 | row i + 1 follows the first i rows and carries rank i + 1 |
| AdminControls.RankedList | admin_controls.py:111-112 | the loop writes one row per listed user, numbered from 1 |
| AdminControls.ShowUserInfo | admin_controls.py:97-112 | no users gives "No active users found."; otherwise the user count, then the top ten ranked rows |
| Bot.ActiveUsersAreTheKeys | admin_controls.py:61 | `len(user_contexts)`: the items handed to the panel are as many as the dictionary's keys |
| AdminControls.TotalConversations | admin_controls.py:62 | every history's length counts toward the total |
| AdminControls.TotalConversationsBound | admin_controls.py:62 | when no history is longer than a bound, the total is at most the bound per user |
| AdminControls.TotalAppend | admin_controls.py:62 | the total of two lists joined is the sum of their totals |
| AdminControls.TotalWithout | admin_controls.py:62 | taking one item out takes its count out of the total |
| AdminControls.TotalOfPermutation | admin_controls.py:62 | two lists with the same items, in any order, have the same total |
| AdminControls.TotalOfSorted | admin_controls.py:62 | the ranked list has the same total as the dictionary's items |
| Bot.WellFormedAlternates | bot.py:200-222 | in a stored history, neighbouring turns have different roles and the last turn is the assistant's |
| Bot.AppendAlternates | bot.py:200-204 | appending a turn of the other role keeps the roles alternating |
| Bot.SuffixAlternates | bot.py:207 | keeping only the last entries keeps the roles alternating |
| Bot.Trim | bot.py:207 | `[-20:]` keeps the last `min(20, len)` entries in order |
| Bot.NextHistory | bot.py:200-222 | after a message the history is `min(prev + 1, 20) + 1` long and ends with the user turn, then the assistant turn |
| Bot.NextHistoryKeepsRecent | bot.py:207 | before the two new turns come the most recent old entries, in order |
| Bot.FullHistoryHasTwentyOne | bot.py:207-222 | a history of 20 or more entries is stored with 21 |
| Bot.NextHistoryWellFormed | bot.py:200-222 | handling a message keeps a history at most 21 long and alternating |
| Bot.TurnMessages | bot.py:211-213 | each stored turn is passed on with its content and with role "user" exactly for user turns |
| Bot.MultiTurnIffEarlierHistory | bot.py:210-215 | the multi-turn call is made exactly when the user already had history |
| Bot.CountMessage | bot.py:231 | counting a message decreases no counter |
| Bot.CountAnalysis | bot.py:293 | counting an analysis decreases no counter |
| Bot.CountGenerated | bot.py:135 | counting a generated image decreases no counter |
| Bot.CountError | bot.py:238 | counting an error decreases no counter |
| Bot.CaptionPrompt | bot.py:276-277 | the analysis prompt is empty exactly when the caption is, and otherwise carries the caption |
| Bot.AnalysisText | bot.py:283-285 | the formatted text ends with the analysis |
| Bot.GeneratedCaption | bot.py:132 | the caption carries the prompt right after its heading and ends with the description |
| Bot.DistinctCount | bot.py:320-321 | keys listed once each are as many as the dictionary's keys |
| Bot.Entries | bot.py:320-321 | the items handed to the admin panel are the users in dictionary order with their history lengths |
| Bot.TelegramBot.constructor | bot.py:27-45 | no histories, an empty request table and all counters zero |
| Bot.TelegramBot.CheckRate | bot.py:189 | the limiter's verdict and log, with every log kept within the limit |
| Bot.TelegramBot.Record | bot.py:35 | sets one user's history; a user seen for the first time joins the key order at the end, as the defaultdict adds them |
| Bot.TelegramBot.ClearCommand | bot.py:173-180 | the user's history becomes empty; every other history and every counter is unchanged |
| Bot.TelegramBot.Converse | bot.py:198-222 | the call made for the trimmed history, and the history set to the trimmed one plus the assistant's reply |
| Bot.TelegramBot.MakeRequest | bot.py:209-215 | `chat_with_context` on a trimmed history of more than one entry, `generate_response` on the message alone otherwise |
| Bot.TelegramBot.SendAnswer | bot.py:224-238 | a sent reply is the answer as `format_message` formats it and counts a message; a failed send counts an error and reports it |
| Bot.TelegramBot.HandleMessage | bot.py:182-238 | a rejection changes only the limiter's log; otherwise the history, the call made, the reply and exactly one counter follow the steps in order; the reply is `format_message`'s output |
| Bot.TelegramBot.HandlePhoto | bot.py:240-300 | a rejection changes only the limiter's log; an oversized photo changes no counter; otherwise the caption's prompt is used, the analysis text is formatted by `format_message`, and an analysis or an error is counted; histories never change |
| Bot.TelegramBot.ReportAnalysis | bot.py:287-300 | the progress message shows the formatted analysis and an analysis is counted, or the edit raised and an error is counted |
| Bot.TelegramBot.GenerateCommand | bot.py:97-151 | a rejection or an empty prompt changes no counter; a generated and sent image carries the caption and counts an image; a failed delete then counts an error and leaves the error text showing; no image or a failed send counts an error; without an image the text left showing starts with "❌ Failed to generate image: ", followed by the exception's text when the call raised; no counter decreases |
| Bot.TelegramBot.ReportImage | bot.py:127-151 | what the image call returned decides the caption, the text left showing and the counters, as in `GenerateCommand` |
| Bot.TelegramBot.StatsCommand | bot.py:312-322 | only the admin sees the counters, the number of users and the total history length, at most 21 per user |

## Left out

- webhook_server.py and main.py: the Flask status server runs in its own thread and reads the bot's state concurrently, with float rates; the start-up code is logging and thread bootstrap. webhook_server.py and main.py are not part of this model.
- The SDK and network calls themselves: `generate_content`, Telegram replies, edits, deletes, chat actions, the file download and the polling loop. What the SDK returned or raised is a parameter, and so is the exception of the Telegram call that ends each branch. The other Telegram calls are taken to succeed, as the lines below say.
- Async interleaving between handlers. Each handler is one atomic step, and `datetime.now()` is the `now` parameter.
- `preprocess_image` (PIL decoding, colour conversion and resampling) is not modelled. `handle_photo`'s analysis result is a parameter.
- `show_system_info`: psutil and platform probes, with float percentages.
- The text of `show_detailed_stats`, except its two integer aggregates. The float error rate and averages are also left out.
- The texts of `show_admin_panel` and `show_settings`, except the panel's keyboard.
- `get_file_size_mb` and `create_progress_bar`: float division and rounding. `log_user_action`: it only logs.
- The `/start`, `/help`, `/status` and `/admin` commands: they only send fixed texts or the panel and change no state.
- The model names in `GeminiHandler.__init__`: they are passed through to the SDK.
- `\w` in `sanitize_filename`, `str.lower` and `int(str)` are taken over ASCII. Python's Unicode classes and whitespace stripping in `int` are not modelled.
- BotConfig.NewConfig: `Common.ParseInt` reads an optional sign and ASCII digits only. Python's `int` also accepts single underscores between digits, so an ADMIN_ID of "12_345" is 12345 in Python but makes construction fail in the model.
- Bot.TelegramBot.HandleMessage: the rate-limit reply (bot.py:190-192) and the typing action (bot.py:196) are taken to succeed; if either raised, the exception would escape with only the limiter's log updated. A failure of the error reply itself (bot.py:235-237) escapes before `errors` is counted and is not modelled.
- Bot.TelegramBot.HandleMessage: the user turn is stored and then trimmed in two assignments before the SDK call. The model makes one update after the call. Without interleaving the result is the same.
- Bot.TelegramBot.HandlePhoto: a failed download is not told apart from a failed edit. Either one is the `editFailure` exception and counts one error. The photo list is taken to be non-empty and `file_size` to be an integer. The rate-limit reply, the typing action and the progress message (bot.py:247-255) are taken to succeed, and so is the error edit (bot.py:297-299); a failure of any of them escapes the handler and is not modelled.
- Bot.TelegramBot.GenerateCommand: the rate-limit and usage replies, the upload action and the progress message (bot.py:103-122) are taken to succeed. A failed progress edit in the no-image branch is not modelled separately. The exception raised while reporting an exception (bot.py:148-150) escapes the handler, and is not modelled either.
- AdminControls.HandleCallback: `query.answer()` (admin_controls.py:185) is taken to succeed; if it raised, the handler would stop before the admin guard.
- Utils.PastSeventyPercent: the float test is stated exactly only for `|max_length| < 2^50`. Beyond that, doubles no longer hold the product's fraction, and the model keeps the small-limit formula.
- Telegram's legacy Markdown reading of the sent replies (`ParseMode.MARKDOWN`, bot.py:228 and bot.py:290) is not modelled. In that dialect a backslash escapes only `_`, `*`, `` ` `` and `[`, so a reply the handlers send may show other backslashes literally. The round-trip lemmas (`Utils.UnescapeEscape`, `Utils.EscapeReserved`, `Utils.FormatMessage`) are about MarkdownV2's reading, which the escaping targets.
- Utils.Recent: its contract states which times are kept and how often, not that they stay in order. Its definition keeps the order, and `RateLimitCheck` is tied to that definition.

## Findings

| source | as written | input that shows it | evidently intended | confidence | as-written member | corrected member |
|---|---|---|---|---|---|---|
| utils.py:32 | the hard cut keeps `max_length - 15` characters and then appends the 17-character marker, so the result is `max_length + 2` long and can end in a lone backslash | 4097 letters with `max_length` 4096 give 4098 characters, over Telegram's 4096-character limit | keep `max_length - 17` characters, so the result fits the limit | high, not executed | Utils.FormatMessageExceedsLimit | Utils.FormatMessageBounded |
| utils.py:118-119 | `escape_markdown_v2` does not escape the backslash, which MarkdownV2 reads as an escape of the next character | "\a" is sent unchanged and shown as "a" | escape the backslash as well, as `format_message`'s class at utils.py:19 does; the escaping then round-trips | medium, not executed | Utils.MarkdownV2DropsBackslash | Utils.EscapeReserved |
