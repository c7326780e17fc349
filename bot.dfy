/** The dispatcher's state: each user's conversation history, the rate
    limiter's request log and the usage counters, and what the message,
    photo, image-generation and clear handlers do to them. Each handler runs
    as one step. What the collaborators return (the SDK's outcome, a failed
    Telegram call) comes in as parameters. */
module Bot {
  import opened Common
  import BotConfig
  import Utils
  import GeminiHandler
  import AdminControls

  // ---------------------------------------------------------------------
  // Conversation histories
  // ---------------------------------------------------------------------

  datatype Role = User | Assistant

  /** One history entry: `{'role': ..., 'content': ..., 'timestamp': ...}`. */
  datatype Turn = Turn(role: Role, content: string, timestamp: int)

  /** How many entries survive the cut after a user turn. */
  const HistoryWindow: nat := 20

  /** The longest a stored history gets: the cut, then the assistant turn. */
  const MaxHistory: nat := HistoryWindow + 1

  function Other(r: Role): Role
  {
    if r == User then Assistant else User
  }

  /** The role of the entry `distance` places before the end of a history
      whose last entry has role `last`: the roles alternate. */
  function RoleAt(last: Role, distance: nat): Role
  {
    if distance % 2 == 0 then last else Other(last)
  }

  /** Every entry of `h` has the role its distance from the end gives it. */
  predicate Alternates(h: seq<Turn>, last: Role)
  {
    forall i :: 0 <= i < |h| ==> h[i].role == RoleAt(last, |h| - 1 - i)
  }

  /** A stored history alternates between the two roles and, unless
      empty, ends with the assistant's turn. */
  predicate WellFormedHistory(h: seq<Turn>)
  {
    |h| <= MaxHistory && Alternates(h, Assistant)
  }

  /** Neighbouring entries of a well-formed history have different roles. */
  lemma WellFormedAlternates(h: seq<Turn>, i: nat)
    requires WellFormedHistory(h) && i + 1 < |h|
    ensures h[i].role != h[i + 1].role && h[|h| - 1].role == Assistant
  {
  }

  lemma RoleAtStep(last: Role, d: nat)
    ensures RoleAt(last, d + 1) == RoleAt(Other(last), d)
  {
  }

  /** Appending an entry of the other role keeps the alternation. */
  lemma AppendAlternates(h: seq<Turn>, last: Role, t: Turn)
    requires Alternates(h, last) && t.role == Other(last)
    ensures Alternates(h + [t], t.role)
  {
    var n := h + [t];
    forall i | 0 <= i < |n|
      ensures n[i].role == RoleAt(t.role, |n| - 1 - i)
    {
      if i < |h| {
        assert n[i] == h[i];
        RoleAtStep(t.role, |h| - 1 - i);
        assert Other(t.role) == last;
      }
    }
  }

  /** Every suffix of an alternating history alternates the same way. */
  lemma SuffixAlternates(h: seq<Turn>, last: Role, k: nat)
    requires Alternates(h, last) && k <= |h|
    ensures Alternates(h[k..], last)
  {
    var s := h[k..];
    forall i | 0 <= i < |s|
      ensures s[i].role == RoleAt(last, |s| - 1 - i)
    {
      assert s[i] == h[k + i];
    }
  }

  /** `user_contexts[user_id]` on the defaultdict: no entry reads as empty. */
  function History(contexts: map<UserId, seq<Turn>>, userId: UserId): seq<Turn>
  {
    if userId in contexts then contexts[userId] else []
  }

  /** `user_contexts[user_id][-20:]`. */
  function Trim(h: seq<Turn>): (r: seq<Turn>)
    ensures |r| == Min(HistoryWindow, |h|)
    ensures r == h[|h| - |r|..]
  {
    LastN(h, HistoryWindow)
  }

  /** The history a handled message leaves: the user turn appended, the last
      twenty kept, then the assistant turn appended. Its length is
      `min(prev + 1, 20) + 1`, and it ends with the two new turns. */
  function NextHistory(h: seq<Turn>, userTurn: Turn, assistantTurn: Turn): (n: seq<Turn>)
    ensures |n| == Min(|h| + 1, HistoryWindow) + 1
    ensures n[|n| - 1] == assistantTurn && n[|n| - 2] == userTurn
  {
    Trim(h + [userTurn]) + [assistantTurn]
  }

  /** Before the two new turns, the new history holds the most recent
      entries of the old one, in order. */
  lemma NextHistoryKeepsRecent(h: seq<Turn>, userTurn: Turn, assistantTurn: Turn)
    ensures var n := NextHistory(h, userTurn, assistantTurn);
            n[..|n| - 2] == h[|h| + 1 - Min(|h| + 1, HistoryWindow)..]
  {
    var t := h + [userTurn];
    var kept := Trim(t);
    assert kept == t[|t| - |kept|..];
    assert kept[..|kept| - 1] == h[|h| + 1 - |kept|..];
    assert (kept + [assistantTurn])[..|kept| - 1] == kept[..|kept| - 1];
  }

  /** A full history stays at 21 entries: the cut does not bound a stored
      history by 20. */
  lemma FullHistoryHasTwentyOne(h: seq<Turn>, userTurn: Turn, assistantTurn: Turn)
    requires |h| >= HistoryWindow
    ensures |NextHistory(h, userTurn, assistantTurn)| == MaxHistory
  {
  }

  /** Handling a message keeps a history well formed. */
  lemma NextHistoryWellFormed(h: seq<Turn>, userTurn: Turn, assistantTurn: Turn)
    requires WellFormedHistory(h)
    requires userTurn.role == User && assistantTurn.role == Assistant
    ensures WellFormedHistory(NextHistory(h, userTurn, assistantTurn))
  {
    var t := h + [userTurn];
    AppendAlternates(h, Assistant, userTurn);
    var kept := Trim(t);
    SuffixAlternates(t, User, |t| - |kept|);
    AppendAlternates(kept, User, assistantTurn);
  }

  /** The contents of the multi-turn request: every stored turn as a
      message with its role and its content. */
  function TurnMessages(h: seq<Turn>): (r: seq<GeminiHandler.Message>)
    ensures |r| == |h|
    ensures forall i :: 0 <= i < |h| ==>
              && r[i].content == Some(h[i].content)
              && (r[i].role == Some("user") <==> h[i].role == User)
  {
    seq(|h|, i requires 0 <= i < |h| =>
      GeminiHandler.Message(Some(if h[i].role == User then "user" else "assistant"), Some(h[i].content)))
  }

  /** The call `handle_message` makes for the trimmed history `trimmed`:
      `chat_with_context` on its turns when it has more than one entry,
      `generate_response` on the message text alone otherwise. */
  predicate RequestFor(trimmed: seq<Turn>, text: string, request: Option<AiRequest>)
  {
    && request.Some?
    && (request.value.MultiTurn? <==> |trimmed| > 1)
    && (request.value.MultiTurn? ==>
          GeminiHandler.ContentsFor(TurnMessages(trimmed), request.value.contents))
    && (request.value.SinglePrompt? ==> request.value.prompt == text)
  }

  /** The trimmed history has more than one entry exactly when the user
      already had an entry before this message, so the multi-turn call is
      made for every message but the first since the history was empty. */
  lemma MultiTurnIffEarlierHistory(h: seq<Turn>, userTurn: Turn)
    ensures |Trim(h + [userTurn])| > 1 <==> h != []
  {
  }

  // ---------------------------------------------------------------------
  // Counters and replies
  // ---------------------------------------------------------------------

  /** `self.stats` without `uptime_start`, which is `startTime`. */
  datatype Stats = Stats(messagesProcessed: nat, imagesAnalyzed: nat, imagesGenerated: nat, errors: nat)

  /** No counter has gone down from `s` to `t`. */
  predicate NoCounterDecreases(s: Stats, t: Stats)
  {
    s.messagesProcessed <= t.messagesProcessed && s.imagesAnalyzed <= t.imagesAnalyzed
    && s.imagesGenerated <= t.imagesGenerated && s.errors <= t.errors
  }

  function CountMessage(s: Stats): (t: Stats)
    ensures NoCounterDecreases(s, t)
  {
    s.(messagesProcessed := s.messagesProcessed + 1)
  }

  function CountAnalysis(s: Stats): (t: Stats)
    ensures NoCounterDecreases(s, t)
  {
    s.(imagesAnalyzed := s.imagesAnalyzed + 1)
  }

  function CountGenerated(s: Stats): (t: Stats)
    ensures NoCounterDecreases(s, t)
  {
    s.(imagesGenerated := s.imagesGenerated + 1)
  }

  function CountError(s: Stats): (t: Stats)
    ensures NoCounterDecreases(s, t)
  {
    s.(errors := s.errors + 1)
  }

  /** Which call `handle_message` makes: `chat_with_context` with the
      contents it builds, or `generate_response` with the prompt it sends. */
  datatype AiRequest = MultiTurn(contents: seq<GeminiHandler.ChatContent>) | SinglePrompt(prompt: string)

  const RateLimitedText: string := "⚠️ You're sending requests too quickly. Please wait a moment."
  const MessageErrorPrefix: string := "❌ Sorry, I encountered an error: "
  const ClearedText: string := "🗑️ Conversation context cleared! Starting fresh."
  const TooLargeText: string := "❌ Image is too large. Maximum size is 20MB."
  const AnalysisErrorPrefix: string := "❌ Error analyzing image: "
  const GenerateUsageText: string :=
    "Please provide a prompt for image generation.\n"
    + "Example: `/generate a beautiful sunset over mountains`"
  const GenerateFailedPrefix: string := "❌ Failed to generate image: "
  const GenerateErrorPrefix: string := "❌ Error generating image: "

  /** `handle_photo`'s prompt for `analyze_image`: built from the caption,
      or empty (so the built-in prompt is used) without one. */
  function CaptionPrompt(caption: string): (r: string)
    ensures r == "" <==> caption == ""
    ensures caption != "" ==>
              && |r| == |"User caption: "| + |caption| + |"\n\nPlease analyze this image."|
              && r[|"User caption: "|..|"User caption: "| + |caption|] == caption
  {
    if caption != "" then "User caption: " + caption + "\n\nPlease analyze this image." else ""
  }

  /** The text `handle_photo` formats: the analysis under its title, with
      the caption in front when there is one. */
  function AnalysisText(caption: string, analysis: string): (r: string)
    ensures |r| >= |analysis|
    ensures r[|r| - |analysis|..] == analysis
  {
    var body := "🔍 **Image Analysis**\n\n" + analysis;
    if caption != "" then "📝 **Your caption:** " + caption + "\n\n" + body else body
  }

  const GeneratedCaptionHead: string := "🎨 **Generated Image**\n\n**Prompt:** "

  /** The caption `generate_command` sends with a generated image: the
      prompt, as the user typed it, right after the heading, and the model's
      description closing it. */
  function GeneratedCaption(prompt: string, description: string): (r: string)
    ensures |r| == |GeneratedCaptionHead| + |prompt| + 2 + |description|
    ensures r[|GeneratedCaptionHead|..|GeneratedCaptionHead| + |prompt|] == prompt
    ensures r[|r| - |description|..] == description
  {
    var r := GeneratedCaptionHead + prompt + ("\n\n" + description);
    assert r[|GeneratedCaptionHead|..|GeneratedCaptionHead| + |prompt|] == prompt;
    assert r[|r| - |description|..] == description;
    r
  }

  /** `user_contexts`' keys in insertion order: reading an absent user's
      history on the defaultdict adds them at the end. */
  function Register(users: seq<UserId>, contexts: map<UserId, seq<Turn>>, userId: UserId): seq<UserId>
  {
    if userId in contexts then users else users + [userId]
  }

  predicate Distinct(users: seq<UserId>)
  {
    forall i, j :: 0 <= i < j < |users| ==> users[i] != users[j]
  }

  /** Keys listed once each, in insertion order, are as many as the keys. */
  lemma {:induction false} DistinctCount(users: seq<UserId>)
    requires Distinct(users)
    ensures |set u | u in users| == |users|
  {
    if users != [] {
      var init, last := users[..|users| - 1], users[|users| - 1];
      assert Distinct(init);
      DistinctCount(init);
      assert last !in init;
      assert (set u | u in users) == (set u | u in init) + {last};
    }
  }

  /** `user_contexts.items()` in dictionary order, with history lengths. */
  function Entries(users: seq<UserId>, contexts: map<UserId, seq<Turn>>): (r: seq<AdminControls.UserCount>)
    requires forall i :: 0 <= i < |users| ==> users[i] in contexts
    ensures |r| == |users|
    ensures forall i :: 0 <= i < |r| ==> r[i].userId == users[i] && r[i].messages == |contexts[users[i]]|
  {
    seq(|users|, i requires 0 <= i < |users| => AdminControls.UserCount(users[i], |contexts[users[i]]|))
  }

  /** `len(user_contexts)`: listing each user with a history once, the
      entries are as many as the dictionary's keys. */
  lemma ActiveUsersAreTheKeys(users: seq<UserId>, contexts: map<UserId, seq<Turn>>)
    requires Distinct(users)
    requires forall u :: u in contexts ==> u in users
    requires forall i :: 0 <= i < |users| ==> users[i] in contexts
    ensures |Entries(users, contexts)| == |contexts.Keys|
  {
    assert forall u :: u in contexts.Keys <==> u in users;
    assert contexts.Keys == set u | u in users;
    DistinctCount(users);
  }

  /** What `/stats` reports to the admin besides the counters. */
  datatype StatsView = StatsView(stats: Stats, startTime: int, activeUsers: nat, totalConversations: nat)

  // ---------------------------------------------------------------------
  // The bot
  // ---------------------------------------------------------------------

  class TelegramBot {
    const config: BotConfig.Config
    const startTime: int
    /** `user_requests`, passed by reference to the rate limiter. */
    const userRequests: Utils.RequestTable
    /** `user_contexts`. */
    var userContexts: map<UserId, seq<Turn>>
    /** The keys of `user_contexts` in insertion order. */
    var users: seq<UserId>
    var stats: Stats

    ghost predicate Valid()
      reads this, userRequests
    {
      && (forall u :: u in userContexts ==> WellFormedHistory(userContexts[u]))
      && Distinct(users)
      && (forall u :: u in userContexts ==> u in users)
      && (forall i :: 0 <= i < |users| ==> users[i] in userContexts)
      && config.rateLimitMessages >= 0
      && userRequests.Bounded(config.rateLimitMessages)
    }

    /** The limit is the configuration's constant 10; a negative one would
        leave no log within it. */
    constructor (config: BotConfig.Config, startTime: int)
      requires config.rateLimitMessages >= 0
      ensures Valid()
      ensures this.config == config && this.startTime == startTime
      ensures userContexts == map[] && users == [] && userRequests.times == map[]
      ensures stats == Stats(0, 0, 0, 0)
      ensures fresh(userRequests)
    {
      this.config := config;
      this.startTime := startTime;
      userRequests := new Utils.RequestTable();
      userContexts := map[];
      users := [];
      stats := Stats(0, 0, 0, 0);
    }

    /** The request log after one check by `userId` at `now`, as the
        limiter's specification gives it, and its verdict. */
    ghost function Verdict(userId: UserId, now: int, times: map<UserId, seq<int>>): Utils.Verdict
    {
      Utils.Admit(Utils.LogOf(times, userId), now, config.rateLimitWindow, config.rateLimitMessages)
    }

    /** Runs the limiter and keeps its bound on every log. */
    method CheckRate(userId: UserId, now: int) returns (allowed: bool)
      requires Valid()
      modifies userRequests
      ensures Valid()
      ensures var v := Verdict(userId, now, old(userRequests.times));
              allowed == v.allowed && userRequests.times == old(userRequests.times)[userId := v.log]
    {
      var log := Utils.LogOf(userRequests.times, userId);
      assert |log| <= config.rateLimitMessages;
      allowed := Utils.RateLimitCheck(userId, userRequests, config, now);
      assert forall u :: u in userRequests.times ==> |userRequests.times[u]| <= config.rateLimitMessages by {
        forall u | u in userRequests.times
          ensures |userRequests.times[u]| <= config.rateLimitMessages
        {
          if u != userId {
            assert u in old(userRequests.times);
          }
        }
      }
    }

    /** Sets a user's history to a well-formed one; a user seen for the
        first time joins the key order at the end, as the defaultdict adds
        them on first access. */
    method Record(userId: UserId, h: seq<Turn>)
      requires Valid() && WellFormedHistory(h)
      modifies this
      ensures Valid()
      ensures userContexts == old(userContexts)[userId := h]
      ensures users == Register(old(users), old(userContexts), userId)
      ensures stats == old(stats)
    {
      if userId !in userContexts {
        users := users + [userId];
      }
      userContexts := userContexts[userId := h];
    }

    /** `clear_command`: the user's history becomes empty and every other
        user's history is untouched. */
    method ClearCommand(userId: UserId) returns (reply: string)
      requires Valid()
      modifies this
      ensures Valid()
      ensures userContexts == old(userContexts)[userId := []]
      ensures users == Register(old(users), old(userContexts), userId)
      ensures stats == old(stats)
      ensures reply == ClearedText
    {
      Record(userId, []);
      reply := ClearedText;
    }

    /** `handle_message`. A rejected request changes nothing but the
        limiter's log. Otherwise the user turn is appended and the history
        cut to its last twenty entries; the multi-turn call is made when
        more than one entry remains, a single prompt otherwise; the
        assistant's reply is appended after the cut. `sdk` is what the SDK
        call did, `replyFailure` the exception sending the reply raised:
        a sent reply counts the message, a failed one counts an error. */
    method HandleMessage(userId: UserId, text: string, now: int,
                         sdk: GeminiHandler.SdkOutcome<Option<string>>, replyFailure: Option<string>)
      returns (request: Option<AiRequest>, reply: string)
      requires Valid()
      modifies this, userRequests
      ensures Valid()
      ensures var v := Verdict(userId, now, old(userRequests.times));
              userRequests.times == old(userRequests.times)[userId := v.log]
              && (!v.allowed ==>
                    && request.None? && reply == RateLimitedText
                    && userContexts == old(userContexts) && users == old(users) && stats == old(stats))
              && (v.allowed ==>
                    var trimmed := Trim(History(old(userContexts), userId) + [Turn(User, text, now)]);
                    var answer := GeminiHandler.ResponseReply(sdk);
                    && RequestFor(trimmed, text, request)
                    && userContexts == old(userContexts)[userId := NextHistory(History(old(userContexts), userId),
                                                                               Turn(User, text, now), Turn(Assistant, answer, now))]
                    && users == Register(old(users), old(userContexts), userId)
                    && (replyFailure.None? ==>
                          reply == Utils.FormatMessage(answer, config.maxMessageLength)
                          && stats == CountMessage(old(stats)))
                    && (replyFailure.Some? ==>
                          reply == MessageErrorPrefix + replyFailure.value && stats == CountError(old(stats))))
    {
      var allowed := CheckRate(userId, now);
      if !allowed {
        return None, RateLimitedText;
      }
      var answer;
      request, answer := Converse(userId, text, now, sdk);
      reply := SendAnswer(answer, replyFailure);
    }

    /** The end of `handle_message`'s `try`: the formatted answer is sent and
        the message counted, or sending raised and an error is counted. */
    method SendAnswer(answer: string, replyFailure: Option<string>) returns (reply: string)
      requires Valid()
      modifies this
      ensures Valid()
      ensures userContexts == old(userContexts) && users == old(users)
      ensures replyFailure.None? ==>
                reply == Utils.FormatMessage(answer, config.maxMessageLength)
                && stats == CountMessage(old(stats))
      ensures replyFailure.Some? ==>
                reply == MessageErrorPrefix + replyFailure.value && stats == CountError(old(stats))
    {
      if replyFailure.None? {
        reply := Utils.FormatMessage(answer, config.maxMessageLength);
        stats := CountMessage(stats);
      } else {
        reply := MessageErrorPrefix + replyFailure.value;
        stats := CountError(stats);
      }
    }

    /** The part of `handle_message` after the limiter has let the message
        through, up to the reply: the two turns recorded and the call made. */
    method Converse(userId: UserId, text: string, now: int, sdk: GeminiHandler.SdkOutcome<Option<string>>)
      returns (request: Option<AiRequest>, answer: string)
      requires Valid()
      modifies this
      ensures Valid()
      ensures answer == GeminiHandler.ResponseReply(sdk)
      ensures var trimmed := Trim(History(old(userContexts), userId) + [Turn(User, text, now)]);
              RequestFor(trimmed, text, request)
      ensures userContexts == old(userContexts)[userId := NextHistory(History(old(userContexts), userId),
                                                                       Turn(User, text, now), Turn(Assistant, answer, now))]
      ensures users == Register(old(users), old(userContexts), userId)
      ensures stats == old(stats)
    {
      var h := History(userContexts, userId);
      var userTurn := Turn(User, text, now);
      var trimmed := Trim(h + [userTurn]);
      request := MakeRequest(trimmed, text);
      answer := GeminiHandler.ResponseReply(sdk);
      var assistantTurn := Turn(Assistant, answer, now);
      var next := NextHistory(h, userTurn, assistantTurn);
      NextHistoryWellFormed(h, userTurn, assistantTurn);
      Record(userId, next);
    }

    /** `chat_with_context` on a history with more than one entry,
        `generate_response` on the message alone otherwise. */
    static method MakeRequest(trimmed: seq<Turn>, text: string) returns (request: Option<AiRequest>)
      ensures RequestFor(trimmed, text, request)
    {
      if |trimmed| > 1 {
        var contents := GeminiHandler.BuildContents(TurnMessages(trimmed));
        request := Some(MultiTurn(contents));
      } else {
        request := Some(SinglePrompt(GeminiHandler.FullPrompt(text, "")));
      }
    }

    /** `handle_photo`. A rejected request changes nothing but the
        limiter's log. A photo over the size limit is refused without a
        counter change. Otherwise the image is analysed with the caption's
        prompt and the analysis sent back, which counts an analysis.
        `editFailure` is the exception the Telegram call ending the branch
        raised: it counts an error instead. Histories never change. */
    method HandlePhoto(userId: UserId, now: int, fileSize: int, caption: Option<string>,
                       sdk: GeminiHandler.SdkOutcome<Option<string>>, editFailure: Option<string>)
      returns (prompt: Option<string>, reply: string)
      requires Valid()
      modifies this, userRequests
      ensures Valid()
      ensures userContexts == old(userContexts) && users == old(users)
      ensures var v := Verdict(userId, now, old(userRequests.times));
              userRequests.times == old(userRequests.times)[userId := v.log]
              && (!v.allowed ==> prompt.None? && reply == RateLimitedText && stats == old(stats))
              && (v.allowed && fileSize > config.maxImageSize ==>
                    && prompt.None?
                    && (editFailure.None? ==> reply == TooLargeText && stats == old(stats))
                    && (editFailure.Some? ==> reply == AnalysisErrorPrefix + editFailure.value
                                              && stats == CountError(old(stats))))
              && (v.allowed && fileSize <= config.maxImageSize ==>
                    var captionText := if caption.Some? then caption.value else "";
                    && prompt == Some(CaptionPrompt(captionText))
                    && (editFailure.None? ==>
                          reply == Utils.FormatMessage(
                                     AnalysisText(captionText, GeminiHandler.AnalysisReply(sdk)),
                                     config.maxMessageLength)
                          && stats == CountAnalysis(old(stats)))
                    && (editFailure.Some? ==> reply == AnalysisErrorPrefix + editFailure.value
                                              && stats == CountError(old(stats))))
    {
      var allowed := CheckRate(userId, now);
      if !allowed {
        return None, RateLimitedText;
      }
      if fileSize > config.maxImageSize {
        prompt := None;
        if editFailure.None? {
          reply := TooLargeText;
        } else {
          reply := AnalysisErrorPrefix + editFailure.value;
          stats := CountError(stats);
        }
        return;
      }
      var captionText := if caption.Some? then caption.value else "";
      prompt := Some(CaptionPrompt(captionText));
      var analysis := GeminiHandler.AnalysisReply(sdk);
      reply := ReportAnalysis(AnalysisText(captionText, analysis), editFailure);
    }

    /** The end of `handle_photo`'s `try`: the progress message is edited to
        the formatted analysis and an analysis counted, or the edit raised
        and an error is counted. */
    method ReportAnalysis(analysisText: string, editFailure: Option<string>) returns (reply: string)
      requires Valid()
      modifies this
      ensures Valid()
      ensures userContexts == old(userContexts) && users == old(users)
      ensures editFailure.None? ==>
                reply == Utils.FormatMessage(analysisText, config.maxMessageLength)
                && stats == CountAnalysis(old(stats))
      ensures editFailure.Some? ==>
                reply == AnalysisErrorPrefix + editFailure.value && stats == CountError(old(stats))
    {
      if editFailure.None? {
        reply := Utils.FormatMessage(analysisText, config.maxMessageLength);
        stats := CountAnalysis(stats);
      } else {
        reply := AnalysisErrorPrefix + editFailure.value;
        stats := CountError(stats);
      }
    }

    /** `generate_command`. A rejected request changes nothing but the
        limiter's log, and neither does an empty prompt. A generated image
        is sent with its caption and counts an image; no image counts an
        error. `sendFailure` and `deleteFailure` are the exceptions sending
        the photo and deleting the progress message raised: a failed send
        counts an error and no image, a failed delete an error on top of
        the image. `photoCaption` is the caption of the photo, when one was sent;
        `reply` is what the user is left reading: the caption, or the text
        the progress message is edited to, which after a failed delete is
        the error. Histories never change. */
    method GenerateCommand(userId: UserId, now: int, args: seq<string>,
                           sdk: GeminiHandler.SdkOutcome<GeminiHandler.ImageResponse>,
                           sendFailure: Option<string>, deleteFailure: Option<string>)
      returns (prompt: Option<string>, photoCaption: Option<string>, reply: string)
      requires Valid()
      modifies this, userRequests
      ensures Valid()
      ensures userContexts == old(userContexts) && users == old(users)
      ensures NoCounterDecreases(old(stats), stats)
      ensures var v := Verdict(userId, now, old(userRequests.times));
              userRequests.times == old(userRequests.times)[userId := v.log]
              && (!v.allowed ==> prompt.None? && reply == RateLimitedText && stats == old(stats))
              && (v.allowed && Join(" ", args) == "" ==>
                    prompt.None? && reply == GenerateUsageText && stats == old(stats))
              && (v.allowed && Join(" ", args) != "" ==>
                    var parts := GeminiHandler.FirstParts(sdk);
                    var generated := parts.Some? && GeminiHandler.LastImage(parts.value).Some?;
                    && prompt == Some(GeminiHandler.ImagePrompt(Join(" ", args)))
                    && (generated && sendFailure.None? ==>
                          && photoCaption == Some(GeneratedCaption(Join(" ", args),
                                                       if GeminiHandler.Description(parts.value) != "" then
                                                         GeminiHandler.Description(parts.value)
                                                       else GeminiHandler.ImageGenerated))
                          && reply == (if deleteFailure.Some? then GenerateErrorPrefix + deleteFailure.value
                                       else photoCaption.value)
                          && stats == if deleteFailure.Some? then CountError(CountGenerated(old(stats)))
                                      else CountGenerated(old(stats)))
                    && (generated && sendFailure.Some? ==>
                          && photoCaption.None? && reply == GenerateErrorPrefix + sendFailure.value
                          && stats == CountError(old(stats)))
                    && (!generated ==>
                          && photoCaption.None? && stats == CountError(old(stats))
                          && |GenerateFailedPrefix| <= |reply|
                          && reply[..|GenerateFailedPrefix|] == GenerateFailedPrefix
                          && (sdk.Raised? ==>
                                reply == GenerateFailedPrefix + "Error generating image: " + sdk.error)))
    {
      var allowed := CheckRate(userId, now);
      if !allowed {
        return None, None, RateLimitedText;
      }
      var text := Join(" ", args);
      if text == "" {
        return None, None, GenerateUsageText;
      }
      prompt := Some(GeminiHandler.ImagePrompt(text));
      var image, description := GeminiHandler.GenerateImage(sdk);
      photoCaption, reply := ReportImage(text, image, description, sendFailure, deleteFailure);
    }

    /** The end of `generate_command`'s `try`, given what `generate_image`
        returned: an image is sent with its caption and counted, then the
        progress message deleted; without an image the progress message
        shows the failure and an error is counted. A failed send counts an
        error instead of the image; a failed delete counts an error after it
        and leaves the progress message showing the error. */
    method ReportImage(text: string, image: Option<GeminiHandler.Bytes>, description: string,
                       sendFailure: Option<string>, deleteFailure: Option<string>)
      returns (photoCaption: Option<string>, reply: string)
      requires Valid()
      modifies this
      ensures Valid()
      ensures userContexts == old(userContexts) && users == old(users)
      ensures image.Some? && sendFailure.None? ==>
                && photoCaption == Some(GeneratedCaption(text, description))
                && reply == (if deleteFailure.Some? then GenerateErrorPrefix + deleteFailure.value
                             else photoCaption.value)
                && stats == if deleteFailure.Some? then CountError(CountGenerated(old(stats)))
                            else CountGenerated(old(stats))
      ensures image.Some? && sendFailure.Some? ==>
                photoCaption.None? && reply == GenerateErrorPrefix + sendFailure.value
                && stats == CountError(old(stats))
      ensures image.None? ==>
                photoCaption.None? && reply == GenerateFailedPrefix + description
                && stats == CountError(old(stats))
    {
      photoCaption := None;
      if image.None? {
        reply := GenerateFailedPrefix + description;
        stats := CountError(stats);
        return;
      }
      if sendFailure.Some? {
        reply := GenerateErrorPrefix + sendFailure.value;
        stats := CountError(stats);
        return;
      }
      photoCaption := Some(GeneratedCaption(text, description));
      stats := CountGenerated(stats);
      reply := photoCaption.value;
      if deleteFailure.Some? {
        reply := GenerateErrorPrefix + deleteFailure.value;
        stats := CountError(stats);
      }
    }

    /** `stats_command`: the admin sees the counters, the number of users
        with a history entry and the total of their histories' lengths;
        anyone else is refused. Nothing changes. */
    method StatsCommand(userId: UserId) returns (view: Option<StatsView>)
      requires Valid()
      ensures view.Some? <==> Utils.IsAdmin(userId, config.adminId)
      ensures view.Some? ==>
                && view.value.stats == stats && view.value.startTime == startTime
                && view.value.activeUsers == |userContexts.Keys|
                && view.value.totalConversations == AdminControls.TotalConversations(Entries(users, userContexts))
                && view.value.totalConversations <= MaxHistory * view.value.activeUsers
    {
      if userId != config.adminId {
        return None;
      }
      var entries := Entries(users, userContexts);
      ActiveUsersAreTheKeys(users, userContexts);
      AdminControls.TotalConversationsBound(entries, MaxHistory);
      view := Some(StatsView(stats, startTime, |entries|, AdminControls.TotalConversations(entries)));
    }
  }
}
