/** The admin panel: the guarded dispatch on a callback's data, the ranking
    of users by history length, and the aggregate counts of the detailed
    statistics. Telegram edits are modelled as the outcome they would
    produce, not performed. */
module AdminControls {
  import opened Common
  import Utils

  // ---------------------------------------------------------------------
  // Callback tags and views
  // ---------------------------------------------------------------------

  /** The callback data the panel's buttons carry. */
  datatype Tag = Back | Stats | Users | System | Settings | Restart | ClearLogs | Close

  function TagData(t: Tag): string
  {
    match t
    case Back => "admin_back"
    case Stats => "admin_stats"
    case Users => "admin_users"
    case System => "admin_system"
    case Settings => "admin_settings"
    case Restart => "admin_restart"
    case ClearLogs => "admin_clear_logs"
    case Close => "admin_close"
  }

  /** The `if data == ... elif ...` chain: which branch a callback's data
      selects, or none. */
  function ParseTag(data: string): (r: Option<Tag>)
    ensures r.Some? ==> TagData(r.value) == data
  {
    if data == "admin_back" then Some(Back)
    else if data == "admin_stats" then Some(Stats)
    else if data == "admin_users" then Some(Users)
    else if data == "admin_system" then Some(System)
    else if data == "admin_settings" then Some(Settings)
    else if data == "admin_restart" then Some(Restart)
    else if data == "admin_clear_logs" then Some(ClearLogs)
    else if data == "admin_close" then Some(Close)
    else None
  }

  /** Every tag's data selects that tag's branch, and no other data selects
      a branch sending that tag's data. */
  lemma ParseTagData(t: Tag)
    ensures ParseTag(TagData(t)) == Some(t)
  {
  }

  /** Distinct tags carry distinct data. */
  lemma TagDataInjective(t: Tag, u: Tag)
    requires TagData(t) == TagData(u)
    ensures t == u
  {
    ParseTagData(t);
    ParseTagData(u);
  }

  /** The screens the panel re-renders through its `show_*` methods. */
  datatype View = AdminPanel | SystemInfo | SettingsView

  const AccessDeniedText: string := "❌ Access denied. Admin only."
  const StatsText: string := "📊 Use /stats command for detailed statistics."
  const UsersText: string := "👥 User information feature requires bot context."
  const RestartText: string :=
    "🔄 **Restart Bot**\n\n"
    + "⚠️ Bot restart functionality requires manual intervention.\n"
    + "Please restart the bot process manually."
  const ClearLogsText: string :=
    "🗑️ **Clear Logs**\n\n"
    + "⚠️ Log clearing requires manual file system access.\n"
    + "Please clear log files manually if needed."
  const ClosedText: string := "🔧 Admin panel closed."

  /** What one callback does to the panel message. */
  datatype Outcome =
    | AccessDenied
    | Render(view: View)
    | EditText(text: string)
    | NoEdit

  /** The edit a tag's branch makes, when that edit succeeds. */
  function Dispatch(t: Tag): (o: Outcome)
    ensures o != NoEdit && o != AccessDenied
  {
    match t
    case Back => Render(AdminPanel)
    case Stats => EditText(StatsText)
    case Users => EditText(UsersText)
    case System => Render(SystemInfo)
    case Settings => Render(SettingsView)
    case Restart => EditText(RestartText)
    case ClearLogs => EditText(ClearLogsText)
    case Close => EditText(ClosedText)
  }

  /** `handle_callback`. A caller who is not the admin gets the access-denied
      edit whatever the data says. The admin's data selects a branch; data
      no branch recognises makes no edit. `editFailure` is the exception
      the branch's Telegram edit raised, if any: it is caught and reported
      in a further edit. */
  function HandleCallback(userId: UserId, adminId: int, data: string, editFailure: Option<string>): (o: Outcome)
    ensures o == AccessDenied <==> !Utils.IsAdmin(userId, adminId)
    ensures o == NoEdit <==> Utils.IsAdmin(userId, adminId) && ParseTag(data).None?
    ensures Utils.IsAdmin(userId, adminId) && ParseTag(data).Some? ==>
              o == if editFailure.Some? then EditText("❌ Error: " + editFailure.value)
                   else Dispatch(ParseTag(data).value)
  {
    if userId != adminId then AccessDenied
    else
      match ParseTag(data)
      case None => NoEdit
      case Some(t) =>
        if editFailure.Some? then EditText("❌ Error: " + editFailure.value) else Dispatch(t)
  }

  /** The guard never looks at the data: two callbacks from the same
      non-admin end the same way. */
  lemma GuardIgnoresData(userId: UserId, adminId: int, d1: string, d2: string, f1: Option<string>, f2: Option<string>)
    requires userId != adminId
    ensures HandleCallback(userId, adminId, d1, f1) == HandleCallback(userId, adminId, d2, f2) == AccessDenied
  {
  }

  /** A button of an inline keyboard: its caption and its callback data. */
  datatype Button = Button(caption: string, data: string)

  /** The main panel's keyboard (`show_admin_panel`). */
  const PanelKeyboard: seq<seq<Button>> := [
    [Button("📊 Detailed Stats", "admin_stats"), Button("👥 User Info", "admin_users")],
    [Button("🔄 Restart Bot", "admin_restart"), Button("🗑️ Clear Logs", "admin_clear_logs")],
    [Button("⚙️ Bot Settings", "admin_settings"), Button("📋 System Info", "admin_system")],
    [Button("❌ Close", "admin_close")]
  ]

  /** The one button under every sub-view. */
  const BackButton: Button := Button("🔙 Back to Admin Panel", "admin_back")

  /** Every button the panel shows leads somewhere: for the admin, pressing
      it makes an edit. */
  lemma PanelButtonsAreHandled(adminId: int)
    ensures forall row, b :: row in PanelKeyboard && b in row ==>
              ParseTag(b.data).Some? && HandleCallback(adminId, adminId, b.data, None) != NoEdit
    ensures HandleCallback(adminId, adminId, BackButton.data, None) == Render(AdminPanel)
  {
    forall row, b | row in PanelKeyboard && b in row
      ensures ParseTag(b.data).Some?
    {
      assert row == PanelKeyboard[0] || row == PanelKeyboard[1] || row == PanelKeyboard[2] || row == PanelKeyboard[3];
    }
  }

  // ---------------------------------------------------------------------
  // show_user_info
  // ---------------------------------------------------------------------

  /** One item of `user_contexts.items()`: a user and the length of their
      history. */
  datatype UserCount = UserCount(userId: UserId, messages: nat)

  predicate SortedByCount(s: seq<UserCount>)
  {
    forall i, j :: 0 <= i < j < |s| ==> s[i].messages >= s[j].messages
  }

  /** Places `x` after every entry of `sorted` with at least as many
      messages and before those with fewer. */
  function Insert(sorted: seq<UserCount>, x: UserCount): (r: seq<UserCount>)
    ensures |r| == |sorted| + 1
    ensures multiset(r) == multiset(sorted) + multiset{x}
  {
    if sorted == [] then [x]
    else
      var init, last := sorted[..|sorted| - 1], sorted[|sorted| - 1];
      assert sorted == init + [last];
      if last.messages >= x.messages then sorted + [x]
      else Insert(init, x) + [last]
  }

  /** Every entry of an insertion is one of its inputs, so a lower bound
      on the inputs' counts holds for the result. */
  lemma {:induction false} InsertBound(sorted: seq<UserCount>, x: UserCount, b: nat)
    requires forall i :: 0 <= i < |sorted| ==> sorted[i].messages >= b
    requires x.messages >= b
    ensures forall i :: 0 <= i < |Insert(sorted, x)| ==> Insert(sorted, x)[i].messages >= b
    decreases |sorted|
  {
    if sorted != [] {
      var init, last := sorted[..|sorted| - 1], sorted[|sorted| - 1];
      if last.messages < x.messages {
        InsertBound(init, x, b);
      }
    }
  }

  lemma {:induction false} InsertSorted(sorted: seq<UserCount>, x: UserCount)
    requires SortedByCount(sorted)
    ensures SortedByCount(Insert(sorted, x))
    decreases |sorted|
  {
    if sorted != [] {
      var init, last := sorted[..|sorted| - 1], sorted[|sorted| - 1];
      if last.messages < x.messages {
        InsertSorted(init, x);
        InsertBound(init, x, last.messages);
      }
    }
  }

  /** `sorted(items, key=len, reverse=True)`: descending by history length;
      users with equal lengths keep their dictionary order. */
  function SortByCount(s: seq<UserCount>): (r: seq<UserCount>)
    ensures |r| == |s|
    ensures multiset(r) == multiset(s)
  {
    if s == [] then []
    else
      var init := s[..|s| - 1];
      assert s == init + [s[|s| - 1]];
      Insert(SortByCount(init), s[|s| - 1])
  }

  lemma {:induction false} SortByCountSorted(s: seq<UserCount>)
    ensures SortedByCount(SortByCount(s))
  {
    if s != [] {
      SortByCountSorted(s[..|s| - 1]);
      InsertSorted(SortByCount(s[..|s| - 1]), s[|s| - 1]);
    }
  }

  /** The entries of `s` with exactly `n` messages, in order. */
  function WithCount(s: seq<UserCount>, n: nat): seq<UserCount>
  {
    if s == [] then []
    else WithCount(s[..|s| - 1], n) + (if s[|s| - 1].messages == n then [s[|s| - 1]] else [])
  }

  lemma {:induction false} WithCountAppend(a: seq<UserCount>, b: seq<UserCount>, n: nat)
    ensures WithCount(a + b, n) == WithCount(a, n) + WithCount(b, n)
    decreases |b|
  {
    if b == [] {
      assert a + b == a;
    } else {
      assert (a + b)[..|a + b| - 1] == a + b[..|b| - 1];
      WithCountAppend(a, b[..|b| - 1], n);
    }
  }

  lemma {:induction false} WithCountNone(s: seq<UserCount>, n: nat)
    requires forall i :: 0 <= i < |s| ==> s[i].messages != n
    ensures WithCount(s, n) == []
  {
    if s != [] {
      WithCountNone(s[..|s| - 1], n);
    }
  }

  lemma WithCountSingle(x: UserCount, n: nat)
    ensures WithCount([x], n) == if x.messages == n then [x] else []
  {
    assert [x][..0] == [];
  }

  /** Inserting `x` into a sorted list puts it after every earlier entry
      with the same count. */
  lemma {:induction false} InsertStable(sorted: seq<UserCount>, x: UserCount, n: nat)
    ensures WithCount(Insert(sorted, x), n) == WithCount(sorted, n) + (if x.messages == n then [x] else [])
    decreases |sorted|
  {
    if sorted == [] {
      WithCountSingle(x, n);
      assert Insert(sorted, x) == [x];
      assert WithCount(sorted, n) == [];
    } else {
      var init, last := sorted[..|sorted| - 1], sorted[|sorted| - 1];
      assert sorted == init + [last];
      if last.messages >= x.messages {
        InsertStableAtEnd(init, last, x, n);
      } else {
        InsertStable(init, x, n);
        InsertStablePast(init, last, x, n);
      }
    }
  }

  /** The step of `InsertStable` where `x` goes at the end. */
  lemma InsertStableAtEnd(init: seq<UserCount>, last: UserCount, x: UserCount, n: nat)
    requires last.messages >= x.messages
    ensures WithCount(Insert(init + [last], x), n)
              == WithCount(init + [last], n) + (if x.messages == n then [x] else [])
  {
    var sorted := init + [last];
    assert sorted[..|sorted| - 1] == init;
    assert Insert(sorted, x) == sorted + [x];
    WithCountAppend(sorted, [x], n);
    WithCountSingle(x, n);
  }

  /** The step of `InsertStable` where `x` moves in front of `last`: `last`
      has fewer messages, so at most one of the two has count `n`. */
  lemma InsertStablePast(init: seq<UserCount>, last: UserCount, x: UserCount, n: nat)
    requires last.messages < x.messages
    requires WithCount(Insert(init, x), n) == WithCount(init, n) + (if x.messages == n then [x] else [])
    ensures WithCount(Insert(init + [last], x), n)
              == WithCount(init + [last], n) + (if x.messages == n then [x] else [])
  {
    var sorted := init + [last];
    var xs := if x.messages == n then [x] else [];
    var before, inserted, lastOnly := WithCount(init, n), WithCount(Insert(init, x), n), WithCount([last], n);
    assert sorted[..|sorted| - 1] == init;
    assert Insert(sorted, x) == Insert(init, x) + [last];
    WithCountAppend(Insert(init, x), [last], n);
    WithCountAppend(init, [last], n);
    WithCountSingle(last, n);
    if x.messages == n {
      assert lastOnly == [];
      assert inserted + lastOnly == inserted;
      assert before + lastOnly == before;
    } else {
      assert xs == [];
      assert inserted == before;
    }
  }

  /** The sort is stable: for every length, the users with that length
      appear in the same relative order as in the dictionary. */
  lemma {:induction false} SortByCountStable(s: seq<UserCount>, n: nat)
    ensures WithCount(SortByCount(s), n) == WithCount(s, n)
  {
    if s != [] {
      var init, last := s[..|s| - 1], s[|s| - 1];
      SortByCountStable(init, n);
      InsertStable(SortByCount(init), last, n);
    }
  }

  const TopUsers: nat := 10

  /** The users `show_user_info` lists: the first ten after sorting. */
  function Top(s: seq<UserCount>): (r: seq<UserCount>)
    ensures |r| == Min(TopUsers, |s|)
  {
    SortByCount(s)[..Min(TopUsers, |s|)]
  }

  /** The listed users are the most active ones: none left out has a longer
      history than any listed, and the list itself is in descending order. */
  lemma TopAreMostActive(s: seq<UserCount>)
    ensures SortedByCount(Top(s))
    ensures forall i, j :: 0 <= i < |Top(s)| <= j < |s| ==> Top(s)[i].messages >= SortByCount(s)[j].messages
    ensures forall x :: x in Top(s) ==> x in s
  {
    SortByCountSorted(s);
    var r := SortByCount(s);
    forall x | x in Top(s)
      ensures x in s
    {
      assert x in r;
      assert x in multiset(r);
    }
  }

  /** A line of the list: `{i}. User ID: `{id}` - {n} messages`, numbered
      from 1. The rank reads back from the start of the line, and the line
      ends it. */
  function RankRow(rank: nat, u: UserCount): (r: string)
    ensures |IntToString(rank)| < |r| && ParseInt(r[..|IntToString(rank)|]) == Some(rank)
    ensures r[|r| - 1] == '\n'
  {
    var k := IntToString(rank);
    var rest := ". User ID: `" + IntToString(u.userId) + "` - " + IntToString(u.messages) + " messages\n";
    ParseIntOfIntToString(rank);
    assert (k + rest)[..|k|] == k;
    k + rest
  }

  /** The rows for `s`, its i-th entry ranked i + 1. */
  function RankRows(s: seq<UserCount>): string
  {
    if s == [] then "" else RankRows(s[..|s| - 1]) + RankRow(|s|, s[|s| - 1])
  }

  const UserInfoTitle: string := "👥 **User Information**\n\n"
  const NoActiveUsers: string := UserInfoTitle + "No active users found."

  const ActiveUsersLabel: string := "**Active Users:** "

  /** The heading of a non-empty listing: the title, then the number of
      users, which reads back from between the label and the blank line. */
  function UserInfoHeader(active: nat): (r: string)
    ensures |UserInfoTitle| + |ActiveUsersLabel| <= |r| - 2
    ensures r[..|UserInfoTitle|] == UserInfoTitle
    ensures ParseInt(r[|UserInfoTitle| + |ActiveUsersLabel|..|r| - 2]) == Some(active)
  {
    var n := IntToString(active);
    ParseIntOfIntToString(active);
    var r := UserInfoTitle + (ActiveUsersLabel + n + "\n\n");
    assert r[..|UserInfoTitle|] == UserInfoTitle;
    assert r[|UserInfoTitle| + |ActiveUsersLabel|..|r| - 2] == n;
    r
  }

  /** Row i + 1 of the listing follows the first i rows and is ranked
      i + 1. */
  lemma RankRowsStep(s: seq<UserCount>, i: nat)
    requires i < |s|
    ensures RankRows(s[..i + 1]) == RankRows(s[..i]) + RankRow(i + 1, s[i])
  {
    assert s[..i + 1][..i] == s[..i];
  }

  /** The `for i, (user_id, contexts) in enumerate(sorted_users, 1)` loop:
      one ranked row per listed user, in order. */
  method RankedList(top: seq<UserCount>) returns (rows: string)
    ensures rows == RankRows(top)
  {
    rows := "";
    var i := 0;
    while i < |top|
      invariant 0 <= i <= |top|
      invariant rows == RankRows(top[..i])
    {
      RankRowsStep(top, i);
      rows := rows + RankRow(i + 1, top[i]);
      i := i + 1;
    }
    assert top[..i] == top;
  }

  /** `show_user_info`'s text: a fixed line when nobody has a history entry,
      otherwise the number of users and the top ten, ranked from 1. The
      entries are `user_contexts.items()` in dictionary order. */
  method ShowUserInfo(entries: seq<UserCount>) returns (text: string)
    ensures entries == [] ==> text == NoActiveUsers
    ensures entries != [] ==> text == UserInfoHeader(|entries|) + RankRows(Top(entries))
  {
    if entries == [] {
      return NoActiveUsers;
    }
    var sortedUsers := SortByCount(entries)[..Min(TopUsers, |entries|)];
    var rows := RankedList(sortedUsers);
    text := UserInfoHeader(|entries|) + rows;
  }

  // ---------------------------------------------------------------------
  // show_detailed_stats
  // ---------------------------------------------------------------------

  /** `sum(len(contexts) for contexts in user_contexts.values())`: every
      history counts toward the total. */
  function TotalConversations(entries: seq<UserCount>): (n: nat)
    ensures forall i :: 0 <= i < |entries| ==> entries[i].messages <= n
  {
    if entries == [] then 0
    else
      var init := entries[..|entries| - 1];
      assert forall i :: 0 <= i < |init| ==> init[i] == entries[i];
      TotalConversations(init) + entries[|entries| - 1].messages
  }

  /** When no history is longer than `bound`, the total is at most `bound`
      per active user. */
  lemma {:induction false} TotalConversationsBound(entries: seq<UserCount>, bound: nat)
    requires forall i :: 0 <= i < |entries| ==> entries[i].messages <= bound
    ensures TotalConversations(entries) <= bound * |entries|
  {
    if entries != [] {
      var init := entries[..|entries| - 1];
      assert forall i :: 0 <= i < |init| ==> init[i] == entries[i];
      TotalConversationsBound(init, bound);
      assert bound * |entries| == bound * |init| + bound;
    }
  }

  /** The total of two lists joined is the sum of their totals. */
  lemma {:induction false} TotalAppend(a: seq<UserCount>, b: seq<UserCount>)
    ensures TotalConversations(a + b) == TotalConversations(a) + TotalConversations(b)
    decreases |b|
  {
    if b == [] {
      assert a + b == a;
    } else {
      var init := b[..|b| - 1];
      assert (a + b)[..|a + b| - 1] == a + init;
      TotalAppend(a, init);
    }
  }

  /** Taking out the entry at `j` takes it out of the multiset. */
  lemma MultisetWithout(b: seq<UserCount>, j: nat)
    requires j < |b|
    ensures multiset(b[..j] + b[j + 1..]) == multiset(b) - multiset{b[j]}
  {
    assert b == b[..j] + [b[j]] + b[j + 1..];
  }

  /** Taking out the entry at `j` takes its count out of the total. */
  lemma TotalWithout(b: seq<UserCount>, j: nat)
    requires j < |b|
    ensures TotalConversations(b) == TotalConversations(b[..j] + b[j + 1..]) + b[j].messages
  {
    var before, x, after := b[..j], b[j], b[j + 1..];
    var front := b[..j + 1];
    assert front == before + [x];
    assert b == front + after;
    assert TotalConversations(b) == TotalConversations(front) + TotalConversations(after) by {
      TotalAppend(front, after);
    }
    assert TotalConversations(front) == TotalConversations(before) + x.messages by {
      TotalAppend(before, [x]);
      assert [x][..0] == [];
    }
    TotalAppend(before, after);
  }

  /** The total counts every history once, whatever order the items come
      in: any two lists holding the same entries have the same total. */
  lemma {:induction false} TotalOfPermutation(a: seq<UserCount>, b: seq<UserCount>)
    requires multiset(a) == multiset(b)
    ensures TotalConversations(a) == TotalConversations(b)
    decreases |a|
  {
    if a == [] {
      assert |b| == |multiset(b)| == 0;
    } else {
      var x, init := a[|a| - 1], a[..|a| - 1];
      assert a == init + [x];
      assert multiset(init) == multiset(a) - multiset{x};
      assert x in multiset(b) by {
        assert x in multiset(a);
      }
      var j :| 0 <= j < |b| && b[j] == x;
      MultisetWithout(b, j);
      TotalWithout(b, j);
      TotalOfPermutation(init, b[..j] + b[j + 1..]);
    }
  }

  /** In particular the ranked list has the same total as the dictionary. */
  lemma TotalOfSorted(s: seq<UserCount>)
    ensures TotalConversations(SortByCount(s)) == TotalConversations(s)
  {
    TotalOfPermutation(SortByCount(s), s);
  }
}
