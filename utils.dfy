/** The bot's utility layer: markdown escaping and two-tier truncation of
    replies, the sliding-window rate limiter, and small string helpers. */
module Utils {
  import opened Common
  import BotConfig

  // ---------------------------------------------------------------------
  // Escaping
  // ---------------------------------------------------------------------

  /** The characters `escape_markdown_v2` prefixes with a backslash. */
  const MarkdownV2Special: string := "_*[]()~`>#+-=|{}.!"

  /** The character class of `format_message`'s substitution: the same
      eighteen characters plus the backslash itself. */
  const FormatReserved: string := MarkdownV2Special + "\\"

  /** How many characters of `t` belong to `special`. */
  function Count(t: string, special: string): nat
  {
    if t == [] then 0 else (if t[0] in special then 1 else 0) + Count(t[1..], special)
  }

  function EscapeUnit(c: char, special: string): string
  {
    if c in special then ['\\', c] else [c]
  }

  /** Every character of `special` gets a backslash in front of it; every
      other character is kept as it is. */
  function Escape(t: string, special: string): (r: string)
    ensures |r| == |t| + Count(t, special)
  {
    if t == [] then [] else EscapeUnit(t[0], special) + Escape(t[1..], special)
  }

  lemma {:induction false} EscapeAppend(a: string, b: string, special: string)
    ensures Escape(a + b, special) == Escape(a, special) + Escape(b, special)
  {
    if a != [] {
      assert (a + b)[1..] == a[1..] + b;
      EscapeAppend(a[1..], b, special);
    } else {
      assert a + b == b;
    }
  }

  /** Text without special characters is left unchanged. */
  lemma {:induction false} EscapePlain(s: string, special: string)
    requires forall i :: 0 <= i < |s| ==> s[i] !in special
    ensures Escape(s, special) == s
  {
    if s != [] {
      EscapePlain(s[1..], special);
    }
  }

  /** How MarkdownV2 reads escaped text: a backslash makes the next
      character literal and is itself dropped. */
  function Unescape(s: string): string
  {
    if s == [] then []
    else if s[0] == '\\' && |s| >= 2 then [s[1]] + Unescape(s[2..])
    else [s[0]] + Unescape(s[1..])
  }

  /** When the backslash itself is escaped, reading the escaped text as
      MarkdownV2 does gives back exactly the original text. */
  lemma {:induction false} UnescapeEscape(t: string, special: string)
    requires '\\' in special
    ensures Unescape(Escape(t, special)) == t
  {
    if t != [] {
      UnescapeEscape(t[1..], special);
      var rest := Escape(t[1..], special);
      if t[0] in special {
        assert Escape(t, special) == ['\\', t[0]] + rest;
        assert (['\\', t[0]] + rest)[2..] == rest;
      } else {
        assert t[0] != '\\';
        assert Escape(t, special) == [t[0]] + rest;
        assert ([t[0]] + rest)[1..] == rest;
      }
    }
  }

  /** `escape_markdown_v2`. */
  function EscapeMarkdownV2(text: string): (r: string)
    ensures |r| == |text| + Count(text, MarkdownV2Special)
  {
    Escape(text, MarkdownV2Special)
  }

  /** `escape_markdown_v2` leaves a backslash alone, so a backslash already in
      the text swallows the character after it: "\a" is shown as "a". */
  lemma MarkdownV2DropsBackslash()
    ensures EscapeMarkdownV2("\\a") == "\\a"
    ensures Unescape(EscapeMarkdownV2("\\a")) == "a"
  {
    assert Escape("\\a", MarkdownV2Special) == "\\" + Escape("a", MarkdownV2Special);
  }

  // ---------------------------------------------------------------------
  // format_message
  // ---------------------------------------------------------------------

  const NoResponse: string := "No response generated."

  const TruncationMarker: string := "\n\n... (truncated)"

  /** `format_message`'s escaping step: the eighteen characters MarkdownV2
      reserves and the backslash. It is also the escaping `escape_markdown_v2`
      needs to round-trip. */
  function EscapeReserved(text: string): (r: string)
    ensures Unescape(r) == text
    ensures |r| == |text| + Count(text, FormatReserved)
  {
    UnescapeEscape(text, FormatReserved);
    Escape(text, FormatReserved)
  }

  /** `cut_point`: the last '.' or newline among the first `maxLength - 100`
      characters (a Python slice, so a negative bound counts from the end),
      or -1 when there is none. */
  function CutPoint(e: string, maxLength: int): (c: int)
    ensures -1 <= c < |PyPrefix(e, maxLength - 100)|
    ensures c >= 0 ==> e[c] == '.' || e[c] == '\n'
    ensures forall j :: c < j < |PyPrefix(e, maxLength - 100)| ==> e[j] != '.' && e[j] != '\n'
  {
    var window := PyPrefix(e, maxLength - 100);
    Max(Rfind(window, '.'), Rfind(window, '\n'))
  }

  /** The largest power of two not above `k`. */
  function PowerBelow(k: nat): (p: nat)
    requires k >= 1
    ensures 1 <= p <= k < 2 * p
  {
    if k == 1 then 1 else 2 * PowerBelow(k / 2)
  }

  /** The float test `cut_point > max_length * 0.7`, exact for
      `|maxLength| < 2^50`. Where `7 * maxLength` is not a multiple of 10,
      the rounded product stays strictly between the same two integers as
      `0.7 * maxLength`, so the integer comparison decides. Where it is, the
      product equals an integer `k` in exact arithmetic, and the cut `k`
      passes exactly when the double product lies below `k`. The double 0.7
      is 0.7 - 2/(10 * 2^52), so the exact product falls short of `k` by
      `maxLength / (5 * 2^52)`; it rounds back up to `k` exactly when that
      shortfall is at most half the spacing of doubles just below `k`, which
      works out to `4 * k <= 7 * PowerBelow(k)` for a `k` that is not a power
      of two (a tie rounds to `k`, whose last mantissa bit is even). */
  function PastSeventyPercent(cut: int, maxLength: int): (r: bool)
    ensures 10 * cut > 7 * maxLength ==> r
    ensures r ==> 10 * cut >= 7 * maxLength
    ensures (7 * maxLength) % 10 != 0 ==> (r <==> 10 * cut > 7 * maxLength)
  {
    10 * cut > 7 * maxLength
    || (10 * cut == 7 * maxLength && cut >= 1 &&
        var p := PowerBelow(cut); cut == p || 4 * cut > 7 * p)
  }

  /** Doubling a double is exact, so doubling both the limit and the cut
      never changes the verdict. */
  lemma SeventyPercentDoubling(cut: int, maxLength: int)
    ensures PastSeventyPercent(2 * cut, 2 * maxLength) == PastSeventyPercent(cut, maxLength)
  {
  }

  /** The two-tier truncation of escaped text `e`: keep everything up to the
      boundary when it lies past 70% of `maxLength`, else keep the first
      `hardCut` characters; then append the marker. Either way the result is
      a prefix of `e` followed by the marker. */
  function Truncate(e: string, maxLength: int, hardCut: int): (r: string)
    ensures |TruncationMarker| <= |r| <= |e| + |TruncationMarker|
    ensures r == e[..|r| - |TruncationMarker|] + TruncationMarker
  {
    var cut := CutPoint(e, maxLength);
    if PastSeventyPercent(cut, maxLength) then e[..cut + 1] + TruncationMarker
    else PyPrefix(e, hardCut) + TruncationMarker
  }

  /** With the configured limit of 4096, `7 * 4096` is not a multiple of 10
      and the float test is the integer comparison. */
  lemma SeventyPercentOfDefaultLimit(cut: int)
    ensures PastSeventyPercent(cut, 4096) <==> 10 * cut > 7 * 4096
  {
  }

  /** At a limit of 350 the product `350 * 0.7` rounds to just below 245, so a
      boundary at index 245, exactly 70% of the limit, is kept. At 100 the
      product is exactly 70 and a boundary at 70 is not. */
  lemma SeventyPercentRounding()
    ensures PastSeventyPercent(245, 350) && 10 * 245 == 7 * 350
    ensures !PastSeventyPercent(70, 100)
  {
    assert PowerBelow(1) == 1;
    assert PowerBelow(3) == 2;
    assert PowerBelow(7) == 4;
    assert PowerBelow(15) == 8;
    assert PowerBelow(30) == 16;
    assert PowerBelow(61) == 32;
    assert PowerBelow(122) == 64;
    assert PowerBelow(245) == 128;
    assert PowerBelow(35) == 32;
    assert PowerBelow(70) == 64;
  }

  function FormatWithHardCut(text: string, maxLength: int, hardCut: int): string
  {
    if text == [] then NoResponse
    else
      var e := EscapeReserved(text);
      if |e| <= maxLength then e else Truncate(e, maxLength, hardCut)
  }

  /** `format_message` as written: the hard cut keeps `maxLength - 15`
      characters. */
  function FormatMessage(text: string, maxLength: int): (r: string)
    ensures text == [] ==> r == NoResponse
    ensures text != [] && |EscapeReserved(text)| <= maxLength ==> r == EscapeReserved(text)
    ensures text != [] && |EscapeReserved(text)| <= maxLength ==> Unescape(r) == text
  {
    FormatWithHardCut(text, maxLength, maxLength - 15)
  }

  /** A '.' or newline of escaped text closes a whole escape unit (the '.'
      is always the second half of a pair and the newline is never escaped),
      so the text up to it is the escaping of a prefix of the original. */
  lemma {:induction false} BoundaryIsUnitAligned(t: string, c: int, special: string) returns (j: int)
    requires '.' in special && '\n' !in special
    requires 0 <= c < |Escape(t, special)|
    requires Escape(t, special)[c] == '.' || Escape(t, special)[c] == '\n'
    ensures 0 <= j <= |t| && Escape(t, special)[..c + 1] == Escape(t[..j], special)
  {
    var u := EscapeUnit(t[0], special);
    var rest := Escape(t[1..], special);
    EscapeFirst(t, special);
    if c < |u| {
      j := 1;
    } else {
      var j' := BoundaryIsUnitAligned(t[1..], c - |u|, special);
      j := j' + 1;
      assert t[..j] == t[..1] + t[1..][..j'];
      EscapeAppend(t[..1], t[1..][..j'], special);
      assert (u + rest)[..c + 1] == u + rest[..c - |u| + 1];
    }
  }

  /** The escaping of a non-empty text starts with the escaping of its first
      character. */
  lemma EscapeFirst(t: string, special: string)
    requires t != []
    ensures Escape(t, special) == EscapeUnit(t[0], special) + Escape(t[1..], special)
    ensures Escape(t[..1], special) == EscapeUnit(t[0], special)
  {
    assert t[..1][0] == t[0];
    assert t[..1][1..] == [];
  }

  /** Truncation, first tier: a boundary past 70% of the limit is kept, the
      marker follows it, the result is at most `maxLength - 83` long, and no
      escape pair is split. */
  lemma FormatMessageBoundaryCut(text: string, maxLength: int)
    requires text != [] && maxLength >= 100
    requires |EscapeReserved(text)| > maxLength
    requires PastSeventyPercent(CutPoint(EscapeReserved(text), maxLength), maxLength)
    ensures var e := EscapeReserved(text);
            var c := CutPoint(e, maxLength);
            && c < maxLength - 100
            && (e[c] == '.' || e[c] == '\n')
            && FormatMessage(text, maxLength) == e[..c + 1] + TruncationMarker
            && |FormatMessage(text, maxLength)| <= maxLength - 83
    ensures exists j :: 0 <= j <= |text| &&
              FormatMessage(text, maxLength)
                == EscapeReserved(text[..j]) + TruncationMarker
  {
    var e := EscapeReserved(text);
    var c := CutPoint(e, maxLength);
    assert 10 * c >= 7 * maxLength;
    assert |PyPrefix(e, maxLength - 100)| == maxLength - 100;
    assert FormatMessage(text, maxLength) == Truncate(e, maxLength, maxLength - 15);
    assert FormatMessage(text, maxLength) == e[..c + 1] + TruncationMarker;
    assert e == Escape(text, FormatReserved);
    assert '.' in FormatReserved && '\n' !in FormatReserved;
    var j := BoundaryIsUnitAligned(text, c, FormatReserved);
    assert Escape(text[..j], FormatReserved) == EscapeReserved(text[..j]);
  }

  /** Truncation, second tier: without an acceptable boundary the first
      `maxLength - 15` escaped characters are kept, so with the 17-character
      marker the result is two characters longer than the limit. */
  lemma FormatMessageHardCut(text: string, maxLength: int)
    requires text != [] && maxLength >= 15
    requires |EscapeReserved(text)| > maxLength
    requires !PastSeventyPercent(CutPoint(EscapeReserved(text), maxLength), maxLength)
    ensures FormatMessage(text, maxLength)
              == EscapeReserved(text)[..maxLength - 15] + TruncationMarker
    ensures |FormatMessage(text, maxLength)| == maxLength + 2
  {
  }

  /** The hard cut can fall between a backslash and the character it
      escapes: the '.' after `p` is dropped and its backslash is left in
      front of the marker's newline. */
  lemma HardCutSplitsEscapePair(p: string, q: string, maxLength: int)
    requires maxLength >= 100 && |p| == maxLength - 16 && |q| >= 15
    requires forall i :: 0 <= i < |p| ==> p[i] !in FormatReserved && p[i] != '\n'
    ensures FormatMessage(p + "." + q, maxLength) == p + "\\" + TruncationMarker
  {
    var e := EscapeReserved(p + "." + q);
    EscapeDot(p, q);
    assert e == p + "\\." + Escape(q, FormatReserved);
    var window := PyPrefix(e, maxLength - 100);
    assert forall j :: 0 <= j < |window| ==> window[j] == p[j];
    assert CutPoint(e, maxLength) == -1;
    assert e[..maxLength - 15] == p + "\\";
  }

  /** A '.' after plain text is escaped in place. */
  lemma EscapeDot(p: string, q: string)
    requires forall i :: 0 <= i < |p| ==> p[i] !in FormatReserved
    ensures Escape(p + "." + q, FormatReserved) == p + "\\." + Escape(q, FormatReserved)
  {
    var d := "." + q;
    assert d[0] == '.' && d[1..] == q;
    EscapeFirst(d, FormatReserved);
    ReservedCharacters();
    EscapeAppend(p, d, FormatReserved);
    EscapePlain(p, FormatReserved);
    assert p + "." + q == p + d;
  }

  /** Which of the characters `format_message` cares about are reserved. */
  lemma ReservedCharacters()
    ensures '.' in FormatReserved && '\\' in FormatReserved && '\n' !in FormatReserved
  {
    assert FormatReserved[16] == '.' && FormatReserved[18] == '\\';
  }

  /** A reply of 4097 letters comes out 4098 characters long, over the
      4096-character limit it was meant to respect. */
  lemma FormatMessageExceedsLimit()
    ensures |FormatMessage(seq(4097, _ => 'a'), 4096)| == 4098
  {
    var text := seq(4097, _ => 'a');
    EscapePlain(text, FormatReserved);
    var cut := CutPoint(text, 4096);
    assert cut == -1;
  }

  /** `format_message` with the hard cut that leaves room for the marker:
      `maxLength - 17` characters. It agrees with `FormatMessage` except in
      the hard-cut branch, and its result never exceeds `maxLength`. */
  function FormatMessageBounded(text: string, maxLength: int): (r: string)
    ensures maxLength >= 100 ==> |r| <= maxLength
    ensures text == [] || |EscapeReserved(text)| <= maxLength
            || PastSeventyPercent(CutPoint(EscapeReserved(text), maxLength), maxLength)
            ==> r == FormatMessage(text, maxLength)
  {
    FormatWithHardCut(text, maxLength, maxLength - |TruncationMarker|)
  }

  // ---------------------------------------------------------------------
  // truncate_text
  // ---------------------------------------------------------------------

  /** `truncate_text`: text that fits is returned unchanged; otherwise a
      prefix (a Python slice) followed by the suffix. */
  function TruncateText(text: string, maxLength: int, suffix: string := "..."): (r: string)
    ensures |text| <= maxLength ==> r == text
    ensures |text| > maxLength ==> |r| >= |suffix| && r[|r| - |suffix|..] == suffix
    ensures |text| > maxLength >= |suffix| ==> |r| == maxLength && r[..maxLength - |suffix|] == text[..maxLength - |suffix|]
  {
    if |text| <= maxLength then text
    else PyPrefix(text, maxLength - |suffix|) + suffix
  }

  // ---------------------------------------------------------------------
  // sanitize_filename
  // ---------------------------------------------------------------------

  /** A word character (`\w`), taken over ASCII. */
  predicate IsWordChar(c: char)
  {
    'a' <= c <= 'z' || 'A' <= c <= 'Z' || '0' <= c <= '9' || c == '_'
  }

  predicate IsSafeFilenameChar(c: char)
  {
    IsWordChar(c) || c == '-' || c == '.'
  }

  /** The substitution `[^\w\-_\.]` -> '_'. */
  function ReplaceUnsafe(s: string): (r: string)
    ensures |r| == |s|
    ensures forall i :: 0 <= i < |s| ==> r[i] == if IsSafeFilenameChar(s[i]) then s[i] else '_'
  {
    if s == [] then [] else [if IsSafeFilenameChar(s[0]) then s[0] else '_'] + ReplaceUnsafe(s[1..])
  }

  /** A name over 255 characters is split at its last '.' (`rsplit('.', 1)`)
      and rebuilt from the first 250 characters of the stem and the '.' and
      extension, when there is one. */
  function CutLongName(s: string): (r: string)
    ensures |r| <= |s|
    ensures var k := Min(250, if Rfind(s, '.') < 0 then |s| else Rfind(s, '.'));
            k <= |r| && r[..k] == s[..k]
    ensures Rfind(s, '.') >= 0 ==>
              |s| - Rfind(s, '.') - 1 <= |r| && r[|r| - (|s| - Rfind(s, '.') - 1)..] == s[Rfind(s, '.') + 1..]
  {
    var dot := Rfind(s, '.');
    if dot < 0 then s[..Min(250, |s|)]
    else
      var stem250, ext := s[..Min(250, dot)], s[dot + 1..];
      if ext != [] then stem250 + "." + ext else stem250
  }

  /** `sanitize_filename`. */
  function SanitizeFilename(filename: string): (r: string)
    ensures forall i :: 0 <= i < |r| ==> IsSafeFilenameChar(r[i])
    ensures |filename| <= 255 ==> |r| == |filename|
    ensures |filename| <= 255 ==> forall i :: 0 <= i < |r| ==>
              r[i] == if IsSafeFilenameChar(filename[i]) then filename[i] else '_'
  {
    var s := ReplaceUnsafe(filename);
    if |s| > 255 then CutLongName(s) else s
  }

  /** The shape of a rebuilt long name: the first 250 characters of the
      stem (everything before the last '.'), then '.' and the whole
      extension, which holds no '.'; a trailing '.' is dropped. */
  lemma CutLongNameShape(s: string)
    requires Rfind(s, '.') >= 0
    ensures var dot := Rfind(s, '.');
            CutLongName(s)[..Min(250, dot)] == s[..Min(250, dot)]
    ensures var dot := Rfind(s, '.');
            dot + 1 < |s| ==> CutLongName(s) == s[..Min(250, dot)] + "." + s[dot + 1..]
    ensures var dot := Rfind(s, '.');
            dot + 1 == |s| ==> CutLongName(s) == s[..Min(250, dot)]
  {
    var dot := Rfind(s, '.');
    var k := Min(250, dot);
    var ext := s[dot + 1..];
    if dot + 1 < |s| {
      calc {
        CutLongName(s);
        s[..k] + "." + ext;
      }
    } else {
      assert CutLongName(s) == s[..k];
    }
  }

  /** A long name keeps the first 250 characters of its stem and its whole
      extension; with an extension longer than four characters the result
      is still over 255. */
  lemma SanitizeLongName(filename: string)
    requires |filename| > 255
    ensures var s := ReplaceUnsafe(filename);
            var dot := Rfind(s, '.');
            var r := SanitizeFilename(filename);
            && (dot < 0 ==> r == s[..250])
            && (dot >= 0 ==> r[..Min(250, dot)] == s[..Min(250, dot)])
            && (dot >= 0 && dot + 1 < |s| ==>
                  r == s[..Min(250, dot)] + "." + s[dot + 1..]
                  && |r| == Min(250, dot) + |s| - dot)
            && (dot == |s| - 1 ==> r == s[..Min(250, dot)])
  {
    var s := ReplaceUnsafe(filename);
    assert SanitizeFilename(filename) == CutLongName(s);
    if Rfind(s, '.') >= 0 {
      CutLongNameShape(s);
    }
  }

  lemma ReplaceUnsafeOfSafe(s: string)
    requires forall i :: 0 <= i < |s| ==> IsSafeFilenameChar(s[i])
    ensures ReplaceUnsafe(s) == s
  {
  }

  /** A rebuilt name with an extension is rebuilt to itself: its last '.'
      is the one put back before the extension. */
  lemma CutLongNameStable(s: string)
    requires 0 <= Rfind(s, '.') < |s| - 1
    ensures CutLongName(CutLongName(s)) == CutLongName(s)
  {
    var dot := Rfind(s, '.');
    CutLongNameShape(s);
    RfindIsLast(s, '.');
    var k := Min(250, dot);
    var ext := s[dot + 1..];
    var r := CutLongName(s);
    assert r == s[..k] + "." + ext;
    assert r[k] == '.';
    assert Rfind(r, '.') == k;
    CutLongNameShape(r);
    assert r[..k] == s[..k];
    assert r[k + 1..] == ext;
  }

  /** Sanitizing twice gives the same name as sanitizing once. */
  lemma SanitizeIdempotent(filename: string)
    ensures SanitizeFilename(SanitizeFilename(filename)) == SanitizeFilename(filename)
  {
    var r := SanitizeFilename(filename);
    ReplaceUnsafeOfSafe(r);
    assert SanitizeFilename(r) == if |r| > 255 then CutLongName(r) else r;
    if |r| > 255 {
      var s := ReplaceUnsafe(filename);
      assert r == CutLongName(s);
      CutLongNameShape(s);
      CutLongNameStable(s);
    }
  }

  // ---------------------------------------------------------------------
  // format_uptime
  // ---------------------------------------------------------------------

  /** `timedelta`'s normalisation of a duration of `uptime` seconds into
      whole days, hours and minutes (floor division, so a negative duration
      has negative days and non-negative hours and minutes). */
  function UptimeFields(uptime: int): (f: (int, int, int))
    ensures 0 <= f.1 < 24 && 0 <= f.2 < 60
    ensures f.0 * 86400 + f.1 * 3600 + f.2 * 60 <= uptime < f.0 * 86400 + f.1 * 3600 + f.2 * 60 + 60
  {
    var seconds := uptime % 86400;
    (uptime / 86400, seconds / 3600, (seconds % 3600) / 60)
  }

  function UptimePart(n: int, unit: string): seq<string>
  {
    if n != 0 then [IntToString(n) + unit] else []
  }

  /** A non-zero component is its sign and digits followed by its unit, so
      it is at least two characters and never reads as "0". */
  lemma UptimePartNotZero(n: int, unit: string)
    requires n != 0 && |unit| == 1
    ensures forall x :: x in UptimePart(n, unit) ==>
              |x| >= 2 && x[|x| - 1] == unit[0] && x != "0" + unit
  {
    ParseIntOfIntToString(n);
    var x := IntToString(n) + unit;
    assert x[..|x| - 1] == IntToString(n);
    assert ("0" + unit)[..1] == "0";
    assert DigitsValue("0") == 0 by {
      assert "0"[..0] == "";
    }
    assert ParseInt("0") == Some(0);
  }

  function UptimeText(days: int, hours: int, minutes: int): (r: string)
    ensures r == "0m" <==> days == 0 && hours == 0 && minutes == 0
  {
    var parts := UptimePart(days, "d") + UptimePart(hours, "h") + UptimePart(minutes, "m");
    if parts == [] then "0m"
    else
      UptimePartsLong(days, hours, minutes);
      JoinOfLongParts(parts);
      Join(" ", parts)
  }

  /** Every shown component is at least two characters and not "0m". */
  lemma UptimePartsLong(days: int, hours: int, minutes: int)
    ensures forall x :: x in UptimePart(days, "d") + UptimePart(hours, "h") + UptimePart(minutes, "m") ==>
              |x| >= 2 && x != "0m"
  {
    if days != 0 { UptimePartNotZero(days, "d"); }
    if hours != 0 { UptimePartNotZero(hours, "h"); }
    if minutes != 0 { UptimePartNotZero(minutes, "m"); }
  }

  /** Parts of at least two characters, none of them "0m", never join to
      "0m". */
  lemma JoinOfLongParts(parts: seq<string>)
    requires parts != []
    requires forall x :: x in parts ==> |x| >= 2 && x != "0m"
    ensures Join(" ", parts) != "0m"
  {
    assert parts[0] in parts;
    if |parts| >= 2 {
      JoinLength(" ", parts[1..]);
      assert |Join(" ", parts)| >= |parts[0]| + 1;
    }
  }

  /** A duration shows as "0m" exactly when it is under a minute. */
  lemma UptimeFieldsZero(uptime: int)
    ensures var f := UptimeFields(uptime);
            f.0 == 0 && f.1 == 0 && f.2 == 0 <==> 0 <= uptime < 60
  {
  }

  /** `format_uptime`, with the duration given in whole seconds. */
  method FormatUptime(uptime: int) returns (s: string)
    ensures var f := UptimeFields(uptime); s == UptimeText(f.0, f.1, f.2)
    ensures s == "0m" <==> 0 <= uptime < 60
  {
    var days := uptime / 86400;
    var hours := (uptime % 86400) / 3600;
    var minutes := ((uptime % 86400) % 3600) / 60;
    var parts: seq<string> := [];
    if days != 0 {
      parts := parts + [IntToString(days) + "d"];
    }
    if hours != 0 {
      parts := parts + [IntToString(hours) + "h"];
    }
    if minutes != 0 {
      parts := parts + [IntToString(minutes) + "m"];
    }
    s := if parts == [] then "0m" else Join(" ", parts);
    assert parts == UptimePart(days, "d") + UptimePart(hours, "h") + UptimePart(minutes, "m");
    assert (days, hours, minutes) == UptimeFields(uptime);
    UptimeFieldsZero(uptime);
  }

  // ---------------------------------------------------------------------
  // is_admin, validate_image_type
  // ---------------------------------------------------------------------

  /** `is_admin`: the caller is the one configured admin; there is no
      list of admins and no role beyond this id. */
  function IsAdmin(userId: UserId, adminId: int): (r: bool)
    ensures r <==> userId == adminId
  {
    userId == adminId
  }

  /** With `ADMIN_ID` unset the configured admin id is 0, which no Telegram
      user id (always positive) matches, so the admin commands are closed to
      everyone. */
  lemma UnsetAdminMatchesNobody(userId: UserId)
    requires userId > 0
    ensures !IsAdmin(userId, BotConfig.NewConfig(map[]).value.adminId)
  {
    BotConfig.DefaultsFromEmptyEnvironment();
  }

  /** `str.lower`, taken over ASCII. */
  function LowerChar(c: char): char
  {
    if 'A' <= c <= 'Z' then (c as int - 'A' as int + 'a' as int) as char else c
  }

  function Lower(s: string): (r: string)
    ensures |r| == |s| && forall i :: 0 <= i < |s| ==> r[i] == LowerChar(s[i])
  {
    if s == [] then [] else [LowerChar(s[0])] + Lower(s[1..])
  }

  lemma LowerIdempotent(s: string)
    ensures Lower(Lower(s)) == Lower(s)
  {
  }

  /** `validate_image_type`: the type is accepted exactly when it equals one
      of the allowed types, ignoring case. */
  function ValidateImageType(mimeType: string, allowedTypes: seq<string>): (ok: bool)
    ensures ok <==> exists t :: t in allowedTypes && Lower(t) == Lower(mimeType)
  {
    if allowedTypes == [] then false
    else
      var tail := allowedTypes[1..];
      assert allowedTypes[0] in allowedTypes;
      assert forall t :: t in tail ==> t in allowedTypes;
      assert forall t :: t in allowedTypes && t != allowedTypes[0] ==> t in tail;
      Lower(allowedTypes[0]) == Lower(mimeType) || ValidateImageType(mimeType, tail)
  }

  /** Changing the case of the queried type never changes the verdict. */
  lemma ValidateImageTypeIgnoresCase(mimeType: string, allowedTypes: seq<string>)
    ensures ValidateImageType(Lower(mimeType), allowedTypes) == ValidateImageType(mimeType, allowedTypes)
  {
    LowerIdempotent(mimeType);
  }

  // ---------------------------------------------------------------------
  // rate_limit_check
  // ---------------------------------------------------------------------

  /** The per-user request log (`user_requests`), owned by the bot and
      updated in place by `RateLimitCheck`. Times are whole seconds. */
  class RequestTable {
    var times: map<UserId, seq<int>>

    constructor ()
      ensures times == map[]
    {
      times := map[];
    }

    /** Every user's log holds at most `limit` entries. */
    ghost predicate Bounded(limit: int)
      reads this
    {
      forall u :: u in times ==> |times[u]| <= limit
    }
  }

  /** The log a user has in the table; an absent user has none. */
  function LogOf(times: map<UserId, seq<int>>, userId: UserId): seq<int>
  {
    if userId in times then times[userId] else []
  }

  /** The entries of `log` strictly after `windowStart`, in order: every
      such time with its multiplicity, and no other. */
  function Recent(log: seq<int>, windowStart: int): (r: seq<int>)
    ensures |r| <= |log|
    ensures forall t :: t in r ==> t in log && t > windowStart
    ensures forall t :: t in log && t > windowStart ==> t in r
    ensures forall t :: multiset(r)[t] == if t > windowStart then multiset(log)[t] else 0
  {
    if log == [] then []
    else
      var init, last := log[..|log| - 1], log[|log| - 1];
      assert log == init + [last];
      Recent(init, windowStart) + (if last > windowStart then [last] else [])
  }

  lemma {:induction false} RecentAllKept(log: seq<int>, windowStart: int)
    requires forall i :: 0 <= i < |log| ==> log[i] > windowStart
    ensures Recent(log, windowStart) == log
  {
    if log != [] {
      RecentAllKept(log[..|log| - 1], windowStart);
    }
  }

  lemma {:induction false} RecentAllDropped(log: seq<int>, windowStart: int)
    requires forall i :: 0 <= i < |log| ==> log[i] <= windowStart
    ensures Recent(log, windowStart) == []
  {
    if log != [] {
      RecentAllDropped(log[..|log| - 1], windowStart);
    }
  }

  /** The limiter's decision and the log it leaves behind. */
  datatype Verdict = Verdict(allowed: bool, log: seq<int>)

  /** One `rate_limit_check` on one user's log: purge what is `window` or
      more seconds old, reject when `limit` entries remain, else record
      `now`. A rejection records nothing beyond the purge and happens exactly
      when `limit` recent entries remain; an acceptance appends `now` at the
      end; the log never grows past `limit` and, for a positive window, holds
      only times inside the window. */
  function Admit(log: seq<int>, now: int, window: int, limit: int): (v: Verdict)
    ensures var kept := Recent(log, now - window);
            && (v.allowed <==> |kept| < limit)
            && (!v.allowed ==> v.log == kept)
            && (v.allowed ==> v.log == kept + [now] && |v.log| <= limit)
            && (|log| <= limit ==> |v.log| <= limit)
            && (window > 0 ==> forall t :: t in v.log ==> t > now - window)
  {
    var kept := Recent(log, now - window);
    if |kept| >= limit then Verdict(false, kept) else Verdict(true, kept + [now])
  }

  /** `k` requests logged at the same instant. */
  function Burst(now: int, k: nat): (r: seq<int>)
    ensures |r| == k && forall i :: 0 <= i < k ==> r[i] == now
  {
    if k == 0 then [] else Burst(now, k - 1) + [now]
  }

  /** The burst scenario with the default settings: ten requests at the same
      instant are all admitted, an eleventh is refused, and once 60 seconds
      have passed a request is admitted again (an entry exactly one window
      old no longer counts). */
  lemma BurstThenRecover(now: int)
    ensures forall k :: 0 <= k < 10 ==> Admit(Burst(now, k), now, 60, 10) == Verdict(true, Burst(now, k + 1))
    ensures Admit(Burst(now, 10), now, 60, 10) == Verdict(false, Burst(now, 10))
    ensures Admit(Burst(now, 10), now + 60, 60, 10) == Verdict(true, [now + 60])
  {
    forall k | 0 <= k <= 10
      ensures Recent(Burst(now, k), now - 60) == Burst(now, k)
    {
      RecentAllKept(Burst(now, k), now - 60);
    }
    RecentAllDropped(Burst(now, 10), now);
  }

  /** `rate_limit_check`: rebinds the user's entry of the caller's table to
      the purged log, then appends `now` when under the limit. No other
      user's entry changes. */
  method RateLimitCheck(userId: UserId, userRequests: RequestTable, config: BotConfig.Config, now: int)
    returns (allowed: bool)
    modifies userRequests
    ensures var v := Admit(LogOf(old(userRequests.times), userId), now,
                           config.rateLimitWindow, config.rateLimitMessages);
            allowed == v.allowed && userRequests.times == old(userRequests.times)[userId := v.log]
  {
    var windowStart := now - config.rateLimitWindow;
    var kept: seq<int> := [];
    if userId in userRequests.times {
      var log := userRequests.times[userId];
      var i := 0;
      while i < |log|
        invariant 0 <= i <= |log|
        invariant kept == Recent(log[..i], windowStart)
      {
        assert log[..i + 1][..i] == log[..i];
        if log[i] > windowStart {
          kept := kept + [log[i]];
        }
        i := i + 1;
      }
      assert log[..i] == log;
    }
    userRequests.times := userRequests.times[userId := kept];
    if |kept| >= config.rateLimitMessages {
      return false;
    }
    userRequests.times := userRequests.times[userId := kept + [now]];
    return true;
  }
}
