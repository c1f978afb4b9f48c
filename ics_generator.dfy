/** The one-event iCalendar (RFC 5545) document offered for download on the
    events page: date formatting (section 3.3.5 of RFC 5545, UTC form),
    TEXT escaping (section 3.3.11), and the fixed list of content lines joined
    with CRLF (section 3.1), holding one VEVENT (section 3.6.1).
    The wall clock read twice by the generator (`new Date()` for DTSTAMP and
    `Date.now()` for UID) is passed in as `stamp` and `nowMillis`. */
module IcsGenerator {
  import opened Wrappers
  import opened Text
  import opened DateTimes

  /** The argument of `generateICS`. */
  datatype IcsEvent = IcsEvent(
    title: string,
    description: string,
    location: string,
    start: DateTime,
    end: DateTime,
    url: Option<string>)

  const CRLF: string := "\r\n"

  // ---------------------------------------------------------------------------
  // formatDate
  // ---------------------------------------------------------------------------

  /** `.replace(/[-:]/g, "")`. */
  function StripSeparators(s: string): (r: string)
    ensures |r| <= |s|
    ensures forall i :: 0 <= i < |r| ==> r[i] != '-' && r[i] != ':'
  {
    if s == [] then []
    else (if s[0] == '-' || s[0] == ':' then [] else [s[0]]) + StripSeparators(s[1..])
  }

  lemma {:induction false} StripSeparatorsConcat(a: string, b: string)
    ensures StripSeparators(a + b) == StripSeparators(a) + StripSeparators(b)
  {
    if a == [] {
      assert a + b == b;
    } else {
      assert (a + b)[1..] == a[1..] + b;
      StripSeparatorsConcat(a[1..], b);
    }
  }

  /** A string without separators passes through unchanged. */
  lemma {:induction false} StripSeparatorsKeeps(s: string)
    requires forall i :: 0 <= i < |s| ==> s[i] != '-' && s[i] != ':'
    ensures StripSeparators(s) == s
  {
    if s != [] {
      StripSeparatorsKeeps(s[1..]);
    }
  }

  /** A match of the regex `\.\d{3}` at offset `i`. */
  predicate FractionAt(s: string, i: int)
  {
    0 <= i && i + 4 <= |s| && s[i] == '.' && IsDigit(s[i + 1]) && IsDigit(s[i + 2]) && IsDigit(s[i + 3])
  }

  /** Offset of the leftmost match of `\.\d{3}`, or |s| when there is none. */
  function FirstFraction(s: string): (i: nat)
    ensures i <= |s|
    ensures i < |s| ==> FractionAt(s, i)
    ensures forall j :: 0 <= j < i ==> !FractionAt(s, j)
    decreases |s|
  {
    if |s| < 4 then |s|
    else if FractionAt(s, 0) then 0
    else
      var i := FirstFraction(s[1..]);
      assert i < |s| - 1 ==> FractionAt(s, i + 1);
      forall j | 0 <= j < 1 + i ensures !FractionAt(s, j) {
        if j > 0 { assert !FractionAt(s[1..], j - 1); }
      }
      1 + i
  }

  /** `.replace(/\.\d{3}/, "")`: the leftmost match, and only it, is removed. */
  function DropFraction(s: string): (r: string)
    ensures FirstFraction(s) == |s| ==> r == s
    ensures FirstFraction(s) < |s| ==> |r| == |s| - 4
    ensures FirstFraction(s) < |s| ==> r == s[..FirstFraction(s)] + s[FirstFraction(s) + 4..]
  {
    var i := FirstFraction(s);
    if i < |s| then s[..i] + s[i + 4..] else s
  }

  /** `formatDate`: `toISOString()` with the separators and the milliseconds removed. */
  function FormatDate(d: DateTime): string
  {
    DropFraction(StripSeparators(IsoString(d)))
  }

  /** The compact UTC DATE-TIME of section 3.3.5 of RFC 5545: `YYYYMMDDTHHMMSSZ`. */
  function CompactUtc(d: DateTime): string
  {
    CompactDate(d) + "T" + CompactTime(d) + "Z"
  }

  lemma DigitsHaveNoSeparators(s: string)
    requires AllDigits(s)
    ensures StripSeparators(s) == s
  {
    StripSeparatorsKeeps(s);
  }

  /** Separators between digit groups disappear. */
  lemma {:induction false} StripAroundSeparator(a: string, sep: string, b: string)
    requires sep == "-" || sep == ":"
    ensures StripSeparators(a + sep + b) == StripSeparators(a) + StripSeparators(b)
  {
    StripSeparatorsConcat(a + sep, b);
    StripSeparatorsConcat(a, sep);
    assert StripSeparators(sep) == [];
  }

  /** `StripSeparators` of `a + x + b` where `x` is kept. */
  lemma StripAroundKept(a: string, x: string, b: string)
    requires forall i :: 0 <= i < |x| ==> x[i] != '-' && x[i] != ':'
    ensures StripSeparators(a + x + b) == StripSeparators(a) + x + StripSeparators(b)
  {
    StripSeparatorsConcat(a + x, b);
    StripSeparatorsConcat(a, x);
    StripSeparatorsKeeps(x);
  }

  /** Three digit groups with a separator between each pair lose the separators. */
  lemma StripGroups(a: string, sep: string, b: string, c: string)
    requires AllDigits(a) && AllDigits(b) && AllDigits(c)
    requires sep == "-" || sep == ":"
    ensures StripSeparators(a + sep + b + sep + c) == a + b + c
  {
    DigitsHaveNoSeparators(a);
    DigitsHaveNoSeparators(b);
    DigitsHaveNoSeparators(c);
    StripAroundSeparator(a + sep + b, sep, c);
    StripAroundSeparator(a, sep, b);
  }

  /** Stripping the separators of `toISOString()` leaves the digit groups and `T.Z`. */
  lemma StrippedIsoString(d: DateTime)
    ensures StripSeparators(IsoString(d)) == CompactHead(d) + ("." + Padded(d.millis, 3) + "Z")
  {
    var date, time := IsoDate(d), IsoTime(d);
    StripGroups(Padded(d.year, 4), "-", Padded(d.month, 2), Padded(d.day, 2));
    StripGroups(Padded(d.hour, 2), ":", Padded(d.minute, 2), Padded(d.second, 2));
    var tail := "." + Padded(d.millis, 3) + "Z";
    assert AllDigits(Padded(d.millis, 3));
    StripSeparatorsKeeps(tail);
    assert IsoString(d) == date + "T" + (time + tail);
    StripAroundKept(date, "T", time + tail);
    StripSeparatorsConcat(time, tail);
  }

  /** The compact form without its final `Z`. */
  function CompactHead(d: DateTime): string
  {
    CompactDate(d) + "T" + CompactTime(d)
  }

  function CompactDate(d: DateTime): string
  {
    Padded(d.year, 4) + Padded(d.month, 2) + Padded(d.day, 2)
  }

  function CompactTime(d: DateTime): string
  {
    Padded(d.hour, 2) + Padded(d.minute, 2) + Padded(d.second, 2)
  }

  /** For every instant, `formatDate` yields exactly the compact UTC form. */
  lemma FormatDateIsCompactUtc(d: DateTime)
    ensures FormatDate(d) == CompactUtc(d)
  {
    StrippedIsoString(d);
    var head := CompactHead(d);
    var stripped := head + ("." + Padded(d.millis, 3) + "Z");
    assert |head| == 15;
    assert FractionAt(stripped, 15);
    assert forall j :: 0 <= j < 15 ==> stripped[j] == head[j];
    assert forall j :: 0 <= j < 15 ==> head[j] != '.';
    assert FirstFraction(stripped) == 15;
    assert stripped[..15] == head && stripped[19..] == "Z";
  }

  /** `formatDate` output shape: 8 digits, `T`, 6 digits, `Z`. */
  lemma FormatDateShape(d: DateTime)
    ensures var r := FormatDate(d);
      |r| == 16 && AllDigits(r[..8]) && r[8] == 'T' && AllDigits(r[9..15]) && r[15] == 'Z'
  {
    FormatDateIsCompactUtc(d);
    var r := CompactUtc(d);
    assert r[..8] == CompactDate(d);
    assert r[9..15] == CompactTime(d);
  }

  /** The number written in `r[i..i + w]`, or -1 when that is not a run of
      digits. */
  function FieldAt(r: string, i: nat, w: nat): int
  {
    if i + w <= |r| && AllDigits(r[i..i + w]) then DigitsValue(r[i..i + w]) else -1
  }

  /** For a valid instant nothing but the milliseconds is lost: every field
      reads back from its digits in the formatted date. */
  lemma FormatDateFields(d: DateTime)
    requires Valid(d)
    ensures var r := FormatDate(d);
      && FieldAt(r, 0, 4) == d.year && FieldAt(r, 4, 2) == d.month && FieldAt(r, 6, 2) == d.day
      && FieldAt(r, 9, 2) == d.hour && FieldAt(r, 11, 2) == d.minute && FieldAt(r, 13, 2) == d.second
  {
    FormatDateIsCompactUtc(d);
    var r := CompactUtc(d);
    assert r[0..4] == Padded(d.year, 4) && r[4..6] == Padded(d.month, 2) && r[6..8] == Padded(d.day, 2);
    assert r[9..11] == Padded(d.hour, 2) && r[11..13] == Padded(d.minute, 2);
    assert r[13..15] == Padded(d.second, 2);
    assert Pow10(2) == 100 && Pow10(4) == 10000;
    PaddedRoundTrip(d.year, 4);
    PaddedRoundTrip(d.month, 2);
    PaddedRoundTrip(d.day, 2);
    PaddedRoundTrip(d.hour, 2);
    PaddedRoundTrip(d.minute, 2);
    PaddedRoundTrip(d.second, 2);
  }

  // ---------------------------------------------------------------------------
  // escapeText
  // ---------------------------------------------------------------------------

  /** `.replace(/[,;\\]/g, "\\$&")`. */
  function EscapeSpecials(s: string): string
  {
    if s == [] then []
    else (if s[0] == ',' || s[0] == ';' || s[0] == '\\' then ['\\', s[0]] else [s[0]])
         + EscapeSpecials(s[1..])
  }

  /** `.replace(/\n/g, "\\n")`. */
  function EscapeNewlines(s: string): string
  {
    if s == [] then []
    else (if s[0] == '\n' then ['\\', 'n'] else [s[0]]) + EscapeNewlines(s[1..])
  }

  /** `escapeText`: the two replacements, in the source's order. */
  function EscapeText(s: string): string
  {
    EscapeNewlines(EscapeSpecials(s))
  }

  /** The escape of one character. */
  function EscapeChar(c: char): (r: string)
    ensures 1 <= |r| <= 2
  {
    if c == ',' || c == ';' || c == '\\' then ['\\', c]
    else if c == '\n' then ['\\', 'n']
    else [c]
  }

  /** The per-character reading of TEXT escaping, independent of the regexes. */
  function EscapeEach(s: string): string
  {
    if s == [] then [] else EscapeChar(s[0]) + EscapeEach(s[1..])
  }

  lemma {:induction false} EscapeNewlinesConcat(a: string, b: string)
    ensures EscapeNewlines(a + b) == EscapeNewlines(a) + EscapeNewlines(b)
  {
    if a == [] {
      assert a + b == b;
    } else {
      assert (a + b)[1..] == a[1..] + b;
      EscapeNewlinesConcat(a[1..], b);
    }
  }

  /** The two chained replacements act character by character: the backslash
      the first one introduces is never a line feed, and the backslash of `\n`
      produced by the second one is never escaped again. */
  lemma {:induction false} EscapeTextIsPerCharacter(s: string)
    ensures EscapeText(s) == EscapeEach(s)
  {
    if s != [] {
      var head := if s[0] == ',' || s[0] == ';' || s[0] == '\\' then ['\\', s[0]] else [s[0]];
      EscapeNewlinesConcat(head, EscapeSpecials(s[1..]));
      EscapeTextIsPerCharacter(s[1..]);
      if s[0] == ',' || s[0] == ';' || s[0] == '\\' {
        assert head == ['\\'] + [s[0]];
        EscapeNewlinesConcat(['\\'], [s[0]]);
      }
    }
  }

  lemma {:induction false} EscapeEachConcat(a: string, b: string)
    ensures EscapeEach(a + b) == EscapeEach(a) + EscapeEach(b)
  {
    if a == [] {
      assert a + b == b;
    } else {
      assert (a + b)[1..] == a[1..] + b;
      EscapeEachConcat(a[1..], b);
    }
  }

  /** Escaping distributes over concatenation. */
  lemma EscapeTextConcat(a: string, b: string)
    ensures EscapeText(a + b) == EscapeText(a) + EscapeText(b)
  {
    EscapeTextIsPerCharacter(a + b);
    EscapeTextIsPerCharacter(a);
    EscapeTextIsPerCharacter(b);
    EscapeEachConcat(a, b);
  }

  /** The characters `escapeText` rewrites. */
  predicate Special(c: char)
  {
    c == ',' || c == ';' || c == '\\' || c == '\n'
  }

  function CountSpecial(s: string): (n: nat)
    ensures n <= |s|
  {
    if s == [] then 0 else (if Special(s[0]) then 1 else 0) + CountSpecial(s[1..])
  }

  /** The escaped text grows by one character per rewritten character. */
  lemma {:induction false} EscapeTextLength(s: string)
    ensures |EscapeText(s)| == |s| + CountSpecial(s)
  {
    EscapeTextIsPerCharacter(s);
    EscapeEachLength(s);
  }

  lemma {:induction false} EscapeEachLength(s: string)
    ensures |EscapeEach(s)| == |s| + CountSpecial(s)
  {
    if s != [] {
      EscapeEachLength(s[1..]);
    }
  }

  /** Escaped text holds no line feed, so it cannot break the CRLF line structure. */
  lemma {:induction false} EscapeTextHasNoLineFeed(s: string)
    ensures forall i :: 0 <= i < |EscapeText(s)| ==> EscapeText(s)[i] != '\n'
  {
    EscapeTextIsPerCharacter(s);
    EscapeEachHasNoLineFeed(s);
  }

  lemma {:induction false} EscapeEachHasNoLineFeed(s: string)
    ensures forall i :: 0 <= i < |EscapeEach(s)| ==> EscapeEach(s)[i] != '\n'
  {
    if s != [] {
      EscapeEachHasNoLineFeed(s[1..]);
      var h := EscapeChar(s[0]);
      assert EscapeEach(s) == h + EscapeEach(s[1..]);
      forall i | 0 <= i < |EscapeEach(s)| ensures EscapeEach(s)[i] != '\n' {
        if i >= |h| {
          assert EscapeEach(s)[i] == EscapeEach(s[1..])[i - |h|];
        }
      }
    }
  }

  /** The character an ESCAPED-CHAR of section 3.3.11 of RFC 5545 stands for. */
  function EscapedChar(c: char): Option<char>
  {
    if c == '\\' || c == ';' || c == ',' then Some(c)
    else if c == 'n' || c == 'N' then Some('\n')
    else None
  }

  /** A decoder of the backslash escapes of section 3.3.11 of RFC 5545:
      backslash sequences are resolved, and an unescaped comma, semicolon or
      line feed, a lone trailing backslash or an unknown escape is rejected.
      Other control characters, such as a carriage return, are let through,
      although RFC 5545 TEXT does not allow them. */
  function Unescape(s: string): Option<string>
    decreases |s|
  {
    if s == [] then Some([])
    else if s[0] == '\\' then
      if |s| < 2 then None
      else match EscapedChar(s[1])
        case None => None
        case Some(c) =>
          match Unescape(s[2..])
          case None => None
          case Some(t) => Some([c] + t)
    else if s[0] == ',' || s[0] == ';' || s[0] == '\n' then None
    else
      match Unescape(s[1..])
      case None => None
      case Some(t) => Some([s[0]] + t)
  }

  /** Escaping is unambiguous: decoding recovers the original text. */
  lemma {:induction false} UnescapeEscapeEach(s: string)
    ensures Unescape(EscapeEach(s)) == Some(s)
  {
    if s != [] {
      UnescapeEscapeEach(s[1..]);
      var e := EscapeEach(s);
      var h := EscapeChar(s[0]);
      assert e == h + EscapeEach(s[1..]);
      assert e[|h|..] == EscapeEach(s[1..]);
      assert s == [s[0]] + s[1..];
    }
  }

  lemma UnescapeEscapeText(s: string)
    ensures Unescape(EscapeText(s)) == Some(s)
  {
    EscapeTextIsPerCharacter(s);
    UnescapeEscapeEach(s);
  }

  /** Escaping is injective. */
  lemma EscapeTextInjective(a: string, b: string)
    requires EscapeText(a) == EscapeText(b)
    ensures a == b
  {
    UnescapeEscapeText(a);
    UnescapeEscapeText(b);
  }

  /** The source's order of the two replacements matters: the other order
      would escape the backslash of `\n` again. */
  lemma ReplacementOrderMatters(s: string)
    requires '\n' in s
    ensures EscapeSpecials(EscapeNewlines(s)) != EscapeText(s)
    ensures |EscapeSpecials(EscapeNewlines(s))| > |EscapeText(s)|
  {
    ReversedLength(s);
    EscapeTextLength(s);
    CountZero(s, '\n');
  }

  lemma {:induction false} EscapeSpecialsConcat(a: string, b: string)
    ensures EscapeSpecials(a + b) == EscapeSpecials(a) + EscapeSpecials(b)
  {
    if a == [] {
      assert a + b == b;
    } else {
      assert (a + b)[1..] == a[1..] + b;
      EscapeSpecialsConcat(a[1..], b);
    }
  }

  /** In the other order every line feed costs one more character. */
  lemma {:induction false} ReversedLength(s: string)
    ensures |EscapeSpecials(EscapeNewlines(s))| == |s| + CountSpecial(s) + Count(s, '\n')
  {
    if s != [] {
      var h := if s[0] == '\n' then ['\\', 'n'] else [s[0]];
      assert EscapeNewlines(s) == h + EscapeNewlines(s[1..]);
      EscapeSpecialsConcat(h, EscapeNewlines(s[1..]));
      ReversedLength(s[1..]);
      if s[0] == '\n' {
        assert h == ['\\'] + ['n'];
        EscapeSpecialsConcat(['\\'], ['n']);
      }
    }
  }

  // ---------------------------------------------------------------------------
  // The document
  // ---------------------------------------------------------------------------

  /** `n` in decimal without leading zeros: `${Date.now()}`. */
  function Decimal(n: nat): (r: string)
    ensures |r| >= 1 && AllDigits(r)
    ensures n == 0 || r[0] != '0'
  {
    if n < 10 then [DigitChar(n)] else Decimal(n / 10) + [DigitChar(n % 10)]
  }

  lemma {:induction false} DecimalRoundTrip(n: nat)
    ensures DigitsValue(Decimal(n)) == n
  {
    if n >= 10 {
      var r := Decimal(n);
      assert r[..|r| - 1] == Decimal(n / 10);
      DecimalRoundTrip(n / 10);
    }
  }

  /** `event.url ? [...] : []`: undefined and the empty string are falsy. */
  predicate HasUrl(ev: IcsEvent)
  {
    ev.url.Some? && ev.url.value != ""
  }

  function UidLine(nowMillis: nat): string
  {
    "UID:" + Decimal(nowMillis) + "@wormihub.org"
  }

  /** Distinct clock readings give distinct UIDs. */
  lemma UidLineInjective(m1: nat, m2: nat)
    requires m1 != m2
    ensures UidLine(m1) != UidLine(m2)
  {
    var d1, d2 := Decimal(m1), Decimal(m2);
    DecimalRoundTrip(m1);
    DecimalRoundTrip(m2);
    assert UidLine(m1)[4..4 + |d1|] == d1;
    assert UidLine(m2)[4..4 + |d2|] == d2;
  }

  /** The content lines before the optional URL line, given the already
      formatted dates and escaped texts. */
  function HeadOf(dtstart: string, dtend: string, dtstamp: string,
                  summary: string, description: string, location: string): seq<string>
  {
    [ "BEGIN:VCALENDAR",
      "VERSION:2.0",
      "PRODID:-//Wormi Hub//Events//EN",
      "CALSCALE:GREGORIAN",
      "METHOD:PUBLISH",
      "BEGIN:VEVENT",
      "DTSTART:" + dtstart,
      "DTEND:" + dtend,
      "DTSTAMP:" + dtstamp,
      "SUMMARY:" + summary,
      "DESCRIPTION:" + description,
      "LOCATION:" + location ]
  }

  function HeadLines(ev: IcsEvent, stamp: DateTime): seq<string>
  {
    HeadOf(FormatDate(ev.start), FormatDate(ev.end), FormatDate(stamp),
           EscapeText(ev.title), EscapeText(ev.description), EscapeText(ev.location))
  }

  /** `...(event.url ? [`URL:${event.url}`] : [])` */
  function UrlLines(ev: IcsEvent): seq<string>
  {
    if HasUrl(ev) then ["URL:" + ev.url.value] else []
  }

  /** The content lines after the optional URL line, given the UID line. */
  function TailOf(uid: string): seq<string>
  {
    [ uid,
      "STATUS:CONFIRMED",
      "END:VEVENT",
      "END:VCALENDAR" ]
  }

  function TailLines(nowMillis: nat): seq<string>
  {
    TailOf(UidLine(nowMillis))
  }

  /** The content lines of the document, in order. */
  function IcsLines(ev: IcsEvent, stamp: DateTime, nowMillis: nat): seq<string>
  {
    HeadLines(ev, stamp) + UrlLines(ev) + TailLines(nowMillis)
  }

  /** `Array.prototype.join(sep)`. */
  function Join(lines: seq<string>, sep: string): string
  {
    if lines == [] then []
    else if |lines| == 1 then lines[0]
    else lines[0] + sep + Join(lines[1..], sep)
  }

  /** `generateICS`. */
  function GenerateIcs(ev: IcsEvent, stamp: DateTime, nowMillis: nat): string
  {
    Join(IcsLines(ev, stamp, nowMillis), CRLF)
  }

  /** A reader's view of the document: split at every CRLF. */
  function SplitCrlf(s: string): (r: seq<string>)
    ensures |r| >= 1
    decreases |s|
  {
    if s == [] then [[]]
    else if |s| >= 2 && s[0] == '\r' && s[1] == '\n' then [[]] + SplitCrlf(s[2..])
    else
      var rest := SplitCrlf(s[1..]);
      [[s[0]] + rest[0]] + rest[1..]
  }

  predicate NoLineFeed(s: string)
  {
    '\n' !in s
  }

  lemma {:induction false} SplitLineThenCrlf(l: string, t: string)
    requires NoLineFeed(l)
    ensures SplitCrlf(l + CRLF + t) == [l] + SplitCrlf(t)
    decreases |l|
  {
    if l == [] {
      assert l + CRLF + t == CRLF + t;
      assert (CRLF + t)[2..] == t;
    } else {
      var s := l + CRLF + t;
      assert s[0] == l[0];
      assert s[1] != '\n' by {
        if |l| > 1 { assert s[1] == l[1]; } else { assert s[1] == '\r'; }
      }
      assert s[1..] == l[1..] + CRLF + t;
      SplitLineThenCrlf(l[1..], t);
      assert [l[0]] + l[1..] == l;
    }
  }

  lemma {:induction false} SplitSingleLine(l: string)
    requires NoLineFeed(l)
    ensures SplitCrlf(l) == [l]
    decreases |l|
  {
    if l != [] {
      assert |l| >= 2 ==> l[1] != '\n';
      SplitSingleLine(l[1..]);
      assert [l[0]] + l[1..] == l;
    }
  }

  /** Joining with CRLF and splitting at CRLF are inverse when no line holds a line feed. */
  lemma {:induction false} SplitJoin(lines: seq<string>)
    requires |lines| >= 1
    requires forall l :: l in lines ==> NoLineFeed(l)
    ensures SplitCrlf(Join(lines, CRLF)) == lines
  {
    if |lines| == 1 {
      SplitSingleLine(lines[0]);
    } else {
      assert lines[0] in lines;
      assert forall l :: l in lines[1..] ==> l in lines;
      SplitJoin(lines[1..]);
      SplitLineThenCrlf(lines[0], Join(lines[1..], CRLF));
      assert [lines[0]] + lines[1..] == lines;
    }
  }

  lemma {:induction false} JoinEndsWithLast(lines: seq<string>)
    requires |lines| >= 1
    ensures var j := Join(lines, CRLF);
      |lines[|lines| - 1]| <= |j| && j[|j| - |lines[|lines| - 1]|..] == lines[|lines| - 1]
  {
    if |lines| > 1 {
      JoinEndsWithLast(lines[1..]);
      var j := Join(lines[1..], CRLF);
      assert Join(lines, CRLF) == (lines[0] + CRLF) + j;
    }
  }

  lemma NoLineFeedConcat(a: string, b: string)
    requires NoLineFeed(a) && NoLineFeed(b)
    ensures NoLineFeed(a + b)
  {
  }

  lemma FormatDateHasNoLineFeed(d: DateTime)
    ensures NoLineFeed(FormatDate(d))
  {
    FormatDateIsCompactUtc(d);
    var date, time := CompactDate(d), CompactTime(d);
    NoLineFeedConcat(date, "T");
    NoLineFeedConcat(date + "T", time);
    NoLineFeedConcat(date + "T" + time, "Z");
  }

  lemma HeadOfHasNoLineFeed(a: string, b: string, c: string, d: string, e: string, f: string)
    requires NoLineFeed(a) && NoLineFeed(b) && NoLineFeed(c)
    requires NoLineFeed(d) && NoLineFeed(e) && NoLineFeed(f)
    ensures forall l :: l in HeadOf(a, b, c, d, e, f) ==> NoLineFeed(l)
  {
  }

  lemma HeadLinesHaveNoLineFeed(ev: IcsEvent, stamp: DateTime)
    ensures forall l :: l in HeadLines(ev, stamp) ==> NoLineFeed(l)
  {
    FormatDateHasNoLineFeed(ev.start);
    FormatDateHasNoLineFeed(ev.end);
    FormatDateHasNoLineFeed(stamp);
    EscapeTextHasNoLineFeed(ev.title);
    EscapeTextHasNoLineFeed(ev.description);
    EscapeTextHasNoLineFeed(ev.location);
    HeadOfHasNoLineFeed(FormatDate(ev.start), FormatDate(ev.end), FormatDate(stamp),
                        EscapeText(ev.title), EscapeText(ev.description), EscapeText(ev.location));
  }

  lemma TailLinesHaveNoLineFeed(nowMillis: nat)
    ensures forall l :: l in TailLines(nowMillis) ==> NoLineFeed(l)
  {
    NoLineFeedConcat("UID:", Decimal(nowMillis));
    NoLineFeedConcat("UID:" + Decimal(nowMillis), "@wormihub.org");
  }

  /** Every line of the document is free of line feeds, as long as the
      (unescaped) url is. */
  lemma IcsLinesHaveNoLineFeed(ev: IcsEvent, stamp: DateTime, nowMillis: nat)
    requires HasUrl(ev) ==> NoLineFeed(ev.url.value)
    ensures forall l :: l in IcsLines(ev, stamp, nowMillis) ==> NoLineFeed(l)
  {
    HeadLinesHaveNoLineFeed(ev, stamp);
    TailLinesHaveNoLineFeed(nowMillis);
    if HasUrl(ev) {
      NoLineFeedConcat("URL:", ev.url.value);
    }
  }

  /** A calendar reader that splits the document at CRLF sees exactly the
      content lines: no field adds or breaks a line. */
  lemma DocumentSplitsIntoLines(ev: IcsEvent, stamp: DateTime, nowMillis: nat)
    requires HasUrl(ev) ==> NoLineFeed(ev.url.value)
    ensures SplitCrlf(GenerateIcs(ev, stamp, nowMillis)) == IcsLines(ev, stamp, nowMillis)
  {
    IcsLinesHaveNoLineFeed(ev, stamp, nowMillis);
    SplitJoin(IcsLines(ev, stamp, nowMillis));
  }

  /** The document ends with END:VCALENDAR, without a trailing CRLF. */
  lemma DocumentEnd(ev: IcsEvent, stamp: DateTime, nowMillis: nat)
    ensures var doc := GenerateIcs(ev, stamp, nowMillis);
      |doc| >= 13 && doc[|doc| - 13..] == "END:VCALENDAR"
  {
    JoinEndsWithLast(IcsLines(ev, stamp, nowMillis));
  }

  const Markers: set<string> := {"BEGIN:VCALENDAR", "END:VCALENDAR", "BEGIN:VEVENT", "END:VEVENT"}

  /** A line that is neither a begin/end marker nor a URL line, told apart by its first two characters. */
  predicate Ordinary(l: string)
  {
    |l| >= 2 && l[0] != 'B' && l[0] != 'E' && !(l[0] == 'U' && l[1] == 'R')
  }

  lemma StartsWithHead(s: string, p: string)
    requires |p| >= 1 && |s| >= 1 && s[0] != p[0]
    ensures !StartsWith(s, p)
  {
  }

  lemma OrdinaryIsNoMarker(l: string)
    requires Ordinary(l)
    ensures l !in Markers && !StartsWith(l, "URL:")
  {
  }

  lemma PrefixedOrdinary(p: string, x: string)
    requires Ordinary(p)
    ensures Ordinary(p + x)
  {
    assert (p + x)[0] == p[0] && (p + x)[1] == p[1];
  }

  /** In the head lines only the first (VCALENDAR) and the sixth (VEVENT) are
      markers, and none is a URL line. */
  lemma HeadOfMarkers(a: string, b: string, c: string, d: string, e: string, f: string)
    ensures var h := HeadOf(a, b, c, d, e, f);
      forall i :: 0 <= i < |h| ==>
        (h[i] in Markers <==> i == 0 || i == 5) && !StartsWith(h[i], "URL:")
  {
    var h := HeadOf(a, b, c, d, e, f);
    PrefixedOrdinary("DTSTART:", a);
    PrefixedOrdinary("DTEND:", b);
    PrefixedOrdinary("DTSTAMP:", c);
    PrefixedOrdinary("SUMMARY:", d);
    PrefixedOrdinary("DESCRIPTION:", e);
    PrefixedOrdinary("LOCATION:", f);
    forall i | 0 <= i < |h|
      ensures (h[i] in Markers <==> i == 0 || i == 5) && !StartsWith(h[i], "URL:")
    {
      if i == 0 || i == 5 {
        StartsWithHead(h[i], "URL:");
      } else {
        OrdinaryIsNoMarker(h[i]);
      }
    }
  }

  /** In the tail lines only the last two (END:VEVENT, END:VCALENDAR) are markers. */
  lemma TailOfMarkers(uid: string)
    requires Ordinary(uid)
    ensures var t := TailOf(uid);
      forall i :: 0 <= i < |t| ==>
        (t[i] in Markers <==> i >= 2) && !StartsWith(t[i], "URL:")
  {
    var t := TailOf(uid);
    forall i | 0 <= i < |t|
      ensures (t[i] in Markers <==> i >= 2) && !StartsWith(t[i], "URL:")
    {
      if i >= 2 {
        StartsWithHead(t[i], "URL:");
      } else {
        OrdinaryIsNoMarker(t[i]);
      }
    }
  }

  lemma UidLineOrdinary(nowMillis: nat)
    ensures Ordinary(UidLine(nowMillis))
  {
    PrefixedOrdinary("UID:", Decimal(nowMillis) + "@wormihub.org");
    assert UidLine(nowMillis) == "UID:" + (Decimal(nowMillis) + "@wormihub.org");
  }

  /** 16 lines, or 17 when a url is given; VCALENDAR opens and closes the
      document, VEVENT opens at the sixth line and closes just before, and no
      other line is a begin/end marker. */
  lemma IcsLinesStructure(ev: IcsEvent, stamp: DateTime, nowMillis: nat)
    ensures var lines := IcsLines(ev, stamp, nowMillis);
      && |lines| == (if HasUrl(ev) then 17 else 16)
      && lines[0] == "BEGIN:VCALENDAR" && lines[5] == "BEGIN:VEVENT"
      && lines[|lines| - 2] == "END:VEVENT" && lines[|lines| - 1] == "END:VCALENDAR"
      && forall i :: 0 <= i < |lines| ==>
           (lines[i] in Markers <==> i == 0 || i == 5 || i >= |lines| - 2)
  {
    var lines := IcsLines(ev, stamp, nowMillis);
    var head, url, tail := HeadLines(ev, stamp), UrlLines(ev), TailLines(nowMillis);
    HeadOfMarkers(FormatDate(ev.start), FormatDate(ev.end), FormatDate(stamp),
                  EscapeText(ev.title), EscapeText(ev.description), EscapeText(ev.location));
    UidLineOrdinary(nowMillis);
    TailOfMarkers(UidLine(nowMillis));
    forall i | 0 <= i < |lines|
      ensures lines[i] in Markers <==> i == 0 || i == 5 || i >= |lines| - 2
    {
      if i < |head| {
        assert lines[i] == head[i];
      } else if i < |head| + |url| {
        assert lines[i] == url[i - |head|];
        assert lines[i][0] == 'U';
      } else {
        assert lines[i] == tail[i - |head| - |url|];
      }
    }
  }

  /** The value lines: DTSTART and DTEND come from the event's start and end
      only, DTSTAMP from the stamp only, the texts escaped, and the UID from
      the clock reading only. */
  lemma IcsLinesFields(ev: IcsEvent, stamp: DateTime, nowMillis: nat)
    ensures var lines := IcsLines(ev, stamp, nowMillis);
      && |lines| >= 16
      && lines[6] == "DTSTART:" + FormatDate(ev.start)
      && lines[7] == "DTEND:" + FormatDate(ev.end)
      && lines[8] == "DTSTAMP:" + FormatDate(stamp)
      && lines[9] == "SUMMARY:" + EscapeText(ev.title)
      && lines[10] == "DESCRIPTION:" + EscapeText(ev.description)
      && lines[11] == "LOCATION:" + EscapeText(ev.location)
      && lines[|lines| - 4] == "UID:" + Decimal(nowMillis) + "@wormihub.org"
  {
    var head, url, tail := HeadLines(ev, stamp), UrlLines(ev), TailLines(nowMillis);
    var lines := IcsLines(ev, stamp, nowMillis);
    assert lines == head + url + tail;
    assert lines[|lines| - 4] == tail[0];
  }

  /** A URL line appears exactly when the url is truthy, and it carries the url unescaped. */
  lemma UrlLinePresence(ev: IcsEvent, stamp: DateTime, nowMillis: nat)
    ensures forall l :: l in IcsLines(ev, stamp, nowMillis) && StartsWith(l, "URL:") ==>
      HasUrl(ev) && l == "URL:" + ev.url.value
    ensures HasUrl(ev) ==> IcsLines(ev, stamp, nowMillis)[12] == "URL:" + ev.url.value
  {
    HeadOfMarkers(FormatDate(ev.start), FormatDate(ev.end), FormatDate(stamp),
                  EscapeText(ev.title), EscapeText(ev.description), EscapeText(ev.location));
    UidLineOrdinary(nowMillis);
    TailOfMarkers(UidLine(nowMillis));
  }
}
