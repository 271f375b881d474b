/**
  The duration prober (`get_ogg_len`): the text `ogginfo` prints for an
  artifact is scanned line by line; the first line whose first token is
  `Playback` is used, and its third token is matched against
  `((?P<h>[0-9]*)h:)?((?P<m>[0-9]*)m:)?((?P<s>[0-9]*\.[0-9]*)s)`.
  The result is whole seconds; `str(timedelta)` turns it into the text
  appended to an entry's summary.

  Running the `ogginfo` process is outside the model: its standard output
  is the input here.
 */
module Duration {
  import opened Text

  /** Why no duration came out. `NoPlaybackLine` is the `ValueError` the
      source raises itself; `MalformedPlaybackLine` stands for the
      exceptions a `Playback` line can raise while being read (too few
      tokens, a third token the pattern does not match, `float('.')`). */
  datatype ProbeError = NoPlaybackLine | MalformedPlaybackLine

  /** The groups of a successful match: the hours and minutes groups when
      they took part, and the two halves of the seconds group. */
  datatype Clock = Clock(hours: Option<string>, minutes: Option<string>, whole: string, fraction: string)

  predicate ValidClock(c: Clock) {
    && (c.hours.Some? ==> AllDigits(c.hours.value))
    && (c.minutes.Some? ==> AllDigits(c.minutes.value))
    && AllDigits(c.whole) && AllDigits(c.fraction)
  }

  /** The optional group `([0-9]*)<unit>:` at the front of `s`: its digits
      and what follows it. Greedy digits can only be followed by the unit,
      so backtracking never finds another match. */
  function UnitGroup(s: string, unit: char): (r: Option<(string, string)>)
    requires !IsDigit(unit)
    ensures r.Some? ==> AllDigits(r.value.0) && s == r.value.0 + ([unit, ':'] + r.value.1)
  {
    var k := DigitRun(s);
    if k + 2 <= |s| && s[k] == unit && s[k + 1] == ':' then
      assert s == s[..k] + ([unit, ':'] + s[k + 2..]);
      Some((s[..k], s[k + 2..]))
    else None
  }

  /** The text of an optional group as it stands in a token:
      `<digits><unit>:` when it took part, nothing otherwise. */
  function GroupText(g: Option<string>, unit: char): string {
    if g.Some? then g.value + [unit, ':'] else ""
  }

  /** The text the pattern consumes for the groups of `c`:
      `[<h>h:][<m>m:]<whole>.<fraction>s`. */
  function ClockText(c: Clock): string {
    GroupText(c.hours, 'h') + (GroupText(c.minutes, 'm') + (c.whole + ("." + (c.fraction + "s"))))
  }

  /** Matches the optional group `([0-9]*)<unit>:`: the group, when it
      took part, and where matching continues (`OptionalGroupSound`). */
  function OptionalGroup(s: string, unit: char): (r: (Option<string>, string))
    requires !IsDigit(unit)
    ensures r.0.Some? ==> AllDigits(r.0.value)
  {
    var g := UnitGroup(s, unit);
    if g.Some? then (Some(g.value.0), g.value.1) else (None, s)
  }

  /** What the optional group consumes is exactly its own text. */
  lemma OptionalGroupSound(s: string, unit: char)
    requires !IsDigit(unit)
    ensures s == GroupText(OptionalGroup(s, unit).0, unit) + OptionalGroup(s, unit).1
  {
    var g := UnitGroup(s, unit);
    if g.Some? {
      assert GroupText(Some(g.value.0), unit) + g.value.1 == g.value.0 + ([unit, ':'] + g.value.1);
    } else {
      assert GroupText(None, unit) + s == s;
    }
  }

  /** The seconds group `([0-9]*\.[0-9]*)s`: its whole and fractional
      digits, and what follows the `s` (`SecondsGroupSound`). */
  function SecondsGroup(s: string): (r: Option<(string, string, string)>)
    ensures r.Some? ==> AllDigits(r.value.0) && AllDigits(r.value.1)
  {
    var i := DigitRun(s);
    if i < |s| && s[i] == '.' then
      var rest := s[i + 1..];
      var j := DigitRun(rest);
      if j < |rest| && rest[j] == 's' then Some((s[..i], rest[..j], rest[j + 1..])) else None
    else None
  }

  /** A match of the seconds group splits the text into the whole digits,
      `.`, the fraction digits, `s` and what follows. */
  lemma SecondsGroupSound(s: string)
    ensures SecondsGroup(s).Some? ==>
      var g := SecondsGroup(s).value;
      s == g.0 + ("." + (g.1 + ("s" + g.2)))
  {
    if SecondsGroup(s).Some? {
      var i := DigitRun(s);
      var rest := s[i + 1..];
      var j := DigitRun(rest);
      var g := SecondsGroup(s).value;
      assert g == (s[..i], rest[..j], rest[j + 1..]);
      CutTwice(s, i, rest, j);
    }
  }

  /** `s` cut at a `.` and, after it, at an `s`. */
  lemma CutTwice(s: string, i: nat, rest: string, j: nat)
    requires i < |s| && s[i] == '.' && rest == s[i + 1..] && j < |rest| && rest[j] == 's'
    ensures s == s[..i] + ("." + (rest[..j] + ("s" + rest[j + 1..])))
  {
    CutAt(rest, j, "s");
    CutAt(s, i, ".");
  }

  /** `re.match(pattern, token)`: anchored at the start, not at the end
      (`MatchClockSound`, `MatchClockText`). */
  function MatchClock(t: string): (r: Option<Clock>)
    ensures r.Some? ==> ValidClock(r.value)
  {
    var hours := OptionalGroup(t, 'h');
    var minutes := OptionalGroup(hours.1, 'm');
    var seconds := SecondsGroup(minutes.1);
    if seconds.None? then None
    else Some(Clock(hours.0, minutes.0, seconds.value.0, seconds.value.1))
  }

  /** A token that matches starts with the text of the groups it yields. */
  lemma MatchClockSound(t: string)
    ensures MatchClock(t).Some? ==>
      var c := MatchClock(t).value;
      |ClockText(c)| <= |t| && t[..|ClockText(c)|] == ClockText(c)
  {
    var hours := OptionalGroup(t, 'h');
    var minutes := OptionalGroup(hours.1, 'm');
    OptionalGroupSound(t, 'h');
    OptionalGroupSound(hours.1, 'm');
    SecondsGroupSound(minutes.1);
    var seconds := SecondsGroup(minutes.1);
    if seconds.Some? {
      var c := Clock(hours.0, minutes.0, seconds.value.0, seconds.value.1);
      ClockTextPrefix(t, hours.1, minutes.1, c, seconds.value.2);
    }
  }

  /** `s` is `s[..i]`, then `mid` (the character at `i`), then the rest. */
  lemma CutAt(s: string, i: nat, mid: string)
    requires i < |s| && mid == [s[i]]
    ensures s == s[..i] + (mid + s[i + 1..])
  {
  }

  /** A token read stage by stage starts with the text of its groups. */
  lemma ClockTextPrefix(t: string, afterHours: string, afterMinutes: string, c: Clock, rest: string)
    requires t == GroupText(c.hours, 'h') + afterHours
    requires afterHours == GroupText(c.minutes, 'm') + afterMinutes
    requires afterMinutes == c.whole + ("." + (c.fraction + ("s" + rest)))
    ensures |ClockText(c)| <= |t| && t[..|ClockText(c)|] == ClockText(c)
  {
    assert t == ClockText(c) + rest;
  }

  /** An hours or minutes group counts only when it took part and is not
      empty (`if m.group('h'):`). */
  function GroupValue(g: Option<string>): nat
    requires g.Some? ==> AllDigits(g.value)
  {
    if g.Some? && g.value != "" then DigitsValue(g.value) else 0
  }

  /** `int(float(s)) + int(h) * 3600 + int(m) * 60`; `float` fails on a
      lone `.`. */
  function ClockSeconds(c: Clock): Option<nat>
    requires ValidClock(c)
  {
    if c.whole == "" && c.fraction == "" then None
    else Some(DigitsValue(c.whole) + GroupValue(c.hours) * 3600 + GroupValue(c.minutes) * 60)
  }

  /** The seconds a playback-length token stands for. */
  function TokenSeconds(t: string): Result<nat, ProbeError> {
    match MatchClock(t)
    case None => Err(MalformedPlaybackLine)
    case Some(c) =>
      match ClockSeconds(c)
      case None => Err(MalformedPlaybackLine)
      case Some(n) => Ok(n)
  }

  /** `toks and toks[0] == 'Playback'` for `toks = line.strip().split()`. */
  predicate IsPlaybackLine(line: string) {
    var toks := Tokens(line);
    |toks| > 0 && toks[0] == "Playback"
  }

  /** Reads the duration off a `Playback` line: its third token. */
  function LineSeconds(line: string): (r: Result<nat, ProbeError>)
    requires IsPlaybackLine(line)
    ensures r != Err(NoPlaybackLine)
  {
    var toks := Tokens(line);
    if |toks| < 3 then Err(MalformedPlaybackLine) else TokenSeconds(toks[2])
  }

  /** Line `i` is the first `Playback` line. */
  predicate FirstPlayback(lines: seq<string>, i: int) {
    && 0 <= i < |lines| && IsPlaybackLine(lines[i])
    && forall j :: 0 <= j < i ==> !IsPlaybackLine(lines[j])
  }

  /** The loop over the lines of `ogginfo`'s output: only the first
      `Playback` line is read, and without one the probe fails rather than
      giving a duration (`ParseOggInfoNoLine`, `ParseOggInfoFirst`). */
  function ParseOggInfo(lines: seq<string>): Result<nat, ProbeError> {
    if lines == [] then Err(NoPlaybackLine)
    else if IsPlaybackLine(lines[0]) then LineSeconds(lines[0])
    else ParseOggInfo(lines[1..])
  }

  /** The probe reports a missing `Playback` line exactly when no line is
      one. */
  lemma {:induction false} ParseOggInfoNoLine(lines: seq<string>)
    ensures ParseOggInfo(lines) == Err(NoPlaybackLine) <==> forall i :: 0 <= i < |lines| ==> !IsPlaybackLine(lines[i])
  {
    if lines != [] && !IsPlaybackLine(lines[0]) {
      ParseOggInfoNoLine(lines[1..]);
      assert forall i :: 0 < i < |lines| ==> lines[i] == lines[1..][i - 1];
    }
  }

  /** The result is what the first `Playback` line gives. */
  lemma {:induction false} ParseOggInfoFirst(lines: seq<string>, i: nat)
    requires FirstPlayback(lines, i)
    ensures ParseOggInfo(lines) == LineSeconds(lines[i])
  {
    if i > 0 {
      FirstPlaybackTail(lines, i);
      ParseOggInfoFirst(lines[1..], i - 1);
    }
  }

  lemma FirstPlaybackTail(lines: seq<string>, i: nat)
    requires FirstPlayback(lines, i) && i > 0
    ensures !IsPlaybackLine(lines[0]) && FirstPlayback(lines[1..], i - 1) && lines[1..][i - 1] == lines[i]
  {
    assert forall j :: 0 <= j < i - 1 ==> lines[1..][j] == lines[j + 1];
  }

  /** `get_ogg_len` given the process's output: split at `\n`, then scan. */
  function OggLength(stdout: string): Result<nat, ProbeError> {
    ParseOggInfo(Split(stdout, '\n'))
  }

  // ---------------------------------------------------------------------
  // What a playback length looks like

  /** After an optional group's text comes text whose digit run `d` is
      followed by `c`, which is not the unit: the group is recognised
      exactly as written. */
  lemma GroupTextFollowed(g: Option<string>, unit: char, rest: string, d: string, c: char)
    requires !IsDigit(unit) && (g.Some? ==> AllDigits(g.value))
    requires AllDigits(d) && |rest| > |d| && rest[..|d|] == d && rest[|d|] == c && !IsDigit(c) && c != unit
    ensures OptionalGroup(GroupText(g, unit) + rest, unit) == (g, rest)
  {
    var s := GroupText(g, unit) + rest;
    if g.Some? {
      assert s == g.value + ([unit, ':'] + rest);
      DigitRunConcat(g.value, [unit, ':'] + rest);
      assert s[|g.value| + 2..] == rest;
    } else {
      assert s == rest && rest == d + rest[|d|..];
      DigitRunConcat(d, rest[|d|..]);
    }
  }

  /** The minutes stage sees `[<m>m:]<whole>.<fraction>s<tail>`. */
  lemma MinutesStage(c: Clock, tail: string)
    requires ValidClock(c)
    ensures var secs := c.whole + ("." + (c.fraction + ("s" + tail)));
      OptionalGroup(GroupText(c.minutes, 'm') + secs, 'm') == (c.minutes, secs)
  {
    var secs := c.whole + ("." + (c.fraction + ("s" + tail)));
    assert secs[..|c.whole|] == c.whole && secs[|c.whole|] == '.';
    GroupTextFollowed(c.minutes, 'm', secs, c.whole, '.');
  }

  /** The hours stage sees the whole token. */
  lemma HoursStage(c: Clock, mins: string, secs: string)
    requires ValidClock(c)
    requires |secs| > |c.whole| && secs[..|c.whole|] == c.whole && secs[|c.whole|] == '.'
    requires mins == GroupText(c.minutes, 'm') + secs
    ensures OptionalGroup(GroupText(c.hours, 'h') + mins, 'h') == (c.hours, mins)
  {
    if c.minutes.Some? {
      var d := c.minutes.value;
      assert mins == d + (['m', ':'] + secs);
      assert mins[..|d|] == d && mins[|d|] == 'm';
      GroupTextFollowed(c.hours, 'h', mins, d, 'm');
    } else {
      assert mins == secs;
      GroupTextFollowed(c.hours, 'h', mins, c.whole, '.');
    }
  }

  lemma SecondsGroupMatches(whole: string, fraction: string, tail: string)
    requires AllDigits(whole) && AllDigits(fraction)
    ensures SecondsGroup(whole + ("." + (fraction + ("s" + tail)))) == Some((whole, fraction, tail))
  {
    var t := whole + ("." + (fraction + ("s" + tail)));
    DigitRunConcat(whole, "." + (fraction + ("s" + tail)));
    assert t[|whole| + 1..] == fraction + ("s" + tail);
    DigitRunConcat(fraction, "s" + tail);
    assert (fraction + ("s" + tail))[|fraction| + 1..] == tail;
  }

  /** Every token of the pattern's shape matches with exactly its groups,
      whatever digits they hold (empty, zero-padded or not) and whatever
      follows the token. */
  lemma MatchClockText(c: Clock, tail: string)
    requires ValidClock(c)
    ensures MatchClock(ClockText(c) + tail) == Some(c)
  {
    var secs := c.whole + ("." + (c.fraction + ("s" + tail)));
    var mins := GroupText(c.minutes, 'm') + secs;
    assert ClockText(c) + tail == GroupText(c.hours, 'h') + mins;
    assert secs[..|c.whole|] == c.whole && secs[|c.whole|] == '.';
    HoursStage(c, mins, secs);
    MinutesStage(c, tail);
    SecondsGroupMatches(c.whole, c.fraction, tail);
  }

  /** Whatever groups a token has, it reads as `h * 3600 + m * 60 + s`
      seconds: an hours or minutes group counts only when it is present
      and not empty, `s` is the whole part of the seconds group, the
      fraction is dropped, and a seconds group that is a lone `.` is an
      error. */
  lemma ClockTextSeconds(c: Clock, tail: string)
    requires ValidClock(c)
    ensures c.whole == "" && c.fraction == "" ==> TokenSeconds(ClockText(c) + tail) == Err(MalformedPlaybackLine)
    ensures c.whole != "" || c.fraction != "" ==>
      TokenSeconds(ClockText(c) + tail)
        == Ok((if c.hours.Some? && c.hours.value != "" then DigitsValue(c.hours.value) else 0) * 3600
              + (if c.minutes.Some? && c.minutes.value != "" then DigitsValue(c.minutes.value) else 0) * 60
              + DigitsValue(c.whole))
  {
    MatchClockText(c, tail);
    TokenSecondsOfMatch(ClockText(c) + tail, c);
    ClockSecondsExplicit(c);
  }

  /** The seconds of a token, given the groups it matched with. */
  lemma TokenSecondsOfMatch(t: string, c: Clock)
    requires MatchClock(t) == Some(c)
    ensures ClockSeconds(c).None? ==> TokenSeconds(t) == Err(MalformedPlaybackLine)
    ensures ClockSeconds(c).Some? ==> TokenSeconds(t) == Ok(ClockSeconds(c).value)
  {
  }

  lemma ClockSecondsExplicit(c: Clock)
    requires ValidClock(c)
    ensures c.whole == "" && c.fraction == "" ==> ClockSeconds(c) == None
    ensures c.whole != "" || c.fraction != "" ==>
      ClockSeconds(c)
        == Some((if c.hours.Some? && c.hours.value != "" then DigitsValue(c.hours.value) else 0) * 3600
                + (if c.minutes.Some? && c.minutes.value != "" then DigitsValue(c.minutes.value) else 0) * 60
                + DigitsValue(c.whole))
  {
  }

  lemma PlaybackLineTokens()
    ensures Tokens("Playback length: 1m:23.456000s") == ["Playback", "length:", "1m:23.456000s"]
  {
    var words := ["Playback", "length:", "1m:23.456000s"];
    assert Join(words[2..], " ") == "1m:23.456000s";
    assert Join(words[1..], " ") == "length: 1m:23.456000s";
    assert Join(words, " ") == "Playback length: 1m:23.456000s";
    TokensJoin(words);
  }

  /** `1m:23.456000s` is 83 seconds. */
  lemma PlaybackTokenSeconds()
    ensures TokenSeconds("1m:23.456000s") == Ok(83)
  {
    var c := Clock(None, Some("1"), "23", "456000");
    PlaybackTokenText();
    MatchClockText(c, "");
    PlaybackClockSeconds();
    TokenSecondsOfMatch("1m:23.456000s", c);
  }

  lemma PlaybackTokenText()
    ensures ClockText(Clock(None, Some("1"), "23", "456000")) + "" == "1m:23.456000s"
  {
  }

  lemma PlaybackClockSeconds()
    ensures ClockSeconds(Clock(None, Some("1"), "23", "456000")) == Some(83)
  {
    assert "23"[..1] == "1"[..0] + "2";
  }

  lemma PlaybackLineSeconds()
    ensures IsPlaybackLine("Playback length: 1m:23.456000s")
    ensures LineSeconds("Playback length: 1m:23.456000s") == Ok(83)
  {
    PlaybackLineTokens();
    PlaybackTokenSeconds();
  }

  /** `ogginfo` reports `Playback length: 1m:23.456000s`: 83 seconds. */
  lemma PlaybackLengthExample()
    ensures ParseOggInfo(["Playback length: 1m:23.456000s"]) == Ok(83)
  {
    PlaybackLineSeconds();
  }

  // ---------------------------------------------------------------------
  // str(timedelta(seconds=n))

  function TwoDigits(n: nat): (r: string)
    requires n < 100
    ensures |r| == 2 && AllDigits(r)
  {
    [DigitChar(n / 10), DigitChar(n % 10)]
  }

  /** `str(timedelta(seconds=n))`: `H:MM:SS`, preceded by `D day, ` or
      `D days, ` from one day on. */
  function DurationText(n: nat): string {
    var rest := n % 86400;
    DayClock(n / 86400, ClockPart(rest / 3600, rest % 3600 / 60, rest % 60))
  }

  /** The value of the three fields of `H:MM:SS`. */
  function ClockFields(h: string, m: string, s: string): Option<nat> {
    if AllDigits(h) && AllDigits(m) && AllDigits(s) && h != "" && |m| == 2 && |s| == 2 then
      Some(DigitsValue(h) * 3600 + DigitsValue(m) * 60 + DigitsValue(s))
    else None
  }

  /** Reads `H:MM:SS` back into seconds. */
  function ParseClockText(t: string): Option<nat> {
    match SplitFirst(t, ':')
    case None => None
    case Some((h, r1)) =>
      match SplitFirst(r1, ':')
      case None => None
      case Some((m, s)) => ClockFields(h, m, s)
  }

  /** The value of `<d> day[s], <clock>` from its three fields: the day
      count, the unit word and the text after the comma. */
  function DayValue(d: string, unit: string, rest: string): Option<nat> {
    if AllDigits(d) && d != "" && (unit == "day" || unit == "days") && |rest| > 0 && rest[0] == ' ' then
      match ParseClockText(rest[1..])
      case None => None
      case Some(secs) => Some(DigitsValue(d) * 86400 + secs)
    else None
  }

  /** `<d> day[s], <clock>` read back, given its part before the comma
      and the part after it. */
  function DayFields(dayPart: string, rest: string): Option<nat> {
    match SplitFirst(dayPart, ' ')
    case None => None
    case Some((d, unit)) => DayValue(d, unit, rest)
  }

  /** Reads the text of a `timedelta` back into seconds. */
  function ParseDurationText(t: string): Option<nat> {
    match SplitFirst(t, ',')
    case None => ParseClockText(t)
    case Some((dayPart, rest)) => DayFields(dayPart, rest)
  }

  lemma TwoDigitsValue(n: nat)
    requires n < 100
    ensures DigitsValue(TwoDigits(n)) == n
  {
    var r := TwoDigits(n);
    assert DigitsValue(r[..1]) == n / 10 by {
      assert r[..1][..0] == [];
    }
  }

  function ClockPart(hh: nat, mm: nat, ss: nat): string
    requires mm < 60 && ss < 60
  {
    NatToString(hh) + (":" + (TwoDigits(mm) + (":" + TwoDigits(ss))))
  }

  lemma NoColonInDigits(d: string)
    requires AllDigits(d)
    ensures ':' !in d && ',' !in d && ' ' !in d
  {
    assert forall k :: 0 <= k < |d| ==> IsDigit(d[k]);
  }

  lemma ClockPartSplit(hh: nat, mm: nat, ss: nat)
    requires mm < 60 && ss < 60
    ensures SplitFirst(ClockPart(hh, mm, ss), ':') == Some((NatToString(hh), TwoDigits(mm) + (":" + TwoDigits(ss))))
    ensures SplitFirst(TwoDigits(mm) + (":" + TwoDigits(ss)), ':') == Some((TwoDigits(mm), TwoDigits(ss)))
  {
    NoColonInDigits(NatToString(hh));
    NoColonInDigits(TwoDigits(mm));
    SplitFirstConcat(NatToString(hh), ':', TwoDigits(mm) + (":" + TwoDigits(ss)));
    SplitFirstConcat(TwoDigits(mm), ':', TwoDigits(ss));
  }

  lemma ClockFieldsValue(hh: nat, mm: nat, ss: nat, secs: nat)
    requires mm < 60 && ss < 60 && secs == hh * 3600 + mm * 60 + ss
    ensures ClockFields(NatToString(hh), TwoDigits(mm), TwoDigits(ss)) == Some(secs)
  {
    NatToStringValue(hh);
    TwoDigitsValue(mm);
    TwoDigitsValue(ss);
  }

  /** `H:MM:SS` reads back as the seconds it was made from. */
  lemma ClockPartRoundTrip(hh: nat, mm: nat, ss: nat, secs: nat)
    requires mm < 60 && ss < 60 && secs == hh * 3600 + mm * 60 + ss
    ensures ParseClockText(ClockPart(hh, mm, ss)) == Some(secs)
  {
    ClockPartSplit(hh, mm, ss);
    ClockFieldsValue(hh, mm, ss, secs);
  }

  lemma ClockPartNoComma(hh: nat, mm: nat, ss: nat)
    requires mm < 60 && ss < 60
    ensures ',' !in ClockPart(hh, mm, ss)
  {
    NoColonInDigits(NatToString(hh));
    NoColonInDigits(TwoDigits(mm));
    NoColonInDigits(TwoDigits(ss));
  }

  /** The split of `n` seconds into days, hours, minutes and seconds
      adds back up to `n`. */
  lemma DayArithmetic(n: nat, hh: nat, mm: nat, ss: nat)
    requires hh == n % 86400 / 3600 && mm == n % 86400 % 3600 / 60 && ss == n % 86400 % 60
    ensures n == n / 86400 * 86400 + (hh * 3600 + mm * 60 + ss) && mm < 60 && ss < 60
  {
  }

  lemma DayPrefix(days: nat, clock: string)
    requires days > 0 && ',' !in clock
    ensures var unit := "day" + (if days == 1 then "" else "s");
      SplitFirst(NatToString(days) + (" day" + ((if days == 1 then "" else "s") + (", " + clock))), ',')
        == Some((NatToString(days) + (" " + unit), " " + clock))
  {
    var d := NatToString(days);
    var unit := "day" + (if days == 1 then "" else "s");
    NoColonInDigits(d);
    assert d + (" day" + ((if days == 1 then "" else "s") + (", " + clock))) == (d + (" " + unit)) + ([','] + (" " + clock));
    SplitFirstConcat(d + (" " + unit), ',', " " + clock);
  }

  lemma DayValueOf(d: string, days: nat, unit: string, rest: string, secs: nat, n: nat)
    requires d != "" && AllDigits(d) && DigitsValue(d) == days
    requires unit == "day" || unit == "days"
    requires |rest| > 0 && rest[0] == ' ' && ParseClockText(rest[1..]) == Some(secs) && n == days * 86400 + secs
    ensures DayValue(d, unit, rest) == Some(n)
  {
  }

  lemma DayFieldsValue(d: string, days: nat, unit: string, clock: string, secs: nat, n: nat)
    requires d != "" && AllDigits(d) && DigitsValue(d) == days
    requires unit == "day" || unit == "days"
    requires ParseClockText(clock) == Some(secs) && n == days * 86400 + secs
    ensures DayFields(d + (" " + unit), " " + clock) == Some(n)
  {
    DayFieldsSplit(d, unit, " " + clock);
    assert (" " + clock)[1..] == clock;
    DayValueOf(d, days, unit, " " + clock, secs, n);
  }

  lemma DayFieldsSplit(d: string, unit: string, rest: string)
    requires AllDigits(d)
    ensures DayFields(d + (" " + unit), rest) == DayValue(d, unit, rest)
  {
    NoColonInDigits(d);
    SplitFirstConcat(d, ' ', unit);
  }

  /** The text `str(timedelta)` gives for `days` days and a clock part. */
  function DayClock(days: nat, clock: string): string {
    if days == 0 then clock
    else NatToString(days) + (" day" + ((if days == 1 then "" else "s") + (", " + clock)))
  }

  lemma NoDayRoundTrip(clock: string)
    requires ',' !in clock
    ensures ParseDurationText(DayClock(0, clock)) == ParseClockText(clock)
  {
    assert SplitFirst(clock, ',').None?;
  }

  lemma DaysRoundTrip(days: nat, clock: string, secs: nat, n: nat)
    requires days > 0 && ',' !in clock && ParseClockText(clock) == Some(secs) && n == days * 86400 + secs
    ensures ParseDurationText(DayClock(days, clock)) == Some(n)
  {
    NatToStringValue(days);
    DayPrefix(days, clock);
    DayFieldsValue(NatToString(days), days, "day" + (if days == 1 then "" else "s"), clock, secs, n);
  }

  lemma DayClockRoundTrip(days: nat, clock: string, secs: nat, n: nat)
    requires ',' !in clock && ParseClockText(clock) == Some(secs) && n == days * 86400 + secs
    ensures ParseDurationText(DayClock(days, clock)) == Some(n)
  {
    if days > 0 {
      DaysRoundTrip(days, clock, secs, n);
    } else {
      NoDayRoundTrip(clock);
    }
  }

  /** Python's `str(timedelta(seconds=n))` reads back as `n`. */
  lemma DurationTextRoundTrip(n: nat)
    ensures ParseDurationText(DurationText(n)) == Some(n)
  {
    var hh, mm, ss := n % 86400 / 3600, n % 86400 % 3600 / 60, n % 86400 % 60;
    DayArithmetic(n, hh, mm, ss);
    var secs := hh * 3600 + mm * 60 + ss;
    ClockPartRoundTrip(hh, mm, ss, secs);
    ClockPartNoComma(hh, mm, ss);
    DayClockRoundTrip(n / 86400, ClockPart(hh, mm, ss), secs, n);
  }
}
