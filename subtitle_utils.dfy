/** Time formatting and the Text2SRT cue record of utils/subtitle_utils.py. */
module SubtitleUtils {
  import opened Wrappers
  import opened Decimal
  import opened PyStr

  // ---------------------------------------------------------------------
  // time_convert
  // ---------------------------------------------------------------------

  /** One of the hour, minute and second fields: "00" for zero, otherwise
      `str(n)` with one '0' put in front when that is a single digit. */
  function Field(n: nat): (f: string)
    ensures |f| >= 2 && AllDigits(f) && ParseNat(f) == n
    ensures (|f| == 2) == (n < 100)
  {
    var t := if n == 0 then "00" else NatToString(n);
    NatToStringLength(n);
    ParseNatToString(n);
    if |t| == 1 then ParseNatLeadingZero(t); "0" + t else t
  }

  /** `time_convert(ms)` for an integer `ms >= 0`. The millisecond part is
      `str(ms % 1000)` with no padding. The result is at least ten
      characters long (two-digit fields and a one-digit tail at the
      least) and holds only digits, ':' and ','; `TimeConvertLayout` says
      where each field is and `TimeConvertRoundTrip` that it reads back. */
  function TimeConvert(ms: nat): (r: string)
    ensures |r| >= 10
    ensures forall i :: 0 <= i < |r| ==> IsTimeChar(r[i])
  {
    var tail := ms % 1000;
    var s := ms / 1000;
    var mi := s / 60;
    var sec := s % 60;
    var h := mi / 60;
    var m := mi % 60;
    TimeChars(Field(h), Field(m), Field(sec), NatToString(tail));
    Field(h) + ":" + Field(m) + ":" + Field(sec) + "," + NatToString(tail)
  }

  /** Positions of the separators in `hh:mm:ss,tail` when the minute and
      second fields are two characters wide. */
  lemma FieldsAt(hh: string, mm: string, ss: string, tail: string)
    requires |mm| == 2 && |ss| == 2
    ensures var r := hh + ":" + mm + ":" + ss + "," + tail;
            var k := |hh|;
            && |r| == k + 7 + |tail|
            && r[k] == ':' && r[k + 3] == ':' && r[k + 6] == ','
            && r[..k] == hh && r[k + 1..k + 3] == mm && r[k + 4..k + 6] == ss && r[k + 7..] == tail
  {
  }

  /** The successive divisions of `time_convert` in terms of `ms` alone. */
  lemma TimeArithmetic(ms: nat)
    ensures ms / 1000 / 60 / 60 == ms / 3600000
    ensures ms / 1000 / 60 % 60 == ms / 60000 % 60
    ensures (ms / 3600000 < 100) == (ms < 360000000)
    ensures TotalMs(ms / 3600000, ms / 60000 % 60, ms / 1000 % 60, ms % 1000) == ms
  {
  }

  /** Where the fields of `TimeConvert(ms)` are and what they hold: with `k`
      the width of the hour field, the result is
      hours ':' minutes ':' seconds ',' milliseconds. The fields read as the
      source's successive divisions (whole hours, minutes modulo 60, seconds
      modulo 60); the hour field has at least two digits (exactly two below
      100 hours, never capped), the minute and second fields exactly two;
      the millisecond field is `str(ms % 1000)`: one to three digits, three
      only when the remainder is at least 100. */
  lemma TimeConvertLayout(ms: nat)
    ensures var tail := NatToString(ms % 1000);
            var k := |TimeConvert(ms)| - |tail| - 7;
            && 1 <= |tail| <= 3 && (|tail| == 3 <==> ms % 1000 >= 100)
            && k >= 2 && (k == 2 <==> ms < 360000000)
            && TimeLayout(TimeConvert(ms), k, ms / 1000 / 60 / 60, ms / 1000 / 60 % 60, ms / 1000 % 60, tail)
  {
    NatToStringLength(ms % 1000);
    assert (ms / 1000 / 60 / 60 < 100) == (ms < 360000000);
    var h, m, s := ms / 1000 / 60 / 60, ms / 1000 / 60 % 60, ms / 1000 % 60;
    FieldsLayout(Field(h), Field(m), Field(s), NatToString(ms % 1000), h, m, s);
  }

  /** `r` is `hh:mm:ss,tail` with an hour field `k` characters wide: the
      separators sit at `k`, `k + 3` and `k + 6`, the three fields are
      digits that read as `h`, `m` and `s`, and `tail` follows the comma. */
  predicate TimeLayout(r: string, k: nat, h: nat, m: nat, s: nat, tail: string) {
    && |r| == k + 7 + |tail|
    && r[k] == ':' && r[k + 3] == ':' && r[k + 6] == ','
    && AllDigits(r[..k]) && ParseNat(r[..k]) == h
    && AllDigits(r[k + 1..k + 3]) && ParseNat(r[k + 1..k + 3]) == m
    && AllDigits(r[k + 4..k + 6]) && ParseNat(r[k + 4..k + 6]) == s
    && r[k + 7..] == tail
  }

  /** Digit fields that read as `h`, `m` and `s`, joined as the source
      joins them, have that layout. */
  lemma FieldsLayout(hh: string, mm: string, ss: string, tail: string, h: nat, m: nat, s: nat)
    requires |mm| == 2 && |ss| == 2 && AllDigits(hh) && AllDigits(mm) && AllDigits(ss)
    requires ParseNat(hh) == h && ParseNat(mm) == m && ParseNat(ss) == s
    ensures TimeLayout(hh + ":" + mm + ":" + ss + "," + tail, |hh|, h, m, s, tail)
  {
    FieldsAt(hh, mm, ss, tail);
  }

  /** The millisecond field is not padded to three digits: five
      milliseconds render as "00:00:00,5", not "00:00:00,005". */
  lemma TimeConvertFiveMs()
    ensures TimeConvert(5) == "00:00:00,5"
  {
    assert NatToString(5) == "5";
    assert Field(0) == "00";
  }

  /** Hours are not capped: 100 hours widen the hour field to three digits. */
  lemma TimeConvertHundredHours()
    ensures TimeConvert(360000000) == "100:00:00,0"
  {
    assert 360000000 / 1000 / 60 / 60 == 100;
    assert NatToString(1) == "1";
    assert NatToString(10) == "10";
    assert NatToString(100) == "100";
    assert Field(100) == "100";
    assert Field(0) == "00";
    assert NatToString(0) == "0";
  }

  /** All characters of a formatted time are digits, ':' or ','. */
  predicate IsTimeChar(c: char) {
    IsDigit(c) || c == ':' || c == ','
  }

  lemma TimeChars(hh: string, mm: string, ss: string, tail: string)
    requires AllDigits(hh) && AllDigits(mm) && AllDigits(ss) && AllDigits(tail)
    ensures var hms := hh + ":" + mm + ":" + ss;
            && (forall i | 0 <= i < |hms| :: IsDigit(hms[i]) || hms[i] == ':')
            && (forall i | 0 <= i < |hms + "," + tail| :: IsTimeChar((hms + "," + tail)[i]))
  {
    var hms := hh + ":" + mm + ":" + ss;
    forall i | 0 <= i < |hms| ensures IsDigit(hms[i]) || hms[i] == ':' {
      if i < |hh| { assert hms[i] == hh[i]; }
      else if i == |hh| { }
      else if i < |hh| + 1 + |mm| { assert hms[i] == mm[i - |hh| - 1]; }
      else if i == |hh| + 1 + |mm| { }
      else { assert hms[i] == ss[i - |hh| - |mm| - 2]; }
    }
    var r := hms + "," + tail;
    forall i | 0 <= i < |r| ensures IsTimeChar(r[i]) {
      if i < |hms| { assert r[i] == hms[i]; }
      else if i == |hms| { }
      else { assert r[i] == tail[i - |hms| - 1]; }
    }
  }

  /** A string of one or more ASCII digits: the strings `int()` is given here. */
  predicate IsNumeral(s: string) {
    |s| >= 1 && AllDigits(s)
  }

  /** `parse_srt_time_to_ms` of the time-format tests: split on ',' into a
      time part and a millisecond part, split the time part on ':' into
      hours, minutes and seconds, and combine. `None` where the Python
      helper raises (wrong number of parts, a part that is not a numeral). */
  function ParseSrtTime(t: string): Option<nat> {
    var parts := Split(t, ',');
    if |parts| != 2 then None else ParseFields(Split(parts[0], ':'), parts[1])
  }

  /** The second half of `parse_srt_time_to_ms`: `h, m, s = map(int, ...)`
      and the total. */
  function ParseFields(hms: seq<string>, tail: string): Option<nat> {
    if |hms| != 3 || !IsNumeral(hms[0]) || !IsNumeral(hms[1]) || !IsNumeral(hms[2]) || !IsNumeral(tail)
    then None
    else Some(TotalMs(ParseNat(hms[0]), ParseNat(hms[1]), ParseNat(hms[2]), ParseNat(tail)))
  }

  /** `(h * 3600 + m * 60 + s) * 1000 + ms`, the total the tests' parser computes. */
  function TotalMs(h: nat, m: nat, s: nat, ms: nat): nat {
    (h * 3600 + m * 60 + s) * 1000 + ms
  }

  lemma DigitsHaveNoSeparator(s: string)
    requires AllDigits(s)
    ensures ':' !in s && ',' !in s && ' ' !in s && '\n' !in s
  {
    assert forall i | 0 <= i < |s| :: s[i] != ':' && s[i] != ',' && s[i] != ' ' && s[i] != '\n';
  }

  lemma ParseSplitComma(t: string, hms: string, tail: string)
    requires Split(t, ',') == [hms, tail]
    ensures ParseSrtTime(t) == ParseFields(Split(hms, ':'), tail)
  {
  }

  lemma ParseNumerals(hh: string, mm: string, ss: string, tail: string)
    requires IsNumeral(hh) && IsNumeral(mm) && IsNumeral(ss) && IsNumeral(tail)
    ensures ParseFields([hh, mm, ss], tail) == Some(TotalMs(ParseNat(hh), ParseNat(mm), ParseNat(ss), ParseNat(tail)))
  {
    var fields := [hh, mm, ss];
    assert fields[0] == hh && fields[1] == mm && fields[2] == ss;
  }

  /** The tests' parser on four numerals joined as `hh:mm:ss,tail`. */
  lemma ParseSrtTimeFields(hh: string, mm: string, ss: string, tail: string)
    requires IsNumeral(hh) && IsNumeral(mm) && IsNumeral(ss) && IsNumeral(tail)
    ensures ParseSrtTime(hh + ":" + mm + ":" + ss + "," + tail)
         == Some(TotalMs(ParseNat(hh), ParseNat(mm), ParseNat(ss), ParseNat(tail)))
  {
    DigitsHaveNoSeparator(hh);
    DigitsHaveNoSeparator(mm);
    DigitsHaveNoSeparator(ss);
    DigitsHaveNoSeparator(tail);
    var hms := hh + [':'] + (mm + [':'] + ss);
    TimeChars(hh, mm, ss, tail);
    assert hms == hh + ":" + mm + ":" + ss;
    assert ',' !in hms by {
      assert forall i | 0 <= i < |hms| :: hms[i] != ',';
    }
    var t := hh + ":" + mm + ":" + ss + "," + tail;
    assert t == hms + [','] + tail;
    assert Split(t, ',') == [hms, tail] by {
      SplitAtFirst(hms, ',', tail);
      SplitNoSeparator(tail, ',');
    }
    assert Split(hms, ':') == [hh, mm, ss] by {
      SplitAtFirst(hh, ':', mm + [':'] + ss);
      SplitAtFirst(mm, ':', ss);
      SplitNoSeparator(ss, ':');
    }
    ParseSplitComma(t, hms, tail);
    ParseNumerals(hh, mm, ss, tail);
  }

  /** Reading a formatted time back with the tests' parser gives the
      milliseconds that were formatted, for every `ms >= 0`. */
  lemma TimeConvertRoundTrip(ms: nat)
    ensures ParseSrtTime(TimeConvert(ms)) == Some(ms)
  {
    TimeArithmetic(ms);
    var hh, mm, ss := Field(ms / 1000 / 60 / 60), Field(ms / 1000 / 60 % 60), Field(ms / 1000 % 60);
    ParseSrtTimeFields(hh, mm, ss, NatToString(ms % 1000));
    ParseNatToString(ms % 1000);
  }

  // ---------------------------------------------------------------------
  // Text2SRT
  // ---------------------------------------------------------------------

  /** What `Text2SRT` is given as text: a plain string or a token list. */
  datatype TokenList = Plain(s: string) | Tokens(words: seq<string>)

  /** A `Text2SRT` object. Its fields are set once, in `__init__`; the
      start and end are non-negative here (see `NewText2Srt`). */
  datatype Text2Srt = Text2Srt(
    tokenList: TokenList,
    timestamp: seq<(int, int)>,
    startSec: nat,
    endSec: nat,
    startTime: string,
    endTime: string)

  /** The record invariant: the two time strings are the formatted start
      and end. */
  predicate Valid(t: Text2Srt) {
    t.startTime == TimeConvert(t.startSec) && t.endTime == TimeConvert(t.endSec)
  }

  /** `Text2SRT(text, timestamp, offset)`: the start is the first interval's
      start and the end the last interval's end, both shifted by `offset`;
      the record is `Valid`, so its time strings read back to the start and
      end (`ValidTimesReadBack`). */
  function NewText2Srt(text: TokenList, timestamp: seq<(int, int)>, offset: int): (t: Text2Srt)
    requires |timestamp| >= 1
    requires timestamp[0].0 - offset >= 0 && timestamp[|timestamp| - 1].1 - offset >= 0
    ensures t.tokenList == text && t.timestamp == timestamp
    ensures t.startSec == timestamp[0].0 - offset
    ensures t.endSec == timestamp[|timestamp| - 1].1 - offset
    ensures Valid(t)
  {
    var start, end := timestamp[0].0 - offset, timestamp[|timestamp| - 1].1 - offset;
    Text2Srt(text, timestamp, start, end, TimeConvert(start), TimeConvert(end))
  }

  /** The `start_time` and `end_time` strings of a record read back to its
      `start_sec` and `end_sec`. */
  lemma ValidTimesReadBack(t: Text2Srt)
    requires Valid(t)
    ensures ParseSrtTime(t.startTime) == Some(t.startSec)
    ensures ParseSrtTime(t.endTime) == Some(t.endSec)
  {
    TimeConvertRoundTrip(t.startSec);
    TimeConvertRoundTrip(t.endSec);
  }

  /** Whether `text()` treats a token as CJK: its first character lies in
      U+4E00..U+9FFE, whatever follows it, or it is the one-character token
      U+9FFF. `CjkWordIsComparison` shows this is the source's test. */
  predicate IsCjkWord(w: string) {
    |w| >= 1 && '\U{4e00}' <= w[0] && (w[0] < '\U{9fff}' || (w[0] == '\U{9fff}' && |w| == 1))
  }

  /** The source's test `'\u4e00' <= word <= '\u9fff'` on a whole token,
      which Python decides by comparing strings lexicographically, is
      `IsCjkWord`. */
  lemma CjkWordIsComparison(w: string)
    ensures IsCjkWord(w) <==> StrLe("\U{4e00}", w) && StrLe(w, "\U{9fff}")
  {
    var lo, hi := "\U{4e00}", "\U{9fff}";
    assert |lo| == 1 && lo[0] == '\U{4e00}' && lo[1..] == [];
    assert |hi| == 1 && hi[0] == '\U{9fff}' && hi[1..] == [];
    if |w| >= 1 {
      assert StrLe(lo, w) == (lo[0] <= w[0]);
      if w[0] == hi[0] {
        assert StrLe(w, hi) == StrLe(w[1..], []);
        assert StrLe(w[1..], []) == (|w| == 1);
      } else {
        assert StrLe(w, hi) == (w[0] < hi[0]);
      }
    }
  }

  /** The contribution of one token in `text()`: a CJK token as it is,
      any other token after one space. */
  function Piece(w: string): string {
    if IsCjkWord(w) then w else " " + w
  }

  /** The string `text()` has built before its final `lstrip()`. */
  function Joined(words: seq<string>): string
    decreases |words|
  {
    if words == [] then "" else Joined(words[..|words| - 1]) + Piece(words[|words| - 1])
  }

  /** `Text2SRT.text()` as a value. */
  function Text(t: TokenList): string {
    match t
    case Plain(s) => s
    case Tokens(words) => LStrip(Joined(words))
  }

  /** `Text2SRT.text()`: a string is returned unchanged; a token list is
      joined left to right and then left-stripped. */
  method TextOf(t: Text2Srt) returns (r: string)
    ensures r == Text(t.tokenList)
    ensures t.tokenList.Plain? ==> r == t.tokenList.s
    ensures t.tokenList.Tokens? ==> r == [] || !IsSpace(r[0])
  {
    match t.tokenList
    case Plain(s) =>
      r := s;
    case Tokens(words) =>
      var res := "";
      for i := 0 to |words|
        invariant res == Joined(words[..i])
      {
        assert words[..i + 1][..i] == words[..i];
        if IsCjkWord(words[i]) {
          res := res + words[i];
        } else {
          res := res + " " + words[i];
        }
      }
      assert words[..|words|] == words;
      r := LStrip(res);
  }

  /** Concatenation of the tokens with nothing between them. */
  function Concat(words: seq<string>): string
    decreases |words|
  {
    if words == [] then "" else Concat(words[..|words| - 1]) + words[|words| - 1]
  }

  /** The tokens with one space between neighbours. */
  function JoinSpaced(words: seq<string>): string
    decreases |words|
  {
    if words == [] then ""
    else if |words| == 1 then words[0]
    else JoinSpaced(words[..|words| - 1]) + " " + words[|words| - 1]
  }

  lemma {:induction false} JoinedAllCjk(words: seq<string>)
    requires forall i :: 0 <= i < |words| ==> IsCjkWord(words[i])
    ensures Joined(words) == Concat(words)
    ensures Concat(words) == [] || (IsCjkWord(words[0]) && Concat(words)[0] == words[0][0])
    decreases |words|
  {
    if words != [] {
      var init := words[..|words| - 1];
      JoinedAllCjk(init);
      if init != [] { assert init[0] == words[0]; }
    }
  }

  /** A token list of CJK tokens renders as their plain concatenation. */
  lemma TextAllCjk(words: seq<string>)
    requires forall i :: 0 <= i < |words| ==> IsCjkWord(words[i])
    ensures Text(Tokens(words)) == Concat(words)
  {
    JoinedAllCjk(words);
    var c := Concat(words);
    if c != [] {
      CjkIsNotSpace(c[0]);
    }
    LStripKeeps(c);
  }

  /** No character of the CJK range is whitespace. */
  lemma CjkIsNotSpace(c: char)
    requires '\U{4e00}' <= c
    ensures !IsSpace(c)
  {
  }

  lemma {:induction false} JoinedNoCjk(words: seq<string>)
    requires words != []
    requires forall i :: 0 <= i < |words| ==> !IsCjkWord(words[i])
    ensures Joined(words) == " " + JoinSpaced(words)
    decreases |words|
  {
    if |words| > 1 {
      JoinedNoCjk(words[..|words| - 1]);
    }
  }

  /** A token list with no CJK token, whose first token starts with a
      non-space character, renders as the tokens joined by single spaces. */
  lemma TextNoCjk(words: seq<string>)
    requires words != [] && words[0] != [] && !IsSpace(words[0][0])
    requires forall i :: 0 <= i < |words| ==> !IsCjkWord(words[i])
    ensures Text(Tokens(words)) == JoinSpaced(words)
  {
    JoinedNoCjk(words);
    JoinSpacedHead(words);
    LStripSpace(JoinSpaced(words));
    LStripKeeps(JoinSpaced(words));
  }

  lemma {:induction false} JoinSpacedHead(words: seq<string>)
    requires words != [] && words[0] != []
    ensures JoinSpaced(words) != [] && JoinSpaced(words)[0] == words[0][0]
    decreases |words|
  {
    if |words| > 1 {
      JoinSpacedHead(words[..|words| - 1]);
    }
  }

  /** `Text2SRT.srt()` with `acc_ost = 0`: the time line and the text line
      of a cue. */
  function Srt(t: Text2Srt): (r: string)
    ensures |r| == |TimeConvert(t.startSec)| + |TimeConvert(t.endSec)| + |Text(t.tokenList)| + 7
    ensures r[|r| - 1] == '\n'
  {
    SrtBlock(t.startSec, t.endSec, Text(t.tokenList))
  }

  /** The two lines `srt()` writes: "start --> end" and the text, each
      ended by a newline; besides the two times and the text there are
      exactly seven characters (" --> " and two newlines). */
  function SrtBlock(startSec: nat, endSec: nat, text: string): (r: string)
    ensures |r| == |TimeConvert(startSec)| + |TimeConvert(endSec)| + |text| + 7
    ensures r[|r| - 1] == '\n'
  {
    TimeConvert(startSec) + " --> " + TimeConvert(endSec) + "\n" + text + "\n"
  }

  /** The first line of `srt()` is "start --> end"; its two times read back
      to the record's start and end. */
  lemma SrtTimeLine(t: Text2Srt)
    ensures var line := Split(Srt(t), '\n')[0];
            var words := Split(line, ' ');
            |words| == 3 && words[1] == "-->" &&
            ParseSrtTime(words[0]) == Some(t.startSec) &&
            ParseSrtTime(words[2]) == Some(t.endSec)
  {
    var a, b := TimeConvert(t.startSec), TimeConvert(t.endSec);
    TimeConvertRoundTrip(t.startSec);
    TimeConvertRoundTrip(t.endSec);
    TimeHasNoBlank(t.startSec);
    TimeHasNoBlank(t.endSec);
    ArrowLine(a, b, Text(t.tokenList));
  }

  /** `a + " --> " + b + "\n" + text + "\n"` splits back into `a`, "-->" and
      `b` when neither time holds a blank or a newline. */
  lemma ArrowLine(a: string, b: string, text: string)
    requires ' ' !in a && '\n' !in a && ' ' !in b && '\n' !in b
    ensures var words := Split(Split(a + " --> " + b + "\n" + text + "\n", '\n')[0], ' ');
            words == [a, "-->", b]
  {
    var line := a + " --> " + b;
    assert '\n' !in line by {
      assert forall i | 0 <= i < |line| :: line[i] != '\n' by {
        forall i | 0 <= i < |line| ensures line[i] != '\n' {
          if i < |a| { assert line[i] == a[i]; }
          else if i >= |a| + 5 { assert line[i] == b[i - |a| - 5]; }
        }
      }
    }
    assert a + " --> " + b + "\n" + text + "\n" == line + ['\n'] + (text + "\n");
    SplitAtFirst(line, '\n', text + "\n");
    assert line == a + [' '] + ("-->" + [' '] + b);
    SplitAtFirst(a, ' ', "-->" + [' '] + b);
    SplitAtFirst("-->", ' ', b);
    SplitNoSeparator(b, ' ');
  }

  lemma TimeHasNoBlank(ms: nat)
    ensures ' ' !in TimeConvert(ms) && '\n' !in TimeConvert(ms)
  {
    var r := TimeConvert(ms);
    var hh, mm, ss := Field(ms / 1000 / 60 / 60), Field(ms / 1000 / 60 % 60), Field(ms / 1000 % 60);
    TimeChars(hh, mm, ss, NatToString(ms % 1000));
    assert forall i | 0 <= i < |r| :: r[i] != ' ' && r[i] != '\n';
  }
}
