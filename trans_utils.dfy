/** The text and timestamp matching helpers of utils/trans_utils.py:
    `pre_proc`, `proc` and `proc_spk`. */
module TransUtils {
  import opened Wrappers
  import opened PyErrors
  import opened Decimal
  import opened PyStr
  import GenerateSrt

  // ---------------------------------------------------------------------
  // pre_proc
  // ---------------------------------------------------------------------

  /** The nine characters of `PUNC_LIST`. */
  predicate IsPunc(c: char) {
    c == '\U{ff0c}' || c == '\U{3002}' || c == '\U{ff01}' || c == '\U{ff1f}' || c == '\U{3001}' ||
    c == ',' || c == '.' || c == '?' || c == '!'
  }

  /** The test `'一' <= text[i] <= '鿿'` on one character. */
  predicate IsCjk(c: char) {
    '\U{4e00}' <= c <= '\U{9fff}'
  }

  /** What one character adds to `res`: nothing for punctuation, the
      character itself for anything but CJK, and a CJK character with a
      space after it and, unless `res` is empty or already ends in a space,
      a space before it. */
  function PreProcStep(res: string, c: char): string {
    if IsPunc(c) then res
    else if IsCjk(c) then
      if |res| > 0 && res[|res| - 1] != ' ' then res + [' ', c, ' '] else res + [c, ' ']
    else res + [c]
  }

  /** `res` after the loop has read all of `text`. */
  function PreProcLoop(text: string): string
    decreases |text|
  {
    if text == [] then "" else PreProcStep(PreProcLoop(text[..|text| - 1]), text[|text| - 1])
  }

  /** The final step: one trailing space is dropped. */
  function DropTrailingSpace(res: string): (r: string)
    ensures r == res || (res != [] && res[|res| - 1] == ' ' && r == res[..|res| - 1])
  {
    if |res| > 0 && res[|res| - 1] == ' ' then res[..|res| - 1] else res
  }

  function PreProcSpec(text: string): string {
    DropTrailingSpace(PreProcLoop(text))
  }

  /** `pre_proc(text)`. */
  method PreProc(text: string) returns (r: string)
    ensures r == PreProcSpec(text)
  {
    var res := "";
    for i := 0 to |text|
      invariant res == PreProcLoop(text[..i])
    {
      assert text[..i + 1][..i] == text[..i];
      var c := text[i];
      if IsPunc(c) {
        continue;
      }
      if IsCjk(c) {
        if |res| > 0 && res[|res| - 1] != ' ' {
          res := res + [' ', c, ' '];
        } else {
          res := res + [c, ' '];
        }
      } else {
        res := res + [c];
      }
    }
    assert text[..|text|] == text;
    if |res| > 0 && res[|res| - 1] == ' ' {
      res := res[..|res| - 1];
    }
    r := res;
  }

  predicate NoPunc(s: string) {
    forall j :: 0 <= j < |s| ==> !IsPunc(s[j])
  }

  lemma {:induction false} PreProcLoopNoPunc(text: string)
    ensures NoPunc(PreProcLoop(text))
    decreases |text|
  {
    if text != [] {
      PreProcLoopNoPunc(text[..|text| - 1]);
    }
  }

  /** No character of `PUNC_LIST` survives. */
  lemma PreProcNoPunc(text: string)
    ensures NoPunc(PreProcSpec(text))
  {
    PreProcLoopNoPunc(text);
  }

  /** The characters of `s` other than spaces, in order. */
  function DelSpaces(s: string): string
    decreases |s|
  {
    if s == [] then "" else DelSpaces(s[..|s| - 1]) + (if s[|s| - 1] == ' ' then "" else [s[|s| - 1]])
  }

  /** The characters of `s` other than `PUNC_LIST` characters, in order. */
  function DelPunc(s: string): string
    decreases |s|
  {
    if s == [] then "" else DelPunc(s[..|s| - 1]) + (if IsPunc(s[|s| - 1]) then "" else [s[|s| - 1]])
  }

  lemma {:induction false} DelSpacesAppend(a: string, b: string)
    ensures DelSpaces(a + b) == DelSpaces(a) + DelSpaces(b)
    decreases |b|
  {
    if b == [] {
      assert a + b == a;
    } else {
      assert (a + b)[..|a + b| - 1] == a + b[..|b| - 1];
      DelSpacesAppend(a, b[..|b| - 1]);
    }
  }

  /** A non-space character keeps only itself once spaces are deleted,
      with or without spaces around it. */
  lemma SpacedChar(c: char)
    requires c != ' '
    ensures DelSpaces([c]) == [c]
    ensures DelSpaces([c, ' ']) == [c]
    ensures DelSpaces([' ', c, ' ']) == [c]
  {
    assert DelSpaces([' ']) == [];
    assert [c, ' '] == [c] + [' '];
    DelSpacesAppend([c], [' ']);
    assert [' ', c, ' '] == [' '] + [c, ' '];
    DelSpacesAppend([' '], [c, ' ']);
  }

  lemma {:induction false} PreProcLoopSpaces(text: string)
    ensures DelSpaces(PreProcLoop(text)) == DelSpaces(DelPunc(text))
    decreases |text|
  {
    if text != [] {
      var init, c := text[..|text| - 1], text[|text| - 1];
      var res := PreProcLoop(init);
      PreProcLoopSpaces(init);
      DelSpacesAppend(DelPunc(init), if IsPunc(c) then "" else [c]);
      if !IsPunc(c) {
        var added := if IsCjk(c) && |res| > 0 && res[|res| - 1] != ' ' then [' ', c, ' ']
                     else if IsCjk(c) then [c, ' '] else [c];
        assert PreProcLoop(text) == res + added;
        DelSpacesAppend(res, added);
        if c == ' ' {
          assert DelSpaces(added) == DelSpaces([c]) == [];
        } else {
          SpacedChar(c);
        }
      } else {
        assert DelPunc(text) == DelPunc(init);
      }
    }
  }

  /** Only spaces are added or dropped: without its spaces, the output is
      the input without its spaces and its `PUNC_LIST` characters. */
  lemma PreProcOnlySpaces(text: string)
    ensures DelSpaces(PreProcSpec(text)) == DelSpaces(DelPunc(text))
  {
    var res := PreProcLoop(text);
    PreProcLoopSpaces(text);
    if |res| > 0 && res[|res| - 1] == ' ' {
      assert res == res[..|res| - 1] + [' '];
      DelSpacesAppend(res[..|res| - 1], [' ']);
    }
  }

  /** Every CJK character has a space before it, unless it is first, and a
      space after it. */
  predicate CjkSpaced(s: string) {
    forall j :: 0 <= j < |s| && IsCjk(s[j]) ==> (j > 0 ==> s[j - 1] == ' ') && j + 1 < |s| && s[j + 1] == ' '
  }

  lemma {:induction false} PreProcLoopSpaced(text: string)
    ensures CjkSpaced(PreProcLoop(text))
    decreases |text|
  {
    if text != [] {
      var res := PreProcLoop(text[..|text| - 1]);
      PreProcLoopSpaced(text[..|text| - 1]);
      var out := PreProcLoop(text);
      assert out[..|res|] == res;
    }
  }

  /** In the output, every CJK character is preceded by a space unless it
      is the first character, and followed by one unless it is the last. */
  lemma PreProcCjkSpacing(text: string)
    ensures var r := PreProcSpec(text);
            forall j :: 0 <= j < |r| && IsCjk(r[j]) ==>
              (j > 0 ==> r[j - 1] == ' ') && (j < |r| - 1 ==> r[j + 1] == ' ')
  {
    PreProcLoopSpaced(text);
  }

  /** Text without CJK and punctuation passes through, bar one trailing
      space. */
  lemma {:induction false} PreProcLoopPlain(text: string)
    requires forall j :: 0 <= j < |text| ==> !IsCjk(text[j]) && !IsPunc(text[j])
    ensures PreProcLoop(text) == text
    decreases |text|
  {
    if text != [] {
      PreProcLoopPlain(text[..|text| - 1]);
      assert text[..|text| - 1] + [text[|text| - 1]] == text;
    }
  }

  lemma PreProcPlain(text: string)
    requires forall j :: 0 <= j < |text| ==> !IsCjk(text[j]) && !IsPunc(text[j])
    ensures PreProcSpec(text) == DropTrailingSpace(text)
  {
    PreProcLoopPlain(text);
  }

  /** Two CJK characters come out separated by single spaces, with no
      trailing space. */
  lemma PreProcTwoCjk()
    ensures PreProcSpec("\U{4e2d}\U{6587}") == "\U{4e2d} \U{6587}"
  {
    assert PreProcLoop("\U{4e2d}") == "\U{4e2d} " by {
      assert "\U{4e2d}"[..0] == "";
    }
    assert "\U{4e2d}\U{6587}"[..1] == "\U{4e2d}";
  }

  // ---------------------------------------------------------------------
  // proc
  // ---------------------------------------------------------------------

  /** Python's `ts[k]`: a negative index counts from the end; outside
      `-len(ts) .. len(ts) - 1` it raises. */
  function PyAt(ts: seq<(int, int)>, k: int): (r: Option<(int, int)>)
    ensures r.Some? <==> -|ts| <= k < |ts|
    ensures 0 <= k < |ts| ==> r == Some(ts[k])
  {
    if 0 <= k < |ts| then Some(ts[k]) else if -|ts| <= k < 0 then Some(ts[|ts| + k]) else None
  }

  /** The pair appended for a match at `m`: `ti` counts the spaces before the
      match; the pair is the start of word `ti` and the end of word
      `ti + ld - 1`, both times 16. `None` where an index raises. */
  function Hit(raw: string, ts: seq<(int, int)>, ld: nat, m: nat): Option<(int, int)>
    requires m <= |raw|
  {
    var ti := CountChar(raw[..m], ' ');
    var a, b := PyAt(ts, ti), PyAt(ts, (ti + ld) as int - 1);
    if a.Some? && b.Some? then Some((16 * a.value.0, 16 * b.value.1)) else None
  }

  /** A phrase of at least one word needs word `ti + ld - 1` to exist. */
  lemma HitInRange(raw: string, ts: seq<(int, int)>, ld: nat, m: nat)
    requires m <= |raw| && ld >= 1
    ensures Hit(raw, ts, ld, m).Some? <==> CountChar(raw[..m], ' ') + ld - 1 < |ts|
  {
  }

  /** The match positions the loop finds from `offset` on, when the phrase
      has `ld >= 1` words: each search starts `ld` characters after the
      previous match. */
  function MatchesFrom(raw: string, dest: string, offset: nat, ld: nat): (ms: seq<nat>)
    requires ld >= 1
    ensures forall k :: 0 <= k < |ms| ==> offset <= ms[k] <= |raw|
    decreases |raw| + 1 - offset
  {
    var fi := Find(raw, dest, offset);
    if fi == -1 then [] else [fi] + MatchesFrom(raw, dest, fi + ld, ld)
  }

  /** Every one of `ms` is an occurrence of `dest`, and each lies at least
      `ld` characters after the one before it. */
  predicate Spaced(raw: string, dest: string, ld: nat, ms: seq<nat>) {
    && (forall k :: 0 <= k < |ms| ==> OccursAt(raw, dest, ms[k]))
    && (forall j, k :: 0 <= j < k < |ms| ==> ms[j] + ld <= ms[k])
  }

  lemma {:induction false} MatchesSound(raw: string, dest: string, offset: nat, ld: nat)
    requires ld >= 1
    ensures Spaced(raw, dest, ld, MatchesFrom(raw, dest, offset, ld))
    decreases |raw| + 1 - offset
  {
    var fi := Find(raw, dest, offset);
    if fi != -1 {
      MatchesSound(raw, dest, fi + ld, ld);
      var rest := MatchesFrom(raw, dest, fi + ld, ld);
      var ms := [fi] + rest;
      assert MatchesFrom(raw, dest, offset, ld) == ms;
      assert forall k :: 0 < k < |ms| ==> ms[k] == rest[k - 1];
      assert Spaced(raw, dest, ld, ms);
    }
  }

  /** Position `q` lies within the first `ld` characters of one of `ms`. */
  predicate Covered(ms: seq<nat>, ld: nat, q: nat) {
    exists k :: 0 <= k < |ms| && ms[k] <= q < ms[k] + ld
  }

  /** No occurrence is skipped except inside the `ld` characters that
      follow a match. */
  lemma {:induction false} MatchesCover(raw: string, dest: string, offset: nat, ld: nat, q: nat)
    requires ld >= 1 && offset <= q && OccursAt(raw, dest, q)
    ensures Covered(MatchesFrom(raw, dest, offset, ld), ld, q)
    decreases |raw| + 1 - offset
  {
    var fi := Find(raw, dest, offset);
    assert fi != -1 && fi <= q;
    var rest := MatchesFrom(raw, dest, fi + ld, ld);
    var ms := [fi] + rest;
    assert MatchesFrom(raw, dest, offset, ld) == ms;
    if q < fi + ld {
      assert ms[0] <= q < ms[0] + ld;
    } else {
      MatchesCover(raw, dest, fi + ld, ld, q);
      var k :| 0 <= k < |rest| && rest[k] <= q < rest[k] + ld;
      assert ms[k + 1] == rest[k];
    }
  }

  /** Matches may overlap: the search resumes `ld` characters after a
      match, which is inside it when the phrase is longer than `ld`. */
  lemma MatchesOverlap()
    ensures MatchesFrom("a a a", "a a", 0, 2) == [0, 2]
  {
    assert Find("a a a", "a a", 0) == 0 by {
      assert "a a a"[0..3] == "a a";
    }
    assert Find("a a a", "a a", 2) == 2 by {
      assert "a a a"[2..5] == "a a";
    }
    assert Find("a a a", "a a", 4) == -1;
    assert MatchesFrom("a a a", "a a", 4, 2) == [];
  }

  /** The pairs for matches `ms`, in order, or the exception of the first
      match whose words do not exist. */
  function Collect(raw: string, ts: seq<(int, int)>, ld: nat, ms: seq<nat>): Result<seq<(int, int)>, Raised>
    requires forall k :: 0 <= k < |ms| ==> ms[k] <= |raw|
    decreases |ms|
  {
    if ms == [] then Ok([])
    else
      match Collect(raw, ts, ld, ms[..|ms| - 1])
      case Err(e) => Err(e)
      case Ok(v) =>
        match Hit(raw, ts, ld, ms[|ms| - 1])
        case None => Err(IndexError)
        case Some(p) => Ok(v + [p])
  }

  /** An exception on the first matches is the exception of them all. */
  lemma {:induction false} CollectRaises(raw: string, ts: seq<(int, int)>, ld: nat, ms: seq<nat>, extra: seq<nat>)
    requires forall k :: 0 <= k < |ms| ==> ms[k] <= |raw|
    requires forall k :: 0 <= k < |extra| ==> extra[k] <= |raw|
    requires Collect(raw, ts, ld, ms).Err?
    ensures Collect(raw, ts, ld, ms + extra) == Collect(raw, ts, ld, ms)
    decreases |extra|
  {
    if extra == [] {
      assert ms + extra == ms;
    } else {
      var init := extra[..|extra| - 1];
      assert (ms + extra)[..|ms + extra| - 1] == ms + init;
      CollectRaises(raw, ts, ld, ms, init);
    }
  }

  /** `Collect` succeeds exactly when every match has its words, and then
      gives one pair per match, in order; otherwise it raises IndexError. */
  lemma {:induction false} CollectPairs(raw: string, ts: seq<(int, int)>, ld: nat, ms: seq<nat>)
    requires forall k :: 0 <= k < |ms| ==> ms[k] <= |raw|
    ensures var r := Collect(raw, ts, ld, ms);
            && (r.Ok? <==> forall k :: 0 <= k < |ms| ==> Hit(raw, ts, ld, ms[k]).Some?)
            && (r.Ok? ==> |r.value| == |ms| && forall k :: 0 <= k < |ms| ==> r.value[k] == Hit(raw, ts, ld, ms[k]).value)
            && (r.Err? ==> r.error == IndexError)
    decreases |ms|
  {
    if ms != [] {
      var init := ms[..|ms| - 1];
      CollectPairs(raw, ts, ld, init);
      assert forall k :: 0 <= k < |init| ==> init[k] == ms[k];
    }
  }

  /** What `proc` returns: for a phrase of `ld >= 1` words, the pairs of
      all matches; for a phrase with no word (empty or all whitespace),
      nothing when it does not occur, and otherwise the first iteration's
      IndexError or a loop that never ends (`ProcZeroWordsRepeats`). */
  function ProcSpec(raw: string, ts: seq<(int, int)>, dest: string): Result<seq<(int, int)>, Raised> {
    var ld := WordCount(dest);
    if ld >= 1 then Collect(raw, ts, ld, MatchesFrom(raw, dest, 0, ld))
    else
      var fi := Find(raw, dest, 0);
      if fi == -1 then Ok([])
      else if Hit(raw, ts, 0, fi).None? then Err(IndexError)
      else Err(Diverges)
  }

  /** A phrase with no word is exactly an empty or all-whitespace one; for
      it `proc` returns normally only when the phrase does not occur, and
      then returns no pair. */
  lemma ProcNoWord(raw: string, ts: seq<(int, int)>, dest: string)
    requires AllSpace(dest)
    ensures WordCount(dest) == 0
    ensures ProcSpec(raw, ts, dest).Ok? <==> Find(raw, dest, 0) == -1
    ensures ProcSpec(raw, ts, dest).Ok? ==> ProcSpec(raw, ts, dest).value == []
  {
    WordCountZero(dest);
  }

  /** With no word in the phrase, the offset after a match is the match
      itself, and searching from there finds the same match again: the
      loop state repeats and the loop never ends. */
  lemma ProcZeroWordsRepeats(raw: string, dest: string, offset: nat)
    requires WordCount(dest) == 0 && Find(raw, dest, offset) >= 0
    ensures var fi := Find(raw, dest, offset);
            Find(raw, dest, fi + WordCount(dest)) == fi
  {
    var fi := Find(raw, dest, offset);
    assert OccursAt(raw, dest, fi);
  }

  /** One more search extends the matches found so far by the next one. */
  lemma MatchesNext(raw: string, dest: string, ld: nat, before: seq<nat>, prevOffset: nat, mi: seq<nat>, offset: nat)
    requires ld >= 1 && Find(raw, dest, prevOffset) >= 0
    requires mi == before + [Find(raw, dest, prevOffset)] && offset == Find(raw, dest, prevOffset) + ld
    requires MatchesFrom(raw, dest, 0, ld) == before + MatchesFrom(raw, dest, prevOffset, ld)
    ensures MatchesFrom(raw, dest, 0, ld) == mi + MatchesFrom(raw, dest, offset, ld)
  {
    var fi := Find(raw, dest, prevOffset);
    var rest := MatchesFrom(raw, dest, offset, ld);
    assert MatchesFrom(raw, dest, prevOffset, ld) == [fi] + rest;
    AppendAssoc(before, [fi], rest);
  }

  lemma AppendAssoc(a: seq<nat>, b: seq<nat>, c: seq<nat>)
    ensures a + (b + c) == (a + b) + c
  {
  }

  /** A search that finds nothing ends the matches. */
  lemma MatchesDone(raw: string, dest: string, ld: nat, mi: seq<nat>, offset: nat)
    requires ld >= 1 && Find(raw, dest, offset) == -1
    requires MatchesFrom(raw, dest, 0, ld) == mi + MatchesFrom(raw, dest, offset, ld)
    ensures MatchesFrom(raw, dest, 0, ld) == mi
  {
    assert mi + [] == mi;
  }

  /** When the pair of the latest match raises, so does `proc`. */
  lemma ProcRaises(raw: string, ts: seq<(int, int)>, dest: string, mi: seq<nat>, offset: nat)
    requires WordCount(dest) >= 1
    requires MatchesFrom(raw, dest, 0, WordCount(dest)) == mi + MatchesFrom(raw, dest, offset, WordCount(dest))
    requires forall k :: 0 <= k < |mi| ==> mi[k] <= |raw|
    requires Collect(raw, ts, WordCount(dest), mi).Err?
    ensures ProcSpec(raw, ts, dest) == Collect(raw, ts, WordCount(dest), mi)
  {
    var ld := WordCount(dest);
    CollectRaises(raw, ts, ld, mi, MatchesFrom(raw, dest, offset, ld));
  }

  /** The pair for the match at `fi`: `ti` counts the spaces before it, and
      the pair is read from words `ti` and `ti + ld - 1`; `None` where
      either index raises. */
  method MatchPair(rawText: string, timestamp: seq<(int, int)>, ld: nat, fi: nat) returns (p: Option<(int, int)>)
    requires fi <= |rawText|
    ensures p == Hit(rawText, timestamp, ld, fi)
    ensures p.Some? <==> -|timestamp| <= CountChar(rawText[..fi], ' ') < |timestamp| && -|timestamp| <= CountChar(rawText[..fi], ' ') + ld - 1 < |timestamp|
  {
    var ti := CountChar(rawText[..fi], ' ');
    var a, b := PyAt(timestamp, ti), PyAt(timestamp, (ti + ld) as int - 1);
    if a.None? || b.None? {
      return None;
    }
    return Some((16 * a.value.0, 16 * b.value.1));
  }

  /** `proc(raw_text, timestamp, dest_text)`. */
  method Proc(rawText: string, timestamp: seq<(int, int)>, destText: string) returns (r: Result<seq<(int, int)>, Raised>)
    ensures r == ProcSpec(rawText, timestamp, destText)
  {
    var ld := WordCount(destText);
    WordsFromBound(destText, false);
    var mi: seq<nat> := [];
    var ts: seq<(int, int)> := [];
    var offset: nat := 0;
    while true
      invariant offset <= |rawText| + 1
      invariant ld == 0 ==> offset == 0 && mi == []
      invariant ld >= 1 ==> MatchesFrom(rawText, destText, 0, ld) == mi + MatchesFrom(rawText, destText, offset, ld)
      invariant forall k :: 0 <= k < |mi| ==> mi[k] <= |rawText|
      invariant Collect(rawText, timestamp, ld, mi) == Ok(ts)
      decreases |rawText| + 1 - offset
    {
      var fi := Find(rawText, destText, offset);
      if fi == -1 {
        if ld >= 1 {
          MatchesDone(rawText, destText, ld, mi, offset);
        }
        break;
      }
      ghost var before, prevOffset := mi, offset;
      offset := fi + ld;
      mi := mi + [fi];
      if ld >= 1 {
        MatchesNext(rawText, destText, ld, before, prevOffset, mi, offset);
      }
      var pair := MatchPair(rawText, timestamp, ld, fi);
      assert mi[..|mi| - 1] == before;
      if pair.None? {
        if ld >= 1 {
          ProcRaises(rawText, timestamp, destText, mi, offset);
        }
        return Err(IndexError);
      }
      ts := ts + [pair.value];
      if ld == 0 {
        ProcZeroWordsRepeats(rawText, destText, 0);
        return Err(Diverges);
      }
    }
    return Ok(ts);
  }

  // ---------------------------------------------------------------------
  // proc_spk
  // ---------------------------------------------------------------------

  /** `dest_spk[3:]`: empty when `dest_spk` has three characters or fewer. */
  function SpkId(destSpk: string): string {
    if |destSpk| <= 3 then "" else destSpk[3..]
  }

  /** What one sentence contributes: IndexError without an interval,
      KeyError without a speaker, the scaled span when the speaker matches
      and the span is longer than 999, and nothing otherwise. */
  function SpkStep(spkid: string, d: GenerateSrt.Sentence): Result<Option<(int, int)>, Raised> {
    if |d.timestamp| == 0 then Err(IndexError)
    else if d.spk.None? then Err(KeyError)
    else
      var dStart, dEnd := d.timestamp[0].0, d.timestamp[|d.timestamp| - 1].1;
      if NatToString(d.spk.value) == spkid && dEnd as int - dStart as int > 999 then Ok(Some((dStart * 16, dEnd * 16)))
      else Ok(None)
  }

  function ProcSpkSpec(destSpk: string, ds: seq<GenerateSrt.Sentence>): Result<seq<(int, int)>, Raised>
    decreases |ds|
  {
    if ds == [] then Ok([])
    else
      match ProcSpkSpec(destSpk, ds[..|ds| - 1])
      case Err(e) => Err(e)
      case Ok(v) =>
        match SpkStep(SpkId(destSpk), ds[|ds| - 1])
        case Err(e) => Err(e)
        case Ok(o) => Ok(if o.Some? then v + [o.value] else v)
  }

  /** An exception raised on a prefix is the exception of the whole list. */
  lemma ProcSpkRaises(destSpk: string, ds: seq<GenerateSrt.Sentence>, i: nat)
    requires i <= |ds| && ProcSpkSpec(destSpk, ds[..i]).Err?
    ensures ProcSpkSpec(destSpk, ds) == ProcSpkSpec(destSpk, ds[..i])
  {
    ProcSpkAppend(destSpk, ds[..i], ds[i..]);
    assert ds[..i] + ds[i..] == ds;
  }

  /** `proc_spk(dest_spk, sd_sentences)`. */
  method ProcSpk(destSpk: string, sdSentences: seq<GenerateSrt.Sentence>) returns (r: Result<seq<(int, int)>, Raised>)
    ensures r == ProcSpkSpec(destSpk, sdSentences)
  {
    var ts: seq<(int, int)> := [];
    for i := 0 to |sdSentences|
      invariant ProcSpkSpec(destSpk, sdSentences[..i]) == Ok(ts)
    {
      assert sdSentences[..i + 1][..i] == sdSentences[..i];
      var d := sdSentences[i];
      if |d.timestamp| == 0 {
        ProcSpkRaises(destSpk, sdSentences, i + 1);
        return Err(IndexError);
      }
      var dStart := d.timestamp[0].0;
      var dEnd := d.timestamp[|d.timestamp| - 1].1;
      var spkid := SpkId(destSpk);
      if d.spk.None? {
        ProcSpkRaises(destSpk, sdSentences, i + 1);
        return Err(KeyError);
      }
      if NatToString(d.spk.value) == spkid && dEnd as int - dStart as int > 999 {
        ts := ts + [(dStart * 16, dEnd * 16)];
      }
    }
    assert sdSentences[..|sdSentences|] == sdSentences;
    return Ok(ts);
  }

  /** A sentence `proc_spk` cannot read: no interval or no speaker. */
  predicate Unreadable(d: GenerateSrt.Sentence) {
    |d.timestamp| == 0 || d.spk.None?
  }

  /** `proc_spk` raises exactly when some sentence is unreadable; otherwise
      it keeps at most one pair per sentence, each spanning at least
      16000. */
  lemma {:induction false} ProcSpkResult(destSpk: string, ds: seq<GenerateSrt.Sentence>)
    ensures var r := ProcSpkSpec(destSpk, ds);
            && (r.Err? <==> exists k :: 0 <= k < |ds| && Unreadable(ds[k]))
            && (r.Err? ==> r.error != Diverges)
            && (r.Ok? ==> |r.value| <= |ds| && forall k :: 0 <= k < |r.value| ==> r.value[k].1 - r.value[k].0 >= 16000)
    decreases |ds|
  {
    if ds != [] {
      var init := ds[..|ds| - 1];
      ProcSpkResult(destSpk, init);
      assert forall k :: 0 <= k < |init| ==> init[k] == ds[k];
      assert Unreadable(ds[|ds| - 1]) ==> exists k :: 0 <= k < |ds| && Unreadable(ds[k]);
    }
  }

  /** The pairs of a concatenation are the pairs of each part, in order:
      `proc_spk` is an order-preserving filter-map. */
  lemma {:induction false} ProcSpkAppend(destSpk: string, a: seq<GenerateSrt.Sentence>, b: seq<GenerateSrt.Sentence>)
    ensures ProcSpkSpec(destSpk, a + b) ==
      match ProcSpkSpec(destSpk, a)
      case Err(e) => Err(e)
      case Ok(u) =>
        match ProcSpkSpec(destSpk, b)
        case Err(e) => Err(e)
        case Ok(v) => Ok(u + v)
    decreases |b|
  {
    if b == [] {
      assert a + b == a;
      var ra := ProcSpkSpec(destSpk, a);
      assert ra.Ok? ==> ra.value + [] == ra.value;
    } else {
      var init := b[..|b| - 1];
      assert (a + b)[..|a + b| - 1] == a + init;
      assert (a + b)[|a + b| - 1] == b[|b| - 1];
      ProcSpkAppend(destSpk, a, init);
      var ra, rb := ProcSpkSpec(destSpk, a), ProcSpkSpec(destSpk, init);
      if ra.Ok? && rb.Ok? {
        var step := SpkStep(SpkId(destSpk), b[|b| - 1]);
        if step.Ok? && step.value.Some? {
          assert ra.value + rb.value + [step.value.value] == ra.value + (rb.value + [step.value.value]);
        }
      }
    }
  }
}
