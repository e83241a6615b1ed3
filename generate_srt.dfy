/** `generate_srt` of utils/subtitle_utils.py: one greedy left-to-right pass
    that folds consecutive same-speaker sentences into cues and renders the
    cues as numbered subtitle blocks. */
module GenerateSrt {
  import opened Wrappers
  import opened PyErrors
  import opened Decimal
  import opened PyStr
  import opened SubtitleUtils

  /** One recognised sentence: `text`, `timestamp` (a list of intervals) and
      `spk`, `None` when the sentence has no speaker. */
  datatype Sentence = Sentence(text: string, timestamp: seq<(nat, nat)>, spk: Option<nat>)

  /** The open cue of the pass: `current_spk`, `current_start`,
      `current_end` and `current_text`. */
  datatype Cue = Cue(spk: Option<nat>, start: nat, end: nat, text: string)

  predicate HasInterval(x: Sentence) {
    |x.timestamp| >= 1
  }

  predicate Shaped(s: seq<Sentence>) {
    forall i :: 0 <= i < |s| ==> HasInterval(s[i])
  }

  /** `timestamp[0][0]`: only the first interval is read. */
  function Start(x: Sentence): nat
    requires HasInterval(x)
  {
    x.timestamp[0].0
  }

  /** `timestamp[0][1]`: the end of the FIRST interval, not of the last. */
  function End(x: Sentence): nat
    requires HasInterval(x)
  {
    x.timestamp[0].1
  }

  /** A cue opened on one sentence. */
  function Open(x: Sentence): Cue
    requires HasInterval(x)
  {
    Cue(x.spk, Start(x), End(x), x.text)
  }

  /** The merge test: same speaker (an absent speaker equals only an absent
      one) and a gap from the open cue's end of at most the threshold. */
  predicate Joins(c: Cue, x: Sentence, threshold: int)
    requires HasInterval(x)
  {
    x.spk == c.spk && Start(x) - c.end <= threshold
  }

  /** Folding a sentence into the open cue: its end overwrites the cue's
      end, its text is appended after one space; start and speaker stay. */
  function Fold(c: Cue, x: Sentence): Cue
    requires HasInterval(x)
  {
    Cue(c.spk, c.start, End(x), c.text + " " + x.text)
  }

  /** The cues the pass emits from open cue `c` over the remaining
      sentences `rest`, the final open cue included. */
  function MergeFrom(c: Cue, rest: seq<Sentence>, threshold: int): (cues: seq<Cue>)
    requires Shaped(rest)
    ensures 1 <= |cues| <= |rest| + 1
    ensures cues[0].spk == c.spk && cues[0].start == c.start
    decreases |rest|
  {
    if rest == [] then [c]
    else if Joins(c, rest[0], threshold) then MergeFrom(Fold(c, rest[0]), rest[1..], threshold)
    else [c] + MergeFrom(Open(rest[0]), rest[1..], threshold)
  }

  /** The cues of the whole pass: none for no sentence, else one per
      maximal run (see `MergeIsRuns`), never more than there are sentences. */
  function Merge(s: seq<Sentence>, threshold: int): (cues: seq<Cue>)
    requires Shaped(s)
    ensures |cues| <= |s| && (cues == [] <==> s == [])
  {
    if s == [] then [] else MergeFrom(Open(s[0]), s[1..], threshold)
  }

  lemma {:induction false} MergeFromLastEnd(c: Cue, rest: seq<Sentence>, threshold: int)
    requires Shaped(rest)
    ensures var cues := MergeFrom(c, rest, threshold);
            cues[|cues| - 1].end == if rest == [] then c.end else End(rest[|rest| - 1])
    decreases |rest|
  {
    if rest != [] {
      assert rest[1..] != [] ==> rest[1..][|rest[1..]| - 1] == rest[|rest| - 1];
      if Joins(c, rest[0], threshold) {
        MergeFromLastEnd(Fold(c, rest[0]), rest[1..], threshold);
      } else {
        MergeFromLastEnd(Open(rest[0]), rest[1..], threshold);
      }
    }
  }

  /** The cues span the sentences: the first cue has the first sentence's
      speaker and start, the last cue ends where the last sentence's first
      interval ends. */
  lemma MergeSpan(s: seq<Sentence>, threshold: int)
    requires Shaped(s) && s != []
    ensures var cues := Merge(s, threshold);
            cues[0].spk == s[0].spk && cues[0].start == Start(s[0]) &&
            cues[|cues| - 1].end == End(s[|s| - 1])
  {
    MergeFromLastEnd(Open(s[0]), s[1..], threshold);
  }

  // ---------------------------------------------------------------------
  // Rendering
  // ---------------------------------------------------------------------

  /** The index line of a cue; the speaker tag follows the index after two
      spaces. */
  function HeaderLine(index: nat, spk: Option<nat>): string {
    match spk
    case Some(k) => NatToString(index) + "  <|spk" + NatToString(k) + "|>"
    case None => NatToString(index)
  }

  /** `"{}  <|spk{}|>\n{}\n".format(index, spk, t2s.srt())`, or
      `"{}\n{}\n".format(index, t2s.srt())` without a speaker. */
  function RenderCue(index: nat, c: Cue): string
  {
    HeaderLine(index, c.spk) + "\n" + SrtBlock(c.start, c.end, c.text) + "\n"
  }

  /** The record the pass builds for a cue, `Text2SRT(current_text,
      [(current_start, current_end)])`, writes the cue's start, end and
      text. */
  lemma CueRecord(c: Cue)
    ensures var t2s := NewText2Srt(Plain(c.text), [(c.start, c.end)], 0);
            Srt(t2s) == SrtBlock(c.start, c.end, c.text)
  {
  }

  /** The cues rendered one after another, numbered from `first`. */
  function RenderFrom(cues: seq<Cue>, first: nat): string
    decreases |cues|
  {
    if cues == [] then ""
    else RenderFrom(cues[..|cues| - 1], first) + RenderCue(first + |cues| - 1, cues[|cues| - 1])
  }

  function Render(cues: seq<Cue>): string
  {
    RenderFrom(cues, 1)
  }

  /** One step of the pass at sentence `i`: fold it or close the open cue. */
  lemma MergeStep(c: Cue, s: seq<Sentence>, i: nat, threshold: int)
    requires Shaped(s) && 1 <= i < |s|
    ensures Shaped(s[i + 1..])
    ensures MergeFrom(c, s[i..], threshold) ==
      if Joins(c, s[i], threshold) then MergeFrom(Fold(c, s[i]), s[i + 1..], threshold)
      else [c] + MergeFrom(Open(s[i]), s[i + 1..], threshold)
  {
    assert s[i..][0] == s[i] && s[i..][1..] == s[i + 1..];
  }

  /** The pass invariant survives folding sentence `i` into the open cue. */
  lemma PassJoin(done: seq<Cue>, c: Cue, s: seq<Sentence>, i: nat, threshold: int)
    requires Shaped(s) && 1 <= i < |s|
    requires done + MergeFrom(c, s[i..], threshold) == Merge(s, threshold)
    requires Joins(c, s[i], threshold)
    ensures done + MergeFrom(Fold(c, s[i]), s[i + 1..], threshold) == Merge(s, threshold)
  {
    MergeStep(c, s, i, threshold);
  }

  /** The pass invariant survives closing the open cue at sentence `i`. */
  lemma PassBreak(done: seq<Cue>, c: Cue, s: seq<Sentence>, i: nat, threshold: int)
    requires Shaped(s) && 1 <= i < |s|
    requires done + MergeFrom(c, s[i..], threshold) == Merge(s, threshold)
    requires !Joins(c, s[i], threshold)
    ensures (done + [c]) + MergeFrom(Open(s[i]), s[i + 1..], threshold) == Merge(s, threshold)
  {
    MergeStep(c, s, i, threshold);
    assert (done + [c]) + MergeFrom(Open(s[i]), s[i + 1..], threshold)
        == done + ([c] + MergeFrom(Open(s[i]), s[i + 1..], threshold));
  }

  /** Appending the block of a closed cue to the output as the source
      formats it: the output so far renders the cues closed before, and
      afterwards renders them followed by this one. */
  method AppendBlock(total: string, index: nat, c: Cue, ghost done: seq<Cue>) returns (t: string)
    requires total == Render(done) && index == |done| + 1
    ensures t == Render(done + [c])
    ensures |t| > |total|
  {
    var t2s := NewText2Srt(Plain(c.text), [(c.start, c.end)], 0);
    CueRecord(c);
    if c.spk.Some? {
      t := total + (NatToString(index) + "  <|spk" + NatToString(c.spk.value) + "|>" + "\n" + Srt(t2s) + "\n");
    } else {
      t := total + (NatToString(index) + "\n" + Srt(t2s) + "\n");
    }
    assert t == total + RenderCue(index, c);
    assert (done + [c])[..|done|] == done;
  }

  /** One iteration of the pass over a sentence with an interval: fold it
      into the open cue when `Joins` holds, else append the open cue's
      block, bump the index and open a cue on the sentence. The open cue
      holds the source's `current_spk`, `current_start`, `current_end` and
      `current_text`. */
  method Advance(srtTotal: string, index: nat, current: Cue, sent: Sentence, mergeThreshold: int, ghost done: seq<Cue>)
    returns (newTotal: string, newIndex: nat, next: Cue, ghost newDone: seq<Cue>)
    requires HasInterval(sent)
    requires srtTotal == Render(done) && index == |done| + 1
    ensures newTotal == Render(newDone) && newIndex == |newDone| + 1
    ensures Joins(current, sent, mergeThreshold) ==> newDone == done && next == Fold(current, sent)
    ensures !Joins(current, sent, mergeThreshold) ==> newDone == done + [current] && next == Open(sent)
  {
    var sentSpk := sent.spk;
    var sentStart := sent.timestamp[0].0;
    var sentEnd := sent.timestamp[0].1;
    var sentText := sent.text;
    var sameSpeaker := sentSpk == current.spk;
    var timeGap := sentStart as int - current.end as int;
    if sameSpeaker && timeGap <= mergeThreshold {
      newTotal, newIndex, newDone := srtTotal, index, done;
      next := current.(end := sentEnd, text := current.text + " " + sentText);
    } else {
      newTotal := AppendBlock(srtTotal, index, current, done);
      newIndex, newDone := index + 1, done + [current];
      next := Cue(sentSpk, sentStart, sentEnd, sentText);
    }
  }

  /** `generate_srt(sentence_list, merge_threshold)`: the rendering of the
      merged cues, "" for no sentence, and the exception when a sentence has
      no interval. */
  method GenerateSrt(sentenceList: seq<Sentence>, mergeThreshold: int) returns (r: Result<string, Raised>)
    ensures r.Err? <==> !Shaped(sentenceList)
    ensures r.Err? ==> r.error == IndexError
    ensures r.Ok? ==> r.value == Render(Merge(sentenceList, mergeThreshold))
    ensures r == Ok("") <==> sentenceList == []
  {
    var srtTotal := "";
    var index := 1;
    if |sentenceList| == 0 {
      return Ok(srtTotal);
    }
    if |sentenceList[0].timestamp| == 0 {
      return Err(IndexError);
    }
    var current := Open(sentenceList[0]);
    ghost var done: seq<Cue> := [];
    for i := 1 to |sentenceList|
      invariant forall j :: 0 <= j < i ==> HasInterval(sentenceList[j])
      invariant index == |done| + 1
      invariant srtTotal == Render(done)
      invariant Shaped(sentenceList) ==>
        done + MergeFrom(current, sentenceList[i..], mergeThreshold) == Merge(sentenceList, mergeThreshold)
    {
      var sent := sentenceList[i];
      if |sent.timestamp| == 0 {
        return Err(IndexError);
      }
      assert forall j :: 0 <= j < i + 1 ==> HasInterval(sentenceList[j]);
      if Shaped(sentenceList) {
        if Joins(current, sent, mergeThreshold) {
          PassJoin(done, current, sentenceList, i, mergeThreshold);
        } else {
          PassBreak(done, current, sentenceList, i, mergeThreshold);
        }
      }
      srtTotal, index, current, done := Advance(srtTotal, index, current, sent, mergeThreshold, done);
    }
    if Shaped(sentenceList) {
      assert MergeFrom(current, sentenceList[|sentenceList|..], mergeThreshold) == [current];
    }
    srtTotal := AppendBlock(srtTotal, index, current, done);
    return Ok(srtTotal);
  }

  // ---------------------------------------------------------------------
  // A reference definition: one cue per maximal run
  // ---------------------------------------------------------------------

  /** Whether the pass closes a cue at sentence `i`: the decision reads only
      sentence `i` and its predecessor, because a run keeps one speaker and
      its cue's end is the predecessor's end. */
  predicate Break(s: seq<Sentence>, i: nat, threshold: int)
    requires Shaped(s) && 1 <= i < |s|
  {
    !(s[i].spk == s[i - 1].spk && Start(s[i]) - End(s[i - 1]) <= threshold)
  }

  /** The end of the run that contains index `k - 1`: the first break at or
      after `k`, or `|s|`. */
  function RunEnd(s: seq<Sentence>, k: nat, threshold: int): (e: nat)
    requires Shaped(s) && 1 <= k <= |s|
    ensures k <= e <= |s|
    ensures forall i :: k <= i < e ==> !Break(s, i, threshold)
    ensures e < |s| ==> Break(s, e, threshold)
    decreases |s| - k
  {
    if k == |s| || Break(s, k, threshold) then k else RunEnd(s, k + 1, threshold)
  }

  /** The texts of a run joined with single spaces. */
  function JoinTexts(run: seq<Sentence>): string
    requires |run| >= 1
    decreases |run|
  {
    if |run| == 1 then run[0].text else JoinTexts(run[..|run| - 1]) + " " + run[|run| - 1].text
  }

  /** The cue of a run: its first speaker and start, its last sentence's
      end, and all of its texts. */
  function RunCue(run: seq<Sentence>): Cue
    requires Shaped(run) && |run| >= 1
  {
    Cue(run[0].spk, Start(run[0]), End(run[|run| - 1]), JoinTexts(run))
  }

  /** The sentences cut at every break, one cue per piece. */
  function Runs(s: seq<Sentence>, threshold: int): (cues: seq<Cue>)
    requires Shaped(s)
    decreases |s|
  {
    if s == [] then []
    else
      var e := RunEnd(s, 1, threshold);
      [RunCue(s[..e])] + Runs(s[e..], threshold)
  }

  /** A run keeps the speaker of its first sentence. */
  lemma {:induction false} SameSpeakerInRun(s: seq<Sentence>, k: nat, threshold: int)
    requires Shaped(s) && 1 <= k <= |s|
    requires forall i :: 1 <= i < k ==> !Break(s, i, threshold)
    ensures s[k - 1].spk == s[0].spk
    decreases k
  {
    if k > 1 {
      assert !Break(s, k - 1, threshold);
      SameSpeakerInRun(s, k - 1, threshold);
    }
  }

  /** The pass, started on a run `s[..k]` already folded into one cue,
      emits that run's cue extended to its full length, then the runs of
      what follows. */
  lemma {:induction false} MergeFromRun(s: seq<Sentence>, k: nat, threshold: int)
    requires Shaped(s) && 1 <= k <= |s|
    requires forall i :: 1 <= i < k ==> !Break(s, i, threshold)
    ensures Shaped(s[k..])
    ensures var e := RunEnd(s, k, threshold);
            Shaped(s[e..]) &&
            MergeFrom(RunCue(s[..k]), s[k..], threshold) == [RunCue(s[..e])] + Runs(s[e..], threshold)
    decreases |s| - k
  {
    var c := RunCue(s[..k]);
    assert c.spk == s[k - 1].spk by { SameSpeakerInRun(s, k, threshold); }
    if k == |s| {
      assert s[k..] == [];
      assert MergeFrom(c, s[k..], threshold) == [c] + Runs(s[k..], threshold);
    } else {
      MergeStep(c, s, k, threshold);
      assert c.end == End(s[k - 1]);
      if Break(s, k, threshold) {
        var t := s[k..];
        assert t[..1] == [s[k]] && t[1..] == s[k + 1..];
        MergeFromRun(t, 1, threshold);
        assert RunCue(t[..1]) == Open(s[k]);
        assert MergeFrom(c, s[k..], threshold) == [c] + MergeFrom(Open(s[k]), s[k + 1..], threshold);
        assert MergeFrom(Open(s[k]), s[k + 1..], threshold) == Runs(t, threshold);
      } else {
        assert s[..k + 1][..k] == s[..k];
        assert Fold(c, s[k]) == RunCue(s[..k + 1]);
        MergeFromRun(s, k + 1, threshold);
        assert MergeFrom(c, s[k..], threshold) == MergeFrom(RunCue(s[..k + 1]), s[k + 1..], threshold);
      }
    }
  }

  /** The pass and the reference definition agree on every input. */
  lemma MergeIsRuns(s: seq<Sentence>, threshold: int)
    requires Shaped(s)
    ensures Merge(s, threshold) == Runs(s, threshold)
  {
    if s != [] {
      MergeFromRun(s, 1, threshold);
      assert RunCue(s[..1]) == Open(s[0]);
    }
  }

  // ---------------------------------------------------------------------
  // How many cues
  // ---------------------------------------------------------------------

  /** The number of breaks at indices `k` and later. */
  function BreaksFrom(s: seq<Sentence>, k: nat, threshold: int): nat
    requires Shaped(s) && 1 <= k <= |s|
    decreases |s| - k
  {
    if k == |s| then 0 else (if Break(s, k, threshold) then 1 else 0) + BreaksFrom(s, k + 1, threshold)
  }

  lemma {:induction false} BreaksSkip(s: seq<Sentence>, k: nat, e: nat, threshold: int)
    requires Shaped(s) && 1 <= k <= e <= |s|
    requires forall i :: k <= i < e ==> !Break(s, i, threshold)
    ensures BreaksFrom(s, k, threshold) == BreaksFrom(s, e, threshold)
    decreases e - k
  {
    if k < e {
      BreaksSkip(s, k + 1, e, threshold);
    }
  }

  lemma {:induction false} BreaksShift(s: seq<Sentence>, e: nat, j: nat, threshold: int)
    requires Shaped(s) && e < |s| && 1 <= j <= |s| - e
    ensures Shaped(s[e..])
    ensures BreaksFrom(s[e..], j, threshold) == BreaksFrom(s, e + j, threshold)
    decreases |s| - e - j
  {
    var t := s[e..];
    if j < |t| {
      assert t[j] == s[e + j] && t[j - 1] == s[e + j - 1];
      assert Break(t, j, threshold) == Break(s, e + j, threshold);
      BreaksShift(s, e, j + 1, threshold);
    }
  }

  lemma {:induction false} RunsCount(s: seq<Sentence>, threshold: int)
    requires Shaped(s) && s != []
    ensures |Runs(s, threshold)| == 1 + BreaksFrom(s, 1, threshold)
    decreases |s|
  {
    var e := RunEnd(s, 1, threshold);
    BreaksSkip(s, 1, e, threshold);
    if e < |s| {
      RunsCount(s[e..], threshold);
      BreaksShift(s, e, 1, threshold);
    }
  }

  /** The pass emits one cue plus one per break. */
  lemma CueCount(s: seq<Sentence>, threshold: int)
    requires Shaped(s) && s != []
    ensures |Merge(s, threshold)| == 1 + BreaksFrom(s, 1, threshold)
  {
    MergeIsRuns(s, threshold);
    RunsCount(s, threshold);
  }

  lemma {:induction false} BreaksMonotone(s: seq<Sentence>, k: nat, low: int, high: int)
    requires Shaped(s) && 1 <= k <= |s| && low <= high
    ensures BreaksFrom(s, k, high) <= BreaksFrom(s, k, low)
    decreases |s| - k
  {
    if k < |s| {
      BreaksMonotone(s, k + 1, low, high);
    }
  }

  /** A larger merge threshold never yields more cues. */
  lemma MergeThresholdMonotone(s: seq<Sentence>, low: int, high: int)
    requires Shaped(s) && low <= high
    ensures |Merge(s, high)| <= |Merge(s, low)|
  {
    if s != [] {
      CueCount(s, low);
      CueCount(s, high);
      BreaksMonotone(s, 1, low, high);
    }
  }

  /** The number of indices `i >= k` where the speaker changes. */
  function SpeakerChangesFrom(s: seq<Sentence>, k: nat): nat
    requires 1 <= k <= |s|
    decreases |s| - k
  {
    if k == |s| then 0 else (if s[k].spk != s[k - 1].spk then 1 else 0) + SpeakerChangesFrom(s, k + 1)
  }

  lemma {:induction false} SpeakerChangesAreBreaks(s: seq<Sentence>, k: nat, threshold: int)
    requires Shaped(s) && 1 <= k <= |s|
    ensures SpeakerChangesFrom(s, k) <= BreaksFrom(s, k, threshold)
    decreases |s| - k
  {
    if k < |s| {
      SpeakerChangesAreBreaks(s, k + 1, threshold);
    }
  }

  /** Every change of speaker starts a new cue, whatever the threshold. */
  lemma SpeakerChangesSplit(s: seq<Sentence>, threshold: int)
    requires Shaped(s) && s != []
    ensures |Merge(s, threshold)| >= 1 + SpeakerChangesFrom(s, 1)
  {
    CueCount(s, threshold);
    SpeakerChangesAreBreaks(s, 1, threshold);
  }

  // ---------------------------------------------------------------------
  // Maximality and idempotence
  // ---------------------------------------------------------------------

  /** No two neighbouring cues would pass the merge test. */
  predicate Apart(cues: seq<Cue>, threshold: int) {
    forall k :: 1 <= k < |cues| ==>
      !(cues[k].spk == cues[k - 1].spk && cues[k].start - cues[k - 1].end <= threshold)
  }

  lemma {:induction false} MergeFromApart(c: Cue, rest: seq<Sentence>, threshold: int)
    requires Shaped(rest)
    ensures Apart(MergeFrom(c, rest, threshold), threshold)
    decreases |rest|
  {
    if rest != [] {
      if Joins(c, rest[0], threshold) {
        MergeFromApart(Fold(c, rest[0]), rest[1..], threshold);
      } else {
        var m := MergeFrom(Open(rest[0]), rest[1..], threshold);
        MergeFromApart(Open(rest[0]), rest[1..], threshold);
        var r := [c] + m;
        forall k | 1 <= k < |r|
          ensures !(r[k].spk == r[k - 1].spk && r[k].start - r[k - 1].end <= threshold)
        {
          if k > 1 {
            assert r[k] == m[k - 1] && r[k - 1] == m[k - 2];
          }
        }
      }
    }
  }

  /** The cues of the pass are maximal: merging stopped exactly where the
      merge test failed. */
  lemma MergeApart(s: seq<Sentence>, threshold: int)
    requires Shaped(s)
    ensures Apart(Merge(s, threshold), threshold)
  {
    if s != [] {
      MergeFromApart(Open(s[0]), s[1..], threshold);
    }
  }

  /** A cue read back as a sentence with a single interval. */
  function AsSentence(c: Cue): Sentence {
    Sentence(c.text, [(c.start, c.end)], c.spk)
  }

  function AsSentences(cues: seq<Cue>): (s: seq<Sentence>)
    ensures |s| == |cues| && Shaped(s)
    ensures forall k :: 0 <= k < |cues| ==> s[k] == AsSentence(cues[k])
  {
    seq(|cues|, k requires 0 <= k < |cues| => AsSentence(cues[k]))
  }

  lemma {:induction false} MergeFromOfApart(cues: seq<Cue>, i: nat, threshold: int)
    requires Apart(cues, threshold) && i < |cues|
    ensures MergeFrom(cues[i], AsSentences(cues)[i + 1..], threshold) == cues[i..]
    decreases |cues| - i
  {
    var s := AsSentences(cues);
    if i + 1 < |cues| {
      MergeStep(cues[i], s, i + 1, threshold);
      assert Open(s[i + 1]) == cues[i + 1];
      MergeFromOfApart(cues, i + 1, threshold);
      assert cues[i..] == [cues[i]] + cues[i + 1..];
    } else {
      assert s[i + 1..] == [];
    }
  }

  /** Cues that are apart are a fixed point of the pass. */
  lemma MergeOfApart(cues: seq<Cue>, threshold: int)
    requires Apart(cues, threshold)
    ensures Merge(AsSentences(cues), threshold) == cues
  {
    if cues != [] {
      MergeFromOfApart(cues, 0, threshold);
      assert Open(AsSentences(cues)[0]) == cues[0];
    }
  }

  /** Feeding the cues back in, one sentence per cue, changes nothing. */
  lemma MergeIdempotent(s: seq<Sentence>, threshold: int)
    requires Shaped(s)
    ensures Merge(AsSentences(Merge(s, threshold)), threshold) == Merge(s, threshold)
  {
    MergeApart(s, threshold);
    MergeOfApart(Merge(s, threshold), threshold);
  }

  // ---------------------------------------------------------------------
  // No text is lost
  // ---------------------------------------------------------------------

  /** The texts of the cues joined with single spaces. */
  function CueTexts(cues: seq<Cue>): string
    requires |cues| >= 1
    decreases |cues|
  {
    if |cues| == 1 then cues[0].text else cues[0].text + " " + CueTexts(cues[1..])
  }

  /** Each sentence's text preceded by one space. */
  function SpacedTexts(s: seq<Sentence>): string
    decreases |s|
  {
    if s == [] then "" else " " + s[0].text + SpacedTexts(s[1..])
  }

  lemma CueTextsCons(c: Cue, cues: seq<Cue>)
    requires |cues| >= 1
    ensures CueTexts([c] + cues) == c.text + " " + CueTexts(cues)
  {
    assert ([c] + cues)[1..] == cues;
  }

  lemma SpacedAssoc(a: string, b: string, t: string)
    ensures a + " " + b + t == a + (" " + b + t)
    ensures a + " " + (b + t) == a + (" " + b + t)
  {
  }

  lemma {:induction false} MergeFromTexts(c: Cue, rest: seq<Sentence>, threshold: int)
    requires Shaped(rest)
    ensures CueTexts(MergeFrom(c, rest, threshold)) == c.text + SpacedTexts(rest)
    decreases |rest|
  {
    if rest != [] {
      var t := SpacedTexts(rest[1..]);
      assert SpacedTexts(rest) == " " + rest[0].text + t;
      SpacedAssoc(c.text, rest[0].text, t);
      if Joins(c, rest[0], threshold) {
        MergeFromTexts(Fold(c, rest[0]), rest[1..], threshold);
      } else {
        MergeFromTexts(Open(rest[0]), rest[1..], threshold);
        CueTextsCons(c, MergeFrom(Open(rest[0]), rest[1..], threshold));
      }
    }
  }

  /** The cue texts, joined with spaces, are the sentence texts joined with
      spaces, in order: merging loses, adds and reorders no text. */
  lemma MergeKeepsTexts(s: seq<Sentence>, threshold: int)
    requires Shaped(s) && s != []
    ensures CueTexts(Merge(s, threshold)) == s[0].text + SpacedTexts(s[1..])
  {
    MergeFromTexts(Open(s[0]), s[1..], threshold);
  }

  // ---------------------------------------------------------------------
  // Worked examples
  // ---------------------------------------------------------------------

  /** The five sentences of the merge scenario in test_merge_logic.py. */
  function Scenario(): seq<Sentence> {
    [ Sentence("First sentence from speaker 0", [(0, 2000)], Some(0)),
      Sentence("Second sentence from speaker 0", [(2100, 4000)], Some(0)),
      Sentence("Third sentence from speaker 0", [(4050, 6000)], Some(0)),
      Sentence("Different speaker interrupts", [(6500, 8000)], Some(1)),
      Sentence("Back to speaker 0", [(8200, 10000)], Some(0)) ]
  }

  /** Speaker, start and end of each cue. */
  function Spans(cues: seq<Cue>): seq<(Option<nat>, nat, nat)> {
    seq(|cues|, k requires 0 <= k < |cues| => (cues[k].spk, cues[k].start, cues[k].end))
  }

  /** At 1000 ms the three speaker-0 sentences merge into 0..6000. */
  lemma ScenarioAt1000()
    ensures Spans(Merge(Scenario(), 1000)) == [(Some(0), 0, 6000), (Some(1), 6500, 8000), (Some(0), 8200, 10000)]
  {
  }

  /** At 100 ms the result is the same: the 100 ms gap passes the inclusive
      test, and so does the 50 ms gap after it. */
  lemma ScenarioAt100()
    ensures Spans(Merge(Scenario(), 100)) == [(Some(0), 0, 6000), (Some(1), 6500, 8000), (Some(0), 8200, 10000)]
  {
  }

  /** At 50 ms the first gap (100 ms) breaks, but the second (50 ms) still
      merges the second and third sentences. */
  lemma ScenarioAt50()
    ensures Spans(Merge(Scenario(), 50))
         == [(Some(0), 0, 2000), (Some(0), 2100, 6000), (Some(1), 6500, 8000), (Some(0), 8200, 10000)]
  {
  }

  /** Only a sentence's first interval is read: its later intervals do not
      extend the cue. */
  lemma FirstIntervalOnly()
    ensures Spans(Merge([Sentence("a", [(1000, 1500), (1600, 2000), (2100, 3000)], None)], 4000))
         == [(None, 1000, 1500)]
  {
  }

  /** A merged sentence's end overwrites the cue's end even when it is
      earlier than the end it replaces. */
  lemma EndOverwritten()
    ensures Spans(Merge([Sentence("a", [(0, 2000)], Some(0)), Sentence("b", [(2100, 1900)], Some(0))], 1000))
         == [(Some(0), 0, 1900)]
  {
  }
}
