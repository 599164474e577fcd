/**
 * The transcription loop of `recognize_speech_from_audio`.
 *
 * The recognizer is abstracted into the stream it yields: one `Block` per
 * `readframes(4000)` call, carrying the byte length of the data read and,
 * when `AcceptWaveform` finalised a result with a `"result"` list, the
 * recognized `(word, start)` pairs. The loop keeps a text buffer (modelled by
 * the list of words appended to it) and a clock `current_time`; for each word
 * it may first write the buffer out as a line `[MM:SS] text` and clear it,
 * then appends the word. At the end a non-blank residue is written, stamped
 * with the clock.
 */
module Transcriber {
  import opened Wrappers
  import opened Strings
  import Waveform

  /** One entry of the recognizer's `"result"` list. */
  datatype WordInfo = WordInfo(word: string, start: real)

  /** One `readframes` call: bytes read, and the finalised words if there were any. */
  datatype Block = Block(size: nat, result: Option<seq<WordInfo>>)

  /** One written line: its `MM`, its `SS`, and the words of the buffer it carries. */
  datatype Line = Line(minutes: int, seconds: int, words: seq<string>)

  /** The loop's variables: `buffer`, `current_time`, and the lines written so far. */
  datatype State = State(buffer: seq<string>, clock: real, lines: seq<Line>)

  const MaxTokens: nat := 10
  const MaxGap: real := 5.0

  // ---- the line format ----

  /** `int(t // 60)`. */
  function Minutes(t: real): int {
    (t / 60.0).Floor
  }

  /** `int(t % 60)`: Python's `%` takes the sign of the divisor, so this is the second within the minute. */
  function Seconds(t: real): (s: int)
    ensures 0 <= s < 60
    ensures 60 * Minutes(t) + s == t.Floor
  {
    var m := Minutes(t);
    assert 60.0 * m as real <= t < 60.0 * m as real + 60.0;
    var s := (t - 60.0 * m as real).Floor;
    assert (60 * m + s) as real <= t < (60 * m + s) as real + 1.0;
    s
  }

  /** The stamp of time `t` on the given words. */
  function StampAt(t: real, words: seq<string>): Line {
    Line(Minutes(t), Seconds(t), words)
  }

  /** `buffer.strip()` for the buffer built from `words`. */
  function Text(words: seq<string>): string {
    Strip(Spaced(words))
  }

  /** `len(buffer.split())`, counted word by word (`TokenCountIsSplit` ties it to the buffer string). */
  function TokenCount(words: seq<string>): nat {
    if words == [] then 0 else |Split(words[0])| + TokenCount(words[1..])
  }

  /** A written line: minutes and seconds, each zero-padded to two digits, in brackets, then a space, the stripped buffer and a newline. */
  function Render(l: Line): string {
    "[" + Pad2(l.minutes) + ":" + Pad2(l.seconds) + "] " + Text(l.words) + "\n"
  }

  // ---- the state machine ----

  /** The word texts of a list of results. */
  function Words(ws: seq<WordInfo>): (r: seq<string>)
    ensures |r| == |ws|
  {
    if ws == [] then [] else [ws[0].word] + Words(ws[1..])
  }

  /** The words of the lines, in order. */
  function Emitted(lines: seq<Line>): seq<string> {
    if lines == [] then [] else Emitted(lines[..|lines| - 1]) + lines[|lines| - 1].words
  }

  /** Every word the loop has taken, written out or still buffered, in order. */
  function Pending(s: State): seq<string> {
    Emitted(s.lines) + s.buffer
  }

  /** The test at line 137. */
  predicate FlushDue(buffer: seq<string>, clock: real, w: WordInfo) {
    TokenCount(buffer) >= MaxTokens || (w.start + clock) - clock >= MaxGap
  }

  /** Lines 133-140 for one word: flush the buffer first when the test holds, then append the word. */
  function OnWord(s: State, w: WordInfo): State {
    if FlushDue(s.buffer, s.clock, w) then
      State([w.word], s.clock, s.lines + [StampAt(w.start + s.clock, s.buffer)])
    else
      State(s.buffer + [w.word], s.clock, s.lines)
  }

  /** The `for word_info in result["result"]` loop. */
  function OnWords(s: State, ws: seq<WordInfo>): State
    decreases |ws|
  {
    if ws == [] then s else OnWords(OnWord(s, ws[0]), ws[1..])
  }

  /** The words a block delivers. */
  function Found(b: Block): seq<WordInfo> {
    if b.result.Some? then b.result.value else []
  }

  /** `len(data) / wf.getframerate()`: bytes read over frames per second. */
  function BlockTime(b: Block, rate: nat): (d: real)
    requires rate > 0
    ensures d >= 0.0
  {
    (b.size as real) / (rate as real)
  }

  /** One pass of the `while True` body for a non-empty block. */
  function OnBlock(s: State, b: Block, rate: nat): State
    requires rate > 0
  {
    var s1 := OnWords(s, Found(b));
    s1.(clock := s1.clock + BlockTime(b, rate))
  }

  /** The words of the stream, up to the first empty read, in arrival order. */
  function Heard(blocks: seq<Block>): seq<WordInfo> {
    if blocks == [] || blocks[0].size == 0 then [] else Found(blocks[0]) + Heard(blocks[1..])
  }

  /** How far the clock moves over the stream, up to the first empty read. */
  function Elapsed(blocks: seq<Block>, rate: nat): (e: real)
    requires rate > 0
    ensures e >= 0.0
  {
    if blocks == [] || blocks[0].size == 0 then 0.0 else BlockTime(blocks[0], rate) + Elapsed(blocks[1..], rate)
  }

  /** The loop up to the first empty read. */
  function Run(s: State, blocks: seq<Block>, rate: nat): State
    requires rate > 0
    decreases |blocks|
  {
    if blocks == [] || blocks[0].size == 0 then s else Run(OnBlock(s, blocks[0], rate), blocks[1..], rate)
  }

  /** Entry `i` of the words is the `word` of result entry `i`. */
  lemma {:induction false} WordsPointwise(ws: seq<WordInfo>)
    ensures forall i :: 0 <= i < |ws| ==> Words(ws)[i] == ws[i].word
  {
    if ws != [] {
      WordsPointwise(ws[1..]);
      forall i | 0 < i < |ws| ensures Words(ws)[i] == ws[i].word {
        assert Words(ws)[i] == Words(ws[1..])[i - 1];
      }
    }
  }

  lemma {:induction false} WordsAppend(a: seq<WordInfo>, b: seq<WordInfo>)
    ensures Words(a + b) == Words(a) + Words(b)
  {
    if a != [] {
      assert (a + b)[1..] == a[1..] + b;
      WordsAppend(a[1..], b);
    } else {
      assert a + b == b;
    }
  }

  lemma EmittedAppend(lines: seq<Line>, l: Line)
    ensures Emitted(lines + [l]) == Emitted(lines) + l.words
  {
    assert (lines + [l])[..|lines|] == lines;
  }

  /** One word: it is taken after everything taken before, no earlier line changes, and the clock stays. */
  lemma OnWordEffect(s: State, w: WordInfo)
    ensures var r := OnWord(s, w);
      && r.clock == s.clock
      && Pending(r) == Pending(s) + [w.word]
      && r.buffer != [] && r.buffer[|r.buffer| - 1] == w.word
      && s.lines <= r.lines
  {
    var r := OnWord(s, w);
    if FlushDue(s.buffer, s.clock, w) {
      EmittedAppend(s.lines, StampAt(w.start + s.clock, s.buffer));
      assert r.lines[..|s.lines|] == s.lines;
    }
  }

  /**
   * One word: a line is written exactly when the flush test holds, and it
   * carries the old buffer and the stamp of the word's time
   * `start + current_time`.
   */
  lemma OnWordFlush(s: State, w: WordInfo)
    ensures var r := OnWord(s, w);
      && |r.lines| == |s.lines| + (if FlushDue(s.buffer, s.clock, w) then 1 else 0)
      && (FlushDue(s.buffer, s.clock, w) ==> r.lines[|s.lines|] == StampAt(w.start + s.clock, s.buffer))
      && (!FlushDue(s.buffer, s.clock, w) ==> r.buffer == s.buffer + [w.word])
      && (FlushDue(s.buffer, s.clock, w) ==> r.buffer == [w.word])
  {
  }

  /** The words of one result are taken in order and the clock does not move. */
  lemma {:induction false} OnWordsEffect(s: State, ws: seq<WordInfo>)
    ensures OnWords(s, ws).clock == s.clock
    ensures Pending(OnWords(s, ws)) == Pending(s) + Words(ws)
    decreases |ws|
  {
    if ws == [] {
      assert Pending(s) + Words(ws) == Pending(s);
    } else {
      var s1 := OnWord(s, ws[0]);
      var p, p1, rest := Pending(s), Pending(s1), Words(ws[1..]);
      OnWordEffect(s, ws[0]);
      OnWordsEffect(s1, ws[1..]);
      assert Words(ws) == [ws[0].word] + rest;
      calc {
        Pending(OnWords(s, ws));
        p1 + rest;
        (p + [ws[0].word]) + rest;
        p + ([ws[0].word] + rest);
      }
    }
  }

  /** No line written before a result's words is changed by them. */
  lemma {:induction false} OnWordsKeepLines(s: State, ws: seq<WordInfo>)
    ensures s.lines <= OnWords(s, ws).lines
    decreases |ws|
  {
    if ws != [] {
      OnWordEffect(s, ws[0]);
      OnWordsKeepLines(OnWord(s, ws[0]), ws[1..]);
    }
  }

  /** The whole stream: every heard word is taken, in order. */
  lemma {:induction false} RunEffect(s: State, blocks: seq<Block>, rate: nat)
    requires rate > 0
    ensures Pending(Run(s, blocks, rate)) == Pending(s) + Words(Heard(blocks))
    decreases |blocks|
  {
    if blocks == [] || blocks[0].size == 0 {
      assert Pending(s) + Words(Heard(blocks)) == Pending(s);
    } else {
      var s1 := OnBlock(s, blocks[0], rate);
      calc {
        Pending(Run(s, blocks, rate));
        Pending(Run(s1, blocks[1..], rate));
        { RunEffect(s1, blocks[1..], rate); }
        Pending(s1) + Words(Heard(blocks[1..]));
        { OnWordsEffect(s, Found(blocks[0])); }
        (Pending(s) + Words(Found(blocks[0]))) + Words(Heard(blocks[1..]));
        Pending(s) + (Words(Found(blocks[0])) + Words(Heard(blocks[1..])));
        { WordsAppend(Found(blocks[0]), Heard(blocks[1..])); }
        Pending(s) + Words(Heard(blocks));
      }
    }
  }

  /** The whole stream: the clock advances by the elapsed time. */
  lemma {:induction false} RunClock(s: State, blocks: seq<Block>, rate: nat)
    requires rate > 0
    ensures Run(s, blocks, rate).clock == s.clock + Elapsed(blocks, rate)
    decreases |blocks|
  {
    if !(blocks == [] || blocks[0].size == 0) {
      OnWordsEffect(s, Found(blocks[0]));
      RunClock(OnBlock(s, blocks[0], rate), blocks[1..], rate);
    }
  }

  /** Lines once written are never rewritten. */
  lemma {:induction false} RunKeepsLines(s: State, blocks: seq<Block>, rate: nat)
    requires rate > 0
    ensures s.lines <= Run(s, blocks, rate).lines
    decreases |blocks|
  {
    if !(blocks == [] || blocks[0].size == 0) {
      OnWordsKeepLines(s, Found(blocks[0]));
      RunKeepsLines(OnBlock(s, blocks[0], rate), blocks[1..], rate);
    }
  }

  /** Lines 143-145: a residue that is not blank once stripped is written, stamped with the clock. */
  function Finish(s: State): seq<Line> {
    if Text(s.buffer) != "" then s.lines + [StampAt(s.clock, s.buffer)] else s.lines
  }

  function Start(startTime: real): State {
    State([], startTime, [])
  }

  /** The lines written for a stream, from `current_time = start_time` and an empty buffer. */
  function Transcript(startTime: real, rate: nat, blocks: seq<Block>): seq<Line>
    requires rate > 0
  {
    Finish(Run(Start(startTime), blocks, rate))
  }

  // ---- the invariant of the loop ----

  /**
   * What holds of the loop's state after the words `heard`: every heard word
   * was taken once and in order; the buffer is empty only before the first
   * word, and no line exists before it; only the first line can be empty;
   * and for single-token words the buffer and every line hold at most ten
   * words.
   */
  ghost predicate Inv(s: State, heard: seq<WordInfo>) {
    Taken(s, heard) && Bounded(s, heard)
  }

  /** The order and emptiness part of the invariant. */
  ghost predicate Taken(s: State, heard: seq<WordInfo>) {
    && Pending(s) == Words(heard)
    && (heard == [] ==> s.lines == [] && s.buffer == [])
    && (heard != [] ==> s.buffer != [])
    && (forall i :: 0 < i < |s.lines| ==> s.lines[i].words != [])
  }

  /** The size part of the invariant, for single-token words. */
  ghost predicate Bounded(s: State, heard: seq<WordInfo>) {
    AllTokens(Words(heard)) ==>
      |s.buffer| <= MaxTokens && forall i :: 0 <= i < |s.lines| ==> |s.lines[i].words| <= MaxTokens
  }

  /** The count the flush test uses is the number of whitespace-separated tokens of the buffer string. */
  lemma {:induction false} TokenCountIsSplit(words: seq<string>)
    ensures TokenCount(words) == |Split(Spaced(words))|
  {
    if words != [] {
      SplitSpacedCons(words);
      TokenCountIsSplit(words[1..]);
    }
  }

  /** Taking one word keeps the invariant. */
  lemma OnWordInv(s: State, heard: seq<WordInfo>, w: WordInfo)
    requires Inv(s, heard)
    ensures Inv(OnWord(s, w), heard + [w])
  {
    OnWordTaken(s, heard, w);
    OnWordBounded(s, heard, w);
  }

  /** Taking one word keeps the order and emptiness facts. */
  lemma OnWordTaken(s: State, heard: seq<WordInfo>, w: WordInfo)
    requires Taken(s, heard)
    ensures Taken(OnWord(s, w), heard + [w])
  {
    OnWordEffect(s, w);
    OnWordFlush(s, w);
    WordsAppend(heard, [w]);
  }

  /** Taking one word keeps the size facts: the flush test fires before an eleventh single-token word. */
  lemma OnWordBounded(s: State, heard: seq<WordInfo>, w: WordInfo)
    requires Inv(s, heard)
    ensures Bounded(OnWord(s, w), heard + [w])
  {
    var h := heard + [w];
    if AllTokens(Words(h)) {
      WordsAppend(heard, [w]);
      assert Words(h) == Words(heard) + [w.word];
      forall i | 0 <= i < |heard| ensures IsToken(Words(heard)[i]) {
        assert Words(heard)[i] == Words(h)[i];
      }
      BufferTokens(s, Words(heard));
      TokenCountIsSplit(s.buffer);
      SplitSpaced(s.buffer);
      OnWordEffect(s, w);
      OnWordFlush(s, w);
    }
  }

  lemma {:induction false} OnWordsInv(s: State, heard: seq<WordInfo>, ws: seq<WordInfo>)
    requires Inv(s, heard)
    ensures Inv(OnWords(s, ws), heard + ws)
    decreases |ws|
  {
    if ws != [] {
      var s1 := OnWord(s, ws[0]);
      var h1 := heard + [ws[0]];
      assert h1 + ws[1..] == heard + ws;
      OnWordInv(s, heard, ws[0]);
      OnWordsInv(s1, h1, ws[1..]);
      assert OnWords(s, ws) == OnWords(s1, ws[1..]);
    } else {
      assert heard + ws == heard;
    }
  }

  lemma OnBlockInv(s: State, heard: seq<WordInfo>, b: Block, rate: nat)
    requires rate > 0 && Inv(s, heard)
    ensures Inv(OnBlock(s, b, rate), heard + Found(b))
  {
    var s1 := OnWords(s, Found(b));
    OnWordsInv(s, heard, Found(b));
    assert OnBlock(s, b, rate) == s1.(clock := OnBlock(s, b, rate).clock);
  }

  lemma {:induction false} RunInv(s: State, heard: seq<WordInfo>, blocks: seq<Block>, rate: nat)
    requires rate > 0 && Inv(s, heard)
    ensures Inv(Run(s, blocks, rate), heard + Heard(blocks))
    decreases |blocks|
  {
    if blocks == [] || blocks[0].size == 0 {
      assert heard + Heard(blocks) == heard;
    } else {
      var b := blocks[0];
      var h1 := heard + Found(b);
      var s2 := OnBlock(s, b, rate);
      assert h1 + Heard(blocks[1..]) == heard + Heard(blocks);
      OnBlockInv(s, heard, b, rate);
      RunInv(s2, h1, blocks[1..], rate);
      assert Run(s, blocks, rate) == Run(s2, blocks[1..], rate);
    }
  }

  lemma StartInv(startTime: real)
    ensures Inv(Start(startTime), [])
  {
  }

  /** The state after the whole stream satisfies the invariant for all the heard words. */
  lemma RunFromStart(startTime: real, rate: nat, blocks: seq<Block>)
    requires rate > 0
    ensures Inv(Run(Start(startTime), blocks, rate), Heard(blocks))
  {
    StartInv(startTime);
    RunInv(Start(startTime), [], blocks, rate);
    assert [] + Heard(blocks) == Heard(blocks);
  }

  /** Once a word is heard the buffer is never empty again. */
  lemma ResidueNonEmpty(startTime: real, rate: nat, blocks: seq<Block>)
    requires rate > 0
    ensures Heard(blocks) != [] ==> Run(Start(startTime), blocks, rate).buffer != []
  {
    RunFromStart(startTime, rate, blocks);
  }

  /** The invariant at the end of the stream gives the transcript's conservation and bound for single-token words. */
  lemma FinishInv(s: State, heard: seq<WordInfo>)
    requires Inv(s, heard)
    ensures AllTokens(Words(heard)) ==>
      Emitted(Finish(s)) == Words(heard) && forall i :: 0 <= i < |Finish(s)| ==> |Finish(s)[i].words| <= MaxTokens
  {
    if AllTokens(Words(heard)) {
      FinishConservation(s, Words(heard));
      FinishBound(s, heard);
    }
  }

  /** Writing the residue keeps every line within ten single-token words. */
  lemma FinishBound(s: State, heard: seq<WordInfo>)
    requires Bounded(s, heard) && AllTokens(Words(heard))
    ensures forall i :: 0 <= i < |Finish(s)| ==> |Finish(s)[i].words| <= MaxTokens
  {
    var t := Finish(s);
    forall k | 0 <= k < |t| ensures |t[k].words| <= MaxTokens {
      if k < |s.lines| {
        assert t[k] == s.lines[k];
      }
    }
  }

  /** The first line is empty exactly when the first heard word's offset reached the gap. */
  ghost predicate FirstLineMatches(s: State, heard: seq<WordInfo>) {
    (s.lines != [] && s.lines[0].words == []) <==> (heard != [] && heard[0].start >= MaxGap)
  }

  lemma OnWordFirst(s: State, heard: seq<WordInfo>, w: WordInfo)
    requires Inv(s, heard) && FirstLineMatches(s, heard)
    ensures FirstLineMatches(OnWord(s, w), heard + [w])
  {
    var r := OnWord(s, w);
    var h := heard + [w];
    OnWordEffect(s, w);
    OnWordFlush(s, w);
    if heard == [] {
      assert h[0] == w;
      assert FlushDue(s.buffer, s.clock, w) <==> w.start >= MaxGap;
    } else {
      assert h[0] == heard[0];
      if s.lines != [] {
        assert r.lines[0] == s.lines[0];
      }
    }
  }

  lemma {:induction false} OnWordsFirst(s: State, heard: seq<WordInfo>, ws: seq<WordInfo>)
    requires Inv(s, heard) && FirstLineMatches(s, heard)
    ensures FirstLineMatches(OnWords(s, ws), heard + ws)
    decreases |ws|
  {
    if ws != [] {
      var s1 := OnWord(s, ws[0]);
      var h1 := heard + [ws[0]];
      assert h1 + ws[1..] == heard + ws;
      OnWordInv(s, heard, ws[0]);
      OnWordFirst(s, heard, ws[0]);
      OnWordsFirst(s1, h1, ws[1..]);
      assert OnWords(s, ws) == OnWords(s1, ws[1..]);
    } else {
      assert heard + ws == heard;
    }
  }

  lemma {:induction false} RunFirst(s: State, heard: seq<WordInfo>, blocks: seq<Block>, rate: nat)
    requires rate > 0 && Inv(s, heard) && FirstLineMatches(s, heard)
    ensures FirstLineMatches(Run(s, blocks, rate), heard + Heard(blocks))
    decreases |blocks|
  {
    if blocks == [] || blocks[0].size == 0 {
      assert heard + Heard(blocks) == heard;
    } else {
      var b := blocks[0];
      var h1 := heard + Found(b);
      var s1 := OnWords(s, Found(b));
      var s2 := OnBlock(s, b, rate);
      assert h1 + Heard(blocks[1..]) == heard + Heard(blocks);
      assert s2 == s1.(clock := s2.clock);
      OnBlockInv(s, heard, b, rate);
      OnWordsFirst(s, heard, Found(b));
      RunFirst(s2, h1, blocks[1..], rate);
    }
  }

  // ---- properties of the transcript ----

  /** The buffer is the tail of the taken words, so it holds single tokens when they all are. */
  lemma BufferTokens(s: State, w: seq<string>)
    requires Pending(s) == w && AllTokens(w)
    ensures AllTokens(s.buffer)
    ensures s.buffer == w[|Emitted(s.lines)|..]
  {
    assert forall i :: 0 <= i < |s.buffer| ==> s.buffer[i] == w[|Emitted(s.lines)| + i];
  }

  /** After the whole stream, the words taken are exactly the heard words. */
  lemma RunTakesHeard(startTime: real, rate: nat, blocks: seq<Block>)
    requires rate > 0
    ensures Pending(Run(Start(startTime), blocks, rate)) == Words(Heard(blocks))
  {
    RunEffect(Start(startTime), blocks, rate);
    assert Pending(Start(startTime)) == [];
  }

  /** Writing the residue loses only a blank residue, and nothing for single-token words. */
  lemma FinishConservation(s: State, w: seq<string>)
    requires Pending(s) == w
    ensures var t := Finish(s);
      && |Emitted(t)| <= |w| && Emitted(t) == w[..|Emitted(t)|]
      && Text(w[|Emitted(t)|..]) == ""
      && (AllTokens(w) ==> Emitted(t) == w)
  {
    var t := Finish(s);
    if Text(s.buffer) != "" {
      EmittedAppend(s.lines, StampAt(s.clock, s.buffer));
      assert w[|w|..] == [];
      assert Spaced([]) == "";
    } else {
      assert w[|Emitted(s.lines)|..] == s.buffer;
      if AllTokens(w) {
        BufferTokens(s, w);
        TextOfTokens(s.buffer);
      }
    }
  }

  /**
   * No finalised word is lost or repeated: the words of the lines, in order,
   * are the heard words up to a residue that is blank once stripped; for
   * single-token words they are exactly the heard words. The heard words are
   * those of results `AcceptWaveform` finalised; the loop never asks for the
   * final partial result, so words still pending when the audio ends are not
   * among them.
   */
  lemma Conservation(startTime: real, rate: nat, blocks: seq<Block>)
    requires rate > 0
    ensures var t, w := Transcript(startTime, rate, blocks), Words(Heard(blocks));
      && |Emitted(t)| <= |w| && Emitted(t) == w[..|Emitted(t)|]
      && Text(w[|Emitted(t)|..]) == ""
      && (AllTokens(w) ==> Emitted(t) == w)
  {
    RunTakesHeard(startTime, rate, blocks);
    FinishConservation(Run(Start(startTime), blocks, rate), Words(Heard(blocks)));
  }


  /** For single-token words, every line carries between one and ten words, except that the first may be empty. */
  lemma LineBound(startTime: real, rate: nat, blocks: seq<Block>)
    requires rate > 0 && AllTokens(Words(Heard(blocks)))
    ensures var t := Transcript(startTime, rate, blocks);
      forall i :: 0 <= i < |t| ==> |t[i].words| <= MaxTokens && (i > 0 ==> |t[i].words| >= 1)
  {
    var s := Run(Start(startTime), blocks, rate);
    RunFromStart(startTime, rate, blocks);
    if Text(s.buffer) != "" {
      assert Spaced([]) == "";
    }
  }

  /**
   * A line with no words can only be the first line, and the first line has
   * none exactly when the first heard word starts 5 seconds or more after the
   * clock: the gap test then fires on the still-empty buffer. A later line
   * can still render without text when all its words are blank.
   */
  lemma EmptyLines(startTime: real, rate: nat, blocks: seq<Block>)
    requires rate > 0
    ensures var t, h := Transcript(startTime, rate, blocks), Heard(blocks);
      && (forall i :: 0 < i < |t| ==> t[i].words != [])
      && ((t != [] && t[0].words == []) <==> (h != [] && h[0].start >= MaxGap))
  {
    var s := Run(Start(startTime), blocks, rate);
    RunFromStart(startTime, rate, blocks);
    StartInv(startTime);
    RunFirst(Start(startTime), [], blocks, rate);
    assert [] + Heard(blocks) == Heard(blocks);
    FinishEmptyLines(s, Heard(blocks));
  }

  /** Writing the residue keeps the empty-line facts of the invariant. */
  lemma FinishEmptyLines(s: State, heard: seq<WordInfo>)
    requires Inv(s, heard) && FirstLineMatches(s, heard)
    ensures var t := Finish(s);
      && (forall i :: 0 < i < |t| ==> t[i].words != [])
      && ((t != [] && t[0].words == []) <==> (heard != [] && heard[0].start >= MaxGap))
  {
    var t := Finish(s);
    if Text(s.buffer) != "" {
      assert Spaced([]) == "";
      assert t[|s.lines|].words == s.buffer != [];
      forall i | 0 < i < |t| ensures t[i].words != [] {
        if i < |s.lines| {
          assert t[i] == s.lines[i];
        }
      }
      if s.lines != [] {
        assert t[0] == s.lines[0];
      }
    }
  }


  /** A non-empty residue of single-token words is written as the last line, stamped with the clock. */
  lemma ResidueWritten(s: State, w: seq<string>)
    requires Pending(s) == w && AllTokens(w) && s.buffer != []
    ensures Finish(s) == s.lines + [StampAt(s.clock, s.buffer)]
  {
    BufferTokens(s, w);
    TextOfTokens(s.buffer);
  }

  /**
   * The clock starts at `start_time` and only moves forward; when single-token
   * words were heard, the last line is the residue, stamped with the final
   * clock `start_time + Elapsed`, not with any word's own time.
   */
  lemma FinalStamp(startTime: real, rate: nat, blocks: seq<Block>)
    requires rate > 0
    ensures Run(Start(startTime), blocks, rate).clock == startTime + Elapsed(blocks, rate) >= startTime
    ensures AllTokens(Words(Heard(blocks))) && Heard(blocks) != [] ==>
      var t := Transcript(startTime, rate, blocks);
      t != [] && t[|t| - 1] == StampAt(startTime + Elapsed(blocks, rate), Run(Start(startTime), blocks, rate).buffer)
  {
    RunClock(Start(startTime), blocks, rate);
    if AllTokens(Words(Heard(blocks))) && Heard(blocks) != [] {
      RunTakesHeard(startTime, rate, blocks);
      ResidueNonEmpty(startTime, rate, blocks);
      ResidueWritten(Run(Start(startTime), blocks, rate), Words(Heard(blocks)));
    }
  }


  /** The gap test compares the word's time with the clock it was computed from, so it reduces to the word's own offset. */
  lemma GapIsOffset(buffer: seq<string>, clock: real, w: WordInfo)
    ensures FlushDue(buffer, clock, w) <==> TokenCount(buffer) >= MaxTokens || w.start >= MaxGap
  {
  }

  /**
   * Once the recognizer reports words 5 s or more into the audio, the gap
   * test fires on every word: the first such word writes out the old buffer,
   * and each later line carries the single word before it.
   */
  lemma {:induction false} LateWords(s: State, ws: seq<WordInfo>)
    requires forall i :: 0 <= i < |ws| ==> ws[i].start >= MaxGap
    ensures var r := OnWords(s, ws);
      && |r.lines| == |s.lines| + |ws|
      && (ws != [] ==> r.lines[|s.lines|].words == s.buffer && r.buffer == [ws[|ws| - 1].word])
      && forall k :: |s.lines| < k < |r.lines| ==> r.lines[k].words == [ws[k - |s.lines| - 1].word]
    decreases |ws|
  {
    if ws != [] {
      var s1 := OnWord(s, ws[0]);
      var r := OnWords(s1, ws[1..]);
      assert OnWords(s, ws) == r;
      OnWordFlush(s, ws[0]);
      assert |s1.lines| == |s.lines| + 1 && s1.lines[|s.lines|].words == s.buffer && s1.buffer == [ws[0].word];
      LateWords(s1, ws[1..]);
      OnWordsKeepLines(s1, ws[1..]);
      assert r.lines[|s.lines|] == s1.lines[|s.lines|];
      if |ws| > 1 {
        assert ws[1..][|ws[1..]| - 1] == ws[|ws| - 1];
      }
      forall k | |s.lines| < k < |r.lines| ensures r.lines[k].words == [ws[k - |s.lines| - 1].word] {
        if k > |s1.lines| {
          assert ws[1..][k - |s1.lines| - 1] == ws[k - |s.lines| - 1];
        }
      }
    }
  }

  /** For single-token words the rendered text of a line splits back into exactly its words. */
  lemma LineText(l: Line)
    requires AllTokens(l.words)
    ensures Split(Text(l.words)) == l.words
    ensures Text(l.words) == Join(l.words)
  {
    TextOfTokens(l.words);
  }

  /** After any single-token word is taken, `buffer.split()` has between one and ten entries. */
  lemma BufferBound(s: State, heard: seq<WordInfo>, w: WordInfo)
    requires Inv(s, heard) && AllTokens(Words(heard + [w]))
    ensures 1 <= |Split(Spaced(OnWord(s, w).buffer))| <= MaxTokens
  {
    var r := OnWord(s, w);
    OnWordInv(s, heard, w);
    BufferTokens(r, Words(heard + [w]));
    SplitSpaced(r.buffer);
  }

  /** Reads the `[MM:SS] ` prefix of a written line back into minutes and seconds. */
  function ParseStamp(r: string): Option<(nat, nat)> {
    if |r| >= 8 && r[0] == '[' && IsDigit(r[1]) && IsDigit(r[2]) && r[3] == ':'
       && IsDigit(r[4]) && IsDigit(r[5]) && r[6] == ']' && r[7] == ' '
    then Some((ParseNat(r[1..3]), ParseNat(r[4..6])))
    else None
  }

  /** A stamp made of two two-digit fields reads back as those fields. */
  lemma StampShape(m: string, sec: string, x: string)
    requires |m| == 2 && IsDigit(m[0]) && IsDigit(m[1])
    requires |sec| == 2 && IsDigit(sec[0]) && IsDigit(sec[1])
    ensures ParseStamp("[" + m + ":" + sec + "] " + x) == Some((ParseNat(m), ParseNat(sec)))
  {
    var p := "[" + m + ":" + sec + "] ";
    assert |p| == 8 && p[1..3] == m && p[4..6] == sec;
    assert p[0] == '[' && IsDigit(p[1]) && IsDigit(p[2]) && p[3] == ':'
           && IsDigit(p[4]) && IsDigit(p[5]) && p[6] == ']' && p[7] == ' ';
    var r := p + x;
    assert r[1..3] == m && r[4..6] == sec;
  }

  /**
   * A line stamped below 100 minutes reads `[MM:SS] ` with two-digit fields
   * that parse back to its stamp, then the stripped buffer and a newline.
   */
  lemma RenderFormat(l: Line)
    requires 0 <= l.minutes < 100 && 0 <= l.seconds < 60
    ensures ParseStamp(Render(l)) == Some((l.minutes as nat, l.seconds as nat))
    ensures |Render(l)| == 9 + |Text(l.words)|
    ensures Render(l)[8..] == Text(l.words) + "\n"
  {
    var m, sec, x := Pad2(l.minutes), Pad2(l.seconds), Text(l.words);
    assert Render(l) == "[" + m + ":" + sec + "] " + (x + "\n");
    StampShape(m, sec, x + "\n");
  }

  /** Times from 0 up to 100 minutes get a stamp in range of the two-digit format. */
  lemma StampRange(t: real, words: seq<string>)
    requires 0.0 <= t < 6000.0
    ensures 0 <= StampAt(t, words).minutes < 100 && 0 <= StampAt(t, words).seconds < 60
  {
    assert 0.0 <= t / 60.0 < 100.0;
  }

  // ---- the loop itself ----

  /** One pass of the outer loop moves the block it handled from the unheard to the heard words. */
  lemma HeardStep(heard: seq<WordInfo>, blocks: seq<Block>, i: nat)
    requires i < |blocks| && blocks[i].size > 0
    requires heard + Heard(blocks[i..]) == Heard(blocks)
    ensures (heard + Found(blocks[i])) + Heard(blocks[i + 1..]) == Heard(blocks)
  {
    assert blocks[i..][1..] == blocks[i + 1..];
  }

  /** One pass of the outer loop leaves the rest of the run unchanged. */
  lemma RunStep(st: State, startTime: real, rate: nat, blocks: seq<Block>, i: nat)
    requires rate > 0 && i < |blocks| && blocks[i].size > 0
    requires Run(st, blocks[i..], rate) == Run(Start(startTime), blocks, rate)
    ensures Run(OnBlock(st, blocks[i], rate), blocks[i + 1..], rate) == Run(Start(startTime), blocks, rate)
  {
    assert blocks[i..][1..] == blocks[i + 1..];
  }

  /** Lines 132-140: the words of one finalised result, taken one after the other. */
  method TakeWords(buffer: seq<string>, currentTime: real, lines: seq<Line>, result: seq<WordInfo>)
    returns (buffer': seq<string>, lines': seq<Line>)
    ensures State(buffer', currentTime, lines') == OnWords(State(buffer, currentTime, lines), result)
  {
    buffer', lines' := buffer, lines;
    for j := 0 to |result|
      invariant OnWords(State(buffer', currentTime, lines'), result[j..]) == OnWords(State(buffer, currentTime, lines), result)
    {
      var wordInfo := result[j];
      ghost var next := OnWord(State(buffer', currentTime, lines'), wordInfo);
      var wordStart := wordInfo.start + currentTime;
      var minutes := Minutes(wordStart);
      var seconds := Seconds(wordStart);
      TokenCountIsSplit(buffer');
      if |Split(Spaced(buffer'))| >= MaxTokens || wordStart - currentTime >= MaxGap {
        lines' := lines' + [Line(minutes, seconds, buffer')];
        buffer' := [];
      }
      buffer' := buffer' + [wordInfo.word];
      assert State(buffer', currentTime, lines') == next;
      assert result[j..][1..] == result[j + 1..];
    }
  }

  /** Lines 127-141 for a non-empty block: take its words, if it finalised any, then advance the clock. */
  method ReadBlock(buffer: seq<string>, currentTime: real, lines: seq<Line>, data: Block, rate: nat)
    returns (buffer': seq<string>, currentTime': real, lines': seq<Line>)
    requires rate > 0
    ensures State(buffer', currentTime', lines') == OnBlock(State(buffer, currentTime, lines), data, rate)
    ensures currentTime' >= currentTime
  {
    buffer', lines' := buffer, lines;
    if data.result.Some? {
      buffer', lines' := TakeWords(buffer, currentTime, lines, data.result.value);
    }
    currentTime' := currentTime + (data.size as real) / (rate as real);
  }

  /** When the loop stops, its state is the run over the whole stream and every word of the stream was heard. */
  lemma LoopExit(st: State, heard: seq<WordInfo>, startTime: real, rate: nat, blocks: seq<Block>, i: nat)
    requires rate > 0 && i <= |blocks| && (i == |blocks| || blocks[i].size == 0)
    requires heard + Heard(blocks[i..]) == Heard(blocks)
    requires Run(st, blocks[i..], rate) == Run(Start(startTime), blocks, rate)
    ensures st == Run(Start(startTime), blocks, rate) && heard == Heard(blocks)
  {
    assert heard + [] == heard;
  }

  /**
   * Lines 121-145 over a stream of blocks: the lines written are the
   * transcript, every heard single-token word is written exactly once, and no
   * line holds more than ten of them.
   */
  method RecognizeStream(startTime: real, rate: nat, blocks: seq<Block>) returns (lines: seq<Line>)
    requires rate > 0
    ensures lines == Transcript(startTime, rate, blocks)
    ensures AllTokens(Words(Heard(blocks))) ==>
      Emitted(lines) == Words(Heard(blocks)) && forall i :: 0 <= i < |lines| ==> |lines[i].words| <= MaxTokens
  {
    var currentTime := startTime;
    var buffer: seq<string> := [];
    lines := [];
    ghost var heard: seq<WordInfo> := [];
    StartInv(startTime);
    var i := 0;
    while i < |blocks|
      invariant i <= |blocks|
      invariant currentTime >= startTime
      invariant Inv(State(buffer, currentTime, lines), heard)
      invariant heard + Heard(blocks[i..]) == Heard(blocks)
      invariant Run(State(buffer, currentTime, lines), blocks[i..], rate) == Run(Start(startTime), blocks, rate)
    {
      var data := blocks[i];
      if data.size == 0 {
        break;
      }
      ghost var st := State(buffer, currentTime, lines);
      buffer, currentTime, lines := ReadBlock(buffer, currentTime, lines, data, rate);
      OnBlockInv(st, heard, data, rate);
      HeardStep(heard, blocks, i);
      RunStep(st, startTime, rate, blocks, i);
      heard := heard + Found(data);
      i := i + 1;
    }
    ghost var st := State(buffer, currentTime, lines);
    LoopExit(st, heard, startTime, rate, blocks, i);
    FinishInv(st, heard);
    if Text(buffer) != "" {
      lines := lines + [Line(Minutes(currentTime), Seconds(currentTime), buffer)];
    }
  }

  // ---- the surrounding function ----

  /** `os.path.splitext(os.path.basename(audio_path))[0] + ".txt"`, line 120. */
  function TranscriptName(audioName: string): string {
    Stem(audioName) + ".txt"
  }

  /** The transcript of `chunk_{s}-{e}.wav`, or of its converted copy, keeps the chunk's name with `.txt`. */
  lemma TranscriptNameOf(base: string)
    requires |base| > 0 && Lacks(base, '.')
    ensures TranscriptName(base + ".wav") == base + ".txt"
    ensures TranscriptName(Waveform.ConvertedName(base + ".wav")) == base + "_converted.txt"
  {
    StemOfExtension(base, ".wav");
    Waveform.ConvertedNameOf(base);
    assert base + "_converted.wav" == (base + "_converted") + ".wav";
    StemOfExtension(base + "_converted", ".wav");
  }

  /**
   * What `recognize_speech_from_audio` produces: the `FileNotFoundError` of a
   * missing model, an exception of `wave.open` that line 110 does not catch,
   * or the transcript file's name and lines.
   */
  datatype Outcome = ModelNotFound | AudioOpenFailed | Written(path: string, lines: seq<Line>)

  /**
   * `recognize_speech_from_audio` (lines 92-147): a missing model raises
   * before the audio is looked at, and an uncaught `wave.open` error raises
   * next; otherwise the gated or converted file is transcribed from
   * `blocks`, the stream the recognizer yields for it, and the lines go to
   * the file named after that audio file.
   */
  method RecognizeSpeech(audio: Waveform.AudioFile, modelExists: bool, startTime: real, blocks: seq<Block>)
    returns (r: Outcome)
    ensures r.ModelNotFound? <==> !modelExists
    ensures r.AudioOpenFailed? <==> modelExists && audio.opening.Uncaught?
    ensures r.Written? ==>
      var g := Waveform.Prepare(true, audio).file;
      g.header.frameRate > 0
      && r.path == TranscriptName(g.name)
      && r.lines == Transcript(startTime, g.header.frameRate, blocks)
  {
    var prepared := Waveform.Prepare(modelExists, audio);
    if prepared.ModelNotFound? {
      return ModelNotFound;
    }
    if prepared.OpenFailed? {
      return AudioOpenFailed;
    }
    var wf := prepared.file;
    Waveform.PreparedFormat(audio);
    var lines := RecognizeStream(startTime, wf.header.frameRate, blocks);
    r := Written(TranscriptName(wf.name), lines);
  }
}
