/**
 * `split_video` and the file names derived from its chunks.
 *
 * The script truncates the video's duration to whole seconds and walks
 * `range(0, D, L)`; each start `s` gives the chunk `[s, min(s + L, D))`,
 * written to `chunk_{s}-{e}.mp4`. `extract_audio_from_chunks` then names each
 * chunk's audio by replacing `.mp4` with `.wav` in that base name.
 */
module Chunking {
  import opened Wrappers
  import opened Strings

  /** One chunk's bounds, in whole seconds of the source video. */
  datatype Interval = Interval(start: nat, end: nat)

  /** `range()` refuses a zero step with a `ValueError`. */
  datatype SplitError = ZeroChunkDuration

  function Min(a: int, b: int): int {
    if a <= b then a else b
  }

  /** `int(video.duration)`: truncation, which is the floor for a duration that is never negative. */
  function WholeSeconds(duration: real): (d: nat)
    requires duration >= 0.0
    ensures d as real <= duration < d as real + 1.0
  {
    duration.Floor
  }

  /** The chunks for the starts `s, s + L, s + 2L, ...` below `D`. */
  function IntervalsFrom(s: nat, D: nat, L: nat): seq<Interval>
    requires L > 0
    decreases D - s
  {
    if s >= D then [] else [Interval(s, Min(s + L, D))] + IntervalsFrom(s + L, D, L)
  }

  /** The chunks of a video of `D` whole seconds for a chunk length `L`, as the loop at lines 22-23 visits them. */
  function Chunks(D: nat, L: int): Result<seq<Interval>, SplitError> {
    if L == 0 then Failure(ZeroChunkDuration)
    else if L < 0 then Success([])   // a negative step never climbs from 0 to D >= 0
    else Success(IntervalsFrom(0, D, L))
  }

  /** `f"chunk_{start}-{end}.mp4"`. */
  function ChunkName(iv: Interval): string {
    "chunk_" + NatToString(iv.start) + "-" + NatToString(iv.end) + ".mp4"
  }

  /** `basename.replace(".mp4", ".wav")`, line 40. */
  function AudioName(chunkName: string): string {
    ReplaceAll(chunkName, ".mp4", ".wav")
  }

  function ChunkNames(ivs: seq<Interval>): (r: seq<string>)
    ensures |r| == |ivs|
    ensures forall i :: 0 <= i < |ivs| ==> r[i] == ChunkName(ivs[i])
  {
    if ivs == [] then [] else [ChunkName(ivs[0])] + ChunkNames(ivs[1..])
  }

  function AudioNames(names: seq<string>): (r: seq<string>)
    ensures |r| == |names|
    ensures forall i :: 0 <= i < |names| ==> r[i] == AudioName(names[i])
  {
    if names == [] then [] else [AudioName(names[0])] + AudioNames(names[1..])
  }

  // ---- the loops of the script ----

  /**
   * The loop of `split_video` (lines 19-29): the chunk paths, in order, or the
   * error `range()` raises. Extracting each subclip is a media-library call and
   * is not modelled.
   */
  method SplitVideo(duration: real, chunkDuration: int) returns (r: Result<seq<string>, SplitError>)
    requires duration >= 0.0
    ensures r.Failure? <==> chunkDuration == 0
    ensures r.Success? ==> (Chunks(WholeSeconds(duration), chunkDuration).Success?
      && r.value == ChunkNames(Chunks(WholeSeconds(duration), chunkDuration).value))
  {
    var videoDuration := WholeSeconds(duration);
    if chunkDuration == 0 {
      return Failure(ZeroChunkDuration);
    }
    var chunkPaths: seq<string> := [];
    if chunkDuration < 0 {
      return Success(chunkPaths);
    }
    var startTime: nat := 0;
    while startTime < videoDuration
      invariant chunkPaths + ChunkNames(IntervalsFrom(startTime, videoDuration, chunkDuration))
             == ChunkNames(IntervalsFrom(0, videoDuration, chunkDuration))
      decreases videoDuration - startTime
    {
      var endTime := Min(startTime + chunkDuration, videoDuration);
      chunkPaths := chunkPaths + [ChunkName(Interval(startTime, endTime))];
      startTime := startTime + chunkDuration;
    }
    return Success(chunkPaths);
  }

  /** The naming loop of `extract_audio_from_chunks` (lines 38-46); writing the audio is not modelled. */
  method ExtractAudioNames(chunkPaths: seq<string>) returns (audioPaths: seq<string>)
    ensures |audioPaths| == |chunkPaths|
    ensures forall i :: 0 <= i < |chunkPaths| ==> audioPaths[i] == AudioName(chunkPaths[i])
  {
    audioPaths := [];
    for i := 0 to |chunkPaths|
      invariant |audioPaths| == i
      invariant forall k :: 0 <= k < i ==> audioPaths[k] == AudioName(chunkPaths[k])
    {
      audioPaths := audioPaths + [AudioName(chunkPaths[i])];
    }
  }

  // ---- the partition ----

  /** The chunk list has `ceil((D - s) / L)` entries; entry `i` starts at `s + i*L` and ends at `min(s + (i+1)*L, D)`. */
  lemma {:induction false} IntervalsFromShape(s: nat, D: nat, L: nat)
    requires L > 0
    ensures var ivs := IntervalsFrom(s, D, L);
      && (s >= D ==> ivs == [])
      && (s < D ==> (|ivs| - 1) * L < D - s <= |ivs| * L)
      && forall i :: 0 <= i < |ivs| ==> ivs[i] == Interval(s + i * L, Min(s + i * L + L, D))
    decreases D - s
  {
    if s < D {
      var ivs := IntervalsFrom(s, D, L);
      var rest := IntervalsFrom(s + L, D, L);
      IntervalsFromShape(s + L, D, L);
      assert ivs == [Interval(s, Min(s + L, D))] + rest;
      if s + L >= D {
        assert |ivs| == 1;
      } else {
        assert (|rest| - 1) * L < D - s - L <= |rest| * L;
        assert |ivs| * L == |rest| * L + L;
      }
      forall i | 0 <= i < |ivs| ensures ivs[i] == Interval(s + i * L, Min(s + i * L + L, D)) {
        if i > 0 {
          assert ivs[i] == rest[i - 1];
          assert s + L + (i - 1) * L == s + i * L;
        }
      }
    }
  }

  lemma {:induction false} MulMono(a: int, b: int, L: nat)
    requires a <= b
    ensures a * L <= b * L
    decreases b - a
  {
    if a < b {
      MulMono(a, b - 1, L);
      assert b * L == (b - 1) * L + L;
    }
  }

  /** Multiplying by a positive length keeps the order of chunk numbers, with room for a whole chunk between them. */
  lemma MulStrict(a: int, b: int, L: nat)
    requires L > 0
    ensures a < b <==> a * L + L <= b * L
  {
    assert (a + 1) * L == a * L + L;
    if a < b {
      MulMono(a + 1, b, L);
    } else {
      MulMono(b, a, L);
    }
  }

  /** Euclidean division by a positive length is determined by the bracketing multiples. */
  lemma DivUnique(x: int, L: nat, q: int)
    requires L > 0 && q * L <= x < q * L + L
    ensures x / L == q
  {
    var d := x / L;
    assert d * L <= x < d * L + L;
    MulStrict(d, q, L);
    MulStrict(q, d, L);
  }

  /** `n` is the ceiling of `D / L`. */
  lemma CeilingDivision(D: nat, L: nat, n: nat)
    requires L > 0
    requires D == 0 ==> n == 0
    requires D > 0 ==> (n - 1) * L < D <= n * L
    ensures n == (D + L - 1) / L
  {
    if D > 0 {
      assert (n - 1) * L + L == n * L;
      DivUnique(D + L - 1, L, n);
    } else {
      DivUnique(L - 1, L, 0);
    }
  }

  /** A video of `D` seconds has `ceil(D/L)` chunks, none when `D = 0`; a zero step is an error and a negative step gives no chunk. */
  lemma ChunkCount(D: nat, L: int)
    ensures Chunks(D, L).Failure? <==> L == 0
    ensures L < 0 || (L > 0 && D == 0) ==> Chunks(D, L) == Success([])
    ensures L > 0 ==> |Chunks(D, L).value| == (D + L - 1) / L
  {
    if L > 0 {
      IntervalsFromShape(0, D, L);
      CeilingDivision(D, L, |IntervalsFrom(0, D, L)|);
    }
  }

  /** Two chunk numbers whose chunks both hold second `t` are the same. */
  lemma SameChunk(j: int, q: int, L: nat, t: int)
    requires L > 0
    requires j * L <= t < j * L + L && q * L <= t < q * L + L
    ensures j == q
  {
    MulStrict(j, q, L);
    MulStrict(q, j, L);
  }

  /** Chunk `i` of a whole video, on its own. */
  lemma ChunkAt(D: nat, L: nat, i: nat)
    requires L > 0 && i < |IntervalsFrom(0, D, L)|
    ensures IntervalsFrom(0, D, L)[i] == Interval(i * L, Min(i * L + L, D))
  {
    IntervalsFromShape(0, D, L);
  }

  /** A second before the end has its chunk number below the chunk count. */
  lemma ChunkNumberBound(D: nat, L: nat, t: nat)
    requires L > 0 && t < D
    ensures t / L < |IntervalsFrom(0, D, L)|
  {
    var n := |IntervalsFrom(0, D, L)|;
    var q := t / L;
    IntervalsFromShape(0, D, L);
    assert q * L <= t < D <= n * L;
    MulStrict(n - 1, q, L);
  }

  /** Chunk `i` of a whole video starts before the video ends. */
  lemma ChunkStartsInside(D: nat, L: nat, i: nat)
    requires L > 0 && i < |IntervalsFrom(0, D, L)|
    ensures i * L < D
  {
    var n := |IntervalsFrom(0, D, L)|;
    IntervalsFromShape(0, D, L);
    MulMono(i, n - 1, L);
  }

  /** The last chunk of a whole video ends at `D`. */
  lemma LastChunkEnd(D: nat, L: nat)
    requires L > 0 && IntervalsFrom(0, D, L) != []
    ensures IntervalsFrom(0, D, L)[|IntervalsFrom(0, D, L)| - 1].end == D
  {
    var k := |IntervalsFrom(0, D, L)| - 1;
    IntervalsFromShape(0, D, L);
    assert k * L + L == (k + 1) * L;
  }

  /**
   * The chunks partition `[0, D)`: chunk `i` starts at `i*L`, the first starts
   * at 0, each ends where the next starts and the last ends at `D`; each is
   * non-empty and at most `L` long, and all but the last are exactly `L` long.
   */
  lemma Partition(D: nat, L: int)
    requires L > 0
    ensures var ivs := Chunks(D, L).value;
      && (forall i :: 0 <= i < |ivs| ==> ivs[i].start == i * L)
      && (forall i :: 0 <= i < |ivs| ==> 0 < ivs[i].end - ivs[i].start <= L)
      && (forall i :: 0 <= i < |ivs| - 1 ==> ivs[i].end - ivs[i].start == L)
      && (forall i :: 0 <= i < |ivs| - 1 ==> ivs[i].end == ivs[i + 1].start)
      && (ivs != [] ==> ivs[0].start == 0 && ivs[|ivs| - 1].end == D)
  {
    var ivs := IntervalsFrom(0, D, L);
    forall i | 0 <= i < |ivs| ensures ivs[i].start == i * L && 0 < ivs[i].end - ivs[i].start <= L {
      ChunkAt(D, L, i);
      ChunkStartsInside(D, L, i);
    }
    forall i | 0 <= i < |ivs| - 1 ensures ivs[i].end == i * L + L == ivs[i + 1].start {
      ChunkAt(D, L, i);
      ChunkAt(D, L, i + 1);
      ChunkStartsInside(D, L, i + 1);
      assert (i + 1) * L == i * L + L;
    }
    if ivs != [] {
      ChunkAt(D, L, 0);
      LastChunkEnd(D, L);
    }
  }

  /** Every second `t` of `[0, D)` lies in exactly one chunk, chunk number `t / L`. */
  lemma Coverage(D: nat, L: int, t: nat)
    requires L > 0 && t < D
    ensures var ivs := Chunks(D, L).value;
      && t / L < |ivs| && ivs[t / L].start <= t < ivs[t / L].end
      && forall j :: 0 <= j < |ivs| && ivs[j].start <= t < ivs[j].end ==> j == t / L
  {
    var ivs := IntervalsFrom(0, D, L);
    var q := t / L;
    assert q * L <= t < q * L + L;
    ChunkNumberBound(D, L, t);
    ChunkAt(D, L, q);
    forall j | 0 <= j < |ivs| && ivs[j].start <= t < ivs[j].end ensures j == q {
      ChunkAt(D, L, j);
      SameChunk(j, q, L, t);
    }
  }

  // ---- names ----

  lemma DigitsLack(n: nat, c: char)
    requires !IsDigit(c)
    ensures Lacks(NatToString(n), c)
  {
  }

  /** The base name of a chunk, `chunk_{start}-{end}`, contains no dot. */
  lemma ChunkBaseLacksDot(iv: Interval)
    ensures Lacks("chunk_" + NatToString(iv.start) + "-" + NatToString(iv.end), '.')
  {
    DigitsLack(iv.start, '.');
    DigitsLack(iv.end, '.');
  }

  /** The audio of chunk `[s, e)` is written to `chunk_{s}-{e}.wav`. */
  lemma AudioNameOfChunk(iv: Interval)
    ensures AudioName(ChunkName(iv)) == "chunk_" + NatToString(iv.start) + "-" + NatToString(iv.end) + ".wav"
  {
    ChunkBaseLacksDot(iv);
    ReplaceSuffix("chunk_" + NatToString(iv.start) + "-" + NatToString(iv.end), ".mp4", ".wav");
  }

  lemma FirstDash(a: string, b: string)
    requires Lacks(a, '-')
    ensures (a + "-" + b)[|a|] == '-'
    ensures forall i :: 0 <= i < |a| ==> (a + "-" + b)[i] != '-'
  {
  }

  /** Splitting `a + "-" + b` at its first dash recovers `a` and `b` when `a` has no dash. */
  lemma DashSplit(a: string, b: string, a': string, b': string)
    requires Lacks(a, '-') && Lacks(a', '-')
    requires a + "-" + b == a' + "-" + b'
    ensures a == a' && b == b'
  {
    var s := a + "-" + b;
    FirstDash(a, b);
    FirstDash(a', b');
    assert |a| == |a'|;
    assert a == s[..|a|] == a';
    assert b == s[|a| + 1..] == b';
  }

  /** Different chunks get different file names. */
  lemma ChunkNameInjective(x: Interval, y: Interval)
    requires ChunkName(x) == ChunkName(y)
    ensures x == y
  {
    var nx := ChunkName(x);
    var mx := NatToString(x.start) + "-" + NatToString(x.end);
    var my := NatToString(y.start) + "-" + NatToString(y.end);
    assert nx == "chunk_" + mx + ".mp4";
    assert ChunkName(y) == "chunk_" + my + ".mp4";
    assert mx == nx[6..|nx| - 4];
    assert my == ChunkName(y)[6..|ChunkName(y)| - 4];
    DigitsLack(x.start, '-');
    DigitsLack(y.start, '-');
    DashSplit(NatToString(x.start), NatToString(x.end), NatToString(y.start), NatToString(y.end));
    NatToStringInjective(x.start, y.start);
    NatToStringInjective(x.end, y.end);
  }

  /** Two different chunks of one video get different names. */
  lemma ChunkNamesDiffer(D: nat, L: nat, i: nat, j: nat)
    requires L > 0 && i < j < |IntervalsFrom(0, D, L)|
    ensures ChunkName(IntervalsFrom(0, D, L)[i]) != ChunkName(IntervalsFrom(0, D, L)[j])
  {
    var ivs := IntervalsFrom(0, D, L);
    ChunkAt(D, L, i);
    ChunkAt(D, L, j);
    MulStrict(i, j, L);
    if ChunkName(ivs[i]) == ChunkName(ivs[j]) {
      ChunkNameInjective(ivs[i], ivs[j]);
    }
  }

  /** The audio file of chunk `i`. */
  lemma AudioNameAt(D: nat, L: nat, i: nat)
    requires L > 0 && i < |IntervalsFrom(0, D, L)|
    ensures AudioName(ChunkName(IntervalsFrom(0, D, L)[i]))
         == "chunk_" + NatToString(i * L) + "-" + NatToString(Min(i * L + L, D)) + ".wav"
  {
    ChunkAt(D, L, i);
    AudioNameOfChunk(IntervalsFrom(0, D, L)[i]);
  }

  /**
   * The chunk files of one video never share a name, so no chunk overwrites
   * another, and chunk `i` is written to `chunk_{i*L}-{min((i+1)*L, D)}.mp4`
   * with its audio in the matching `.wav`.
   */
  lemma ChunkFilesDistinct(D: nat, L: int)
    requires L > 0
    ensures var names := ChunkNames(Chunks(D, L).value);
      && (forall i, j :: 0 <= i < j < |names| ==> names[i] != names[j])
      && forall i :: 0 <= i < |names| ==>
           AudioNames(names)[i] == "chunk_" + NatToString(i * L) + "-" + NatToString(Min(i * L + L, D)) + ".wav"
  {
    var names := ChunkNames(IntervalsFrom(0, D, L));
    forall i, j | 0 <= i < j < |names| ensures names[i] != names[j] {
      ChunkNamesDiffer(D, L, i, j);
    }
    forall i | 0 <= i < |names|
      ensures AudioNames(names)[i] == "chunk_" + NatToString(i * L) + "-" + NatToString(Min(i * L + L, D)) + ".wav"
    {
      AudioNameAt(D, L, i);
    }
  }
}
