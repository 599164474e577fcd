# Video-to-transcript pipeline: a verified model of its sequential logic

`main.py` turns a long video into timestamped text. It cuts the video into
chunks of `chunk_duration` seconds (`split_video`), extracts each chunk's
audio as a WAV file (`extract_audio_from_chunks`), makes sure each WAV file
is in a format the Vosk recognizer accepts, converting it if not
(`convert_audio_to_vosk_format`), and runs the recognizer over it
(`recognize_speech_from_audio`). Recognized words collect in a text buffer,
which is written out as `[MM:SS] text` lines.

Most of the script is calls into moviepy, ffmpeg, pydub and Vosk. This
project models the three pieces of logic around those calls, in five Dafny
modules:

- `Wrappers` (`wrappers.dfy`): `Option` and `Result`.
- `Strings` (`strings.dfy`): the Python string operations the script relies
  on, on `seq<char>`. These are `str.split()` and `str.strip()` with no
  argument (whitespace as `str.isspace()` defines it), `str.replace`, the
  root part of `os.path.splitext` for a base name, and the decimal
  formatting of integers (`{n}` and `{n:02}`).
- `Chunking` (`chunking.dfy`): the chunk intervals of `split_video`, the
  chunk file names, and the audio file names derived from them. The
  interval list is a recursive function over the chunk start. The two
  naming loops are methods proved equal to that function.
- `Waveform` (`waveform.dfy`): the header test that decides whether a WAV
  file is used as it is or converted, and what conversion does to the
  format.
- `Transcriber` (`transcriber.dfy`): the buffer/flush state machine of
  `recognize_speech_from_audio`.
  - The recognizer is replaced by the stream it yields: one `Block` per
    `readframes(4000)` call, holding the byte count and, when a result was
    finalised, its `(word, start)` pairs.
  - The specification is a fold (`OnWord`, `OnWords`, `OnBlock`, `Run`,
    `Finish`). `Transcript` is the fold from an empty buffer and
    `current_time = start_time`.
  - The imperative loop (`RecognizeStream`, with `ReadBlock` and
    `TakeWords` for its body) keeps `buffer`, `current_time` and the written
    lines in local variables. It is proved to write exactly `Transcript`.
  - The loop invariant `Inv` carries word conservation, the emptiness
    facts and the ten-token bound.

Behaviour of the code that the model keeps as written:

- **Clock.** `current_time` advances by `len(data) / framerate`, which is
  bytes per frames-per-second. For 16-bit mono audio this is twice the audio
  time that passed. `BlockTime` and `Elapsed` model this as written.
- **Gap test.** It compares `word_start - current_time`, where `word_start`
  was itself computed as `start + current_time`. So the test is on the
  start the recognizer reports for the word, not on the time since the last
  line. `GapIsOffset` states this. The recognizer reports a word's start from
  the beginning of the audio file, so once the audio is 5 s in, the test
  fires on every word and every later line carries a single word.
  `LateWords` states this.
- **Line stamp.** A line written inside the loop is stamped with the time
  of the word that triggered the flush, not with the time of the first
  word in the buffer.
- **Empty lines.** The first word can trigger a gap flush while the buffer
  is still empty, which writes a line with no words. `EmptyLines` shows that
  this is the only line with no words. A later line can still render with
  no text, when every word it carries is blank.
- **Unreadable audio.** `wave.open` at `main.py:107` can raise `wave.Error`,
  which `main.py:110` catches and answers by converting the file. It can
  also raise errors that line does not catch, such as `FileNotFoundError`
  for a missing file or `EOFError` for a truncated header, and these end
  the call. `Prepare` and `RecognizeSpeech` model both cases.
- **Conversion and sample width.** Conversion sets the channel count and
  frame rate but never the sample width, although the comment at
  `main.py:78` says the output is 16-bit. `Convert` and `PreparedFormat`
  state exactly when the converted file passes the header test.
- **Token count.** The flush test uses `len(buffer.split())`. `TokenCount`
  computes this word by word, and `TokenCountIsSplit` proves that it equals
  the number of tokens of the buffer string. `TakeWords` uses the split
  count itself.

## Model

| member | source | states |
|---|---|---|
| Strings.Split | main.py:137 | `buffer.split()` yields only non-empty, whitespace-free tokens |
| Strings.LStrip | main.py:138 | the result is a suffix of the input, everything dropped is whitespace, and it starts with a non-space |
| Strings.RStrip | main.py:138 | the result is a prefix of the input, everything dropped is whitespace, and it ends with a non-space |
| Strings.StripEmpty | main.py:144 | `buffer.strip()` is empty exactly when the buffer is all whitespace |
| Strings.SplitSpacedCons | main.py:137-140 | the tokens of ` w1 w2 ...` are the tokens of `w1` followed by those of the rest |
| Strings.SplitSpaced | main.py:137-140 | for single-token words, splitting the buffer built by `buffer += f" {word}"` gives back exactly the words |
| Strings.SpacedSnoc | main.py:140 | appending a word to the word list is the string update `buffer += f" {word}"`: the new buffer is the old one, a space and the word |
| Strings.SpacedIsJoin | main.py:140 | a non-empty buffer is one space followed by the words joined by single spaces |
| Strings.StripSpaced | main.py:138 | for single-token words, the stripped buffer is the words joined by single spaces |
| Strings.TextOfTokens | main.py:138 | for single-token words, the stripped buffer splits back into the words and is empty only when no word was added |
| Strings.NatToString | main.py:24 | `f"{n}"` is a non-empty string of decimal digits that starts with `0` only for `n = 0` |
| Strings.ParseNatToString | main.py:24 | reading the decimal digits of `f"{n}"` gives back `n` |
| Strings.NatToStringInjective | main.py:24 | different numbers print differently |
| Strings.Pad2 | main.py:138 | `f"{n:02}"` has at least two characters, and for `0 <= n < 100` exactly two digits that read back as `n` |
| Strings.ReplaceSuffix | main.py:40 | replacing a pattern whose first character does not occur in the base, in `base + pattern`, replaces just that suffix |
| Strings.LastIndexOf | main.py:120 | the index found holds the character and nothing after it does; none is found exactly when the character is absent |
| Strings.StemOfExtension | main.py:120 | the `os.path.splitext` root of a dot-free base name plus a one-dot extension is the base name |
| Chunking.WholeSeconds | main.py:19 | `int(duration)` of a non-negative duration is its floor: within one second below it |
| Chunking.ChunkNames | main.py:24 | one name per chunk, in order: `chunk_{start}-{end}.mp4` |
| Chunking.AudioNames | main.py:40 | one audio name per chunk name, in order |
| Chunking.SplitVideo | main.py:19-29 | the loop returns the chunk names of `range(0, D, L)` with `D = int(duration)`, in order; a zero step is the `range()` error and nothing else is |
| Chunking.ExtractAudioNames | main.py:38-46 | the audio path list has one entry per chunk, each the chunk name with `.mp4` replaced by `.wav` |
| Chunking.IntervalsFromShape | main.py:22-23 | the chunks from start `s` number `ceil((D - s) / L)`; chunk `i` is `[s + i*L, min(s + i*L + L, D))` |
| Chunking.ChunkCount | main.py:19-23 | a zero chunk length is the only error; a negative length, or a video under one second, gives no chunk; otherwise there are `ceil(D/L)` chunks |
| Chunking.ChunkAt | main.py:22-23 | chunk `i` is `[i*L, min(i*L + L, D))` |
| Chunking.ChunkNumberBound | main.py:22-23 | every second before the end has a chunk number below the chunk count |
| Chunking.ChunkStartsInside | main.py:22 | every chunk starts before the video ends |
| Chunking.LastChunkEnd | main.py:23 | the last chunk ends at `D` |
| Chunking.Partition | main.py:22-23 | the chunks start at `i*L`, the first at 0; each ends where the next starts and the last ends at `D`; each is non-empty and at most `L` long, and all but the last are exactly `L` long |
| Chunking.Coverage | main.py:22-23 | every second of `[0, D)` lies in exactly one chunk, chunk number `t / L` |
| Chunking.ChunkBaseLacksDot | main.py:24 | a chunk's base name `chunk_{s}-{e}` contains no dot |
| Chunking.AudioNameOfChunk | main.py:40 | the audio of chunk `[s, e)` is named `chunk_{s}-{e}.wav` |
| Chunking.ChunkNameInjective | main.py:24 | different chunks get different file names |
| Chunking.ChunkNamesDiffer | main.py:22-24 | two different chunks of one video get different names |
| Chunking.AudioNameAt | main.py:40 | chunk `i`'s audio is `chunk_{i*L}-{min(i*L + L, D)}.wav` |
| Chunking.ChunkFilesDistinct | main.py:22-24 | no two chunks of a video share a file name, and chunk `i`'s audio is `chunk_{i*L}-{min(i*L + L, D)}.wav` |
| Waveform.Convert | main.py:76-85 | the converted file is mono, 16000 Hz and readable, with the original sample width |
| Waveform.Prepare | main.py:103-112 | a missing model raises first; an uncaught `wave.open` error raises next; otherwise the file is converted exactly when `wave.open` raises `wave.Error` or the file fails the header test, and is used unchanged when it passes |
| Waveform.PreparedFormat | main.py:107-112 | the file recognition opens is readable, mono, at a supported non-zero rate; it passes the whole header test exactly when it was used as is or its original sample width was 2 bytes |
| Waveform.ConvertIdempotentFormat | main.py:76-79 | converting a converted file changes no format field |
| Waveform.PrepareIdempotent | main.py:107-112 | with 2-byte samples, a prepared file is used as is the next time |
| Waveform.ConvertedNameOf | main.py:85 | the converted copy of `chunk_{s}-{e}.wav` is `chunk_{s}-{e}_converted.wav` |
| Transcriber.Seconds | main.py:135-136 | `int(t % 60)` is in `[0, 60)` and, with `int(t // 60)`, recomposes `floor(t)` |
| Transcriber.Words | main.py:132-133 | one word per result entry |
| Transcriber.WordsPointwise | main.py:133 | word `i` is the `word` field of result entry `i` |
| Transcriber.BlockTime | main.py:141 | a block never moves the clock back |
| Transcriber.Elapsed | main.py:125-141 | the stream never moves the clock back |
| Transcriber.WordsAppend | main.py:132-133 | the words of two result lists are the words of each, in order |
| Transcriber.EmittedAppend | main.py:138 | writing a line adds its words after those already written |
| Transcriber.OnWordEffect | main.py:133-140 | one word: it is taken after everything taken before, the clock stays, the buffer ends with it, and no written line changes |
| Transcriber.OnWordFlush | main.py:134-140 | one word: a line is written exactly when the buffer holds ten or more tokens or the word starts 5 s or more after the clock; the line holds the old buffer and the word's own stamp; the buffer becomes the word alone, or the old buffer plus the word |
| Transcriber.OnWordsEffect | main.py:132-140 | a result's words are taken in order, and the clock does not move |
| Transcriber.OnWordsKeepLines | main.py:132-140 | lines already written are not changed by a result's words |
| Transcriber.RunEffect | main.py:125-141 | every word of the stream up to the first empty read is taken, in order |
| Transcriber.RunClock | main.py:141 | the clock advances by exactly the elapsed block times |
| Transcriber.RunKeepsLines | main.py:125-141 | lines once written are never rewritten |
| Transcriber.TokenCountIsSplit | main.py:137 | the word-by-word count equals `len(buffer.split())` on the buffer string |
| Transcriber.OnWordInv | main.py:133-140 | taking a word keeps the loop invariant |
| Transcriber.OnWordTaken | main.py:133-140 | taking a word keeps conservation, and keeps every line after the first non-empty |
| Transcriber.OnWordBounded | main.py:137-140 | for single-token words, the flush test fires before an eleventh word, so the buffer and every line hold at most ten words |
| Transcriber.OnWordsInv | main.py:132-140 | a result's words keep the loop invariant |
| Transcriber.OnBlockInv | main.py:127-141 | a block keeps the loop invariant |
| Transcriber.RunInv | main.py:125-141 | the stream keeps the loop invariant |
| Transcriber.StartInv | main.py:121-124 | the empty buffer with the start clock satisfies the invariant |
| Transcriber.RunFromStart | main.py:121-141 | after the stream, the invariant holds for all heard words |
| Transcriber.ResidueNonEmpty | main.py:140-144 | once a word is heard, the buffer is never empty again |
| Transcriber.FinishInv | main.py:143-145 | for single-token words, the written lines hold exactly the heard words, each line at most ten |
| Transcriber.FinishBound | main.py:143-145 | writing the residue keeps every line within ten single-token words |
| Transcriber.OnWordFirst | main.py:137-139 | one word keeps this fact: the first line is empty exactly when the first heard word's offset reached 5 s |
| Transcriber.OnWordsFirst | main.py:132-140 | a result's words keep the first-line fact |
| Transcriber.RunFirst | main.py:125-141 | the stream keeps the first-line fact |
| Transcriber.BufferTokens | main.py:140 | the buffer is the tail of the taken words, so it holds single tokens when they all are |
| Transcriber.RunTakesHeard | main.py:121-141 | after the stream, the words taken are exactly the heard words, in order |
| Transcriber.FinishConservation | main.py:143-145 | writing the residue loses only a residue that is blank once stripped, and nothing for single-token words |
| Transcriber.Conservation | main.py:132-145 | the words of the transcript, in order, are the finalised heard words up to a blank residue; for single-token words they are exactly those words |
| Transcriber.LineBound | main.py:137-145 | for single-token words, every line holds at most ten words, and every line after the first holds at least one |
| Transcriber.EmptyLines | main.py:137-145 | only the first line can hold no words, and it holds none exactly when the first heard word starts 5 s or more after the clock |
| Transcriber.FinishEmptyLines | main.py:143-145 | writing the residue keeps the empty-line facts |
| Transcriber.ResidueWritten | main.py:144-145 | a non-empty residue of single-token words is written as the last line, stamped with the clock |
| Transcriber.FinalStamp | main.py:121-145 | the clock ends at `start_time` plus the elapsed time and never below `start_time`; for single-token words, once a word is heard, the last line is the residue stamped with that final clock |
| Transcriber.GapIsOffset | main.py:134-137 | the gap test holds exactly when the buffer has ten or more tokens or the word's own offset is 5 s or more |
| Transcriber.LateWords | main.py:134-140 | when every word of a result starts 5 s or more in, each word writes a line: the first carries the old buffer, each later one the single word before it, and the buffer ends as the last word |
| Transcriber.LineText | main.py:138 | for single-token words, a line's text is the words joined by single spaces and splits back into them |
| Transcriber.BufferBound | main.py:137-140 | after any single-token word, `len(buffer.split())` is between 1 and 10 |
| Transcriber.StampShape | main.py:138 | a `[MM:SS] ` prefix with two-digit fields reads back as those fields |
| Transcriber.RenderFormat | main.py:138 | a line stamped below 100 minutes renders as `[MM:SS] `, whose fields read back as its minutes and seconds, then the stripped buffer and a newline |
| Transcriber.StampRange | main.py:135-136 | a time in `[0, 6000)` seconds gets minutes in `[0, 100)` and seconds in `[0, 60)` |
| Transcriber.TakeWords | main.py:132-140 | the inner loop over a result's words computes the fold `OnWords` |
| Transcriber.ReadBlock | main.py:127-141 | one non-empty block: the new buffer, clock and lines are `OnBlock` of the old ones, and the clock does not move back |
| Transcriber.RecognizeStream | main.py:121-145 | the lines written are `Transcript`; for single-token words they hold every heard word exactly once, in order, at most ten per line |
| Transcriber.TranscriptNameOf | main.py:120 | the transcript of `chunk_{s}-{e}.wav` is `chunk_{s}-{e}.txt`, and that of its converted copy is `chunk_{s}-{e}_converted.txt` |
| Transcriber.RecognizeSpeech | main.py:92-147 | a missing model raises first and an uncaught `wave.open` error next; otherwise the prepared file, with a non-zero rate, is transcribed to the file named after it |

## Left out

- Media libraries. Reading the video duration, extracting subclips,
  writing audio (moviepy, ffmpeg) and decoding, resampling and exporting
  audio (pydub) are foreign calls. Conversion is modelled only by the
  header it produces.
- The Vosk recognizer. `Model`, `KaldiRecognizer`, `AcceptWaveform` and the
  JSON parsing of `Result()` become the `Block` stream given as input. A
  block whose result is missing, or has an empty `"result"` list, carries
  no words.
- Filesystem effects and console output. `os.makedirs`, file writes,
  `print`, and the directory parts of the `os.path.join`/`Path` paths are
  left out. Paths are modelled by their base names. The written file is the
  list of `Line` values; `Render` gives the text of one line.
- The existence check of the model directory is a boolean parameter.
- Floating point. Times are Dafny `real`, so IEEE rounding of
  `word_start` and `len(data) / framerate` is not modelled.
- `process_video_to_text` (main.py:52-63) is plumbing. It adds
  `str(None) + "\n"` per chunk, because `recognize_speech_from_audio`
  returns nothing. It also never passes `start_time`, so every chunk's
  stamps start from 0 rather than from the chunk's position in the video.
- The `__main__` block (main.py:149-156), with its fixed paths.
- Python type errors. The model does not cover a non-integer
  `chunk_duration` passed to `range()`, or a result entry without `word`
  or `start`.
- Waveform.Prepare: the audio conversion itself (pydub decoding and export)
  is taken to succeed; an exception it raises is not modelled.
- Transcriber.Conservation: holds for the words of results that
  `AcceptWaveform` finalised, which is what the `Block` stream carries. The
  loop never calls `FinalResult()` after the last read, so words the
  recognizer still held when the audio ended are lost by the script and
  are not among the heard words.
- Transcriber.OnWordBounded: the bound is stated for words that are single
  whitespace-free tokens. A recognizer word that contains spaces counts as
  several tokens in the flush test, and the buffer's word list is then
  not bounded by ten.
- Transcriber.LineBound: the same single-token restriction applies to the
  line bound.
- Transcriber.BufferBound: the same single-token restriction applies to
  the buffer bound.
- Transcriber.RecognizeStream: the same single-token restriction applies to
  its second ensures. Its first ensures, equality with `Transcript`, holds
  for all words.
- Transcriber.RenderFormat: stated for stamps of 0 to 99 minutes. From
  100 minutes on, `{minutes:02}` prints three or more digits and the
  prefix is longer.
- Strings.Stem: covers the root of `os.path.splitext` for base names
  only. The script calls it only on a base name.
