/**
 * The waveform-format gate of `recognize_speech_from_audio` and
 * `convert_audio_to_vosk_format`.
 *
 * Before recognition the script opens the audio with Python's `wave` module
 * and keeps the file only when it is mono, 16-bit and at 8000, 16000 or
 * 32000 Hz; otherwise, or when `wave` raises `wave.Error` on it, it
 * re-exports the audio as a mono 16000 Hz file in `wav_files/`. Any other
 * exception of `wave.open` escapes. A missing model directory raises before
 * the audio is looked at.
 */
module Waveform {
  import opened Strings

  /** What `getnchannels`, `getsampwidth` (bytes per sample) and `getframerate` report. */
  datatype Header = Header(channels: int, sampleWidth: int, frameRate: int)

  /**
   * How `wave.open` fares on a file: it opens it, it raises `wave.Error`
   * (not a RIFF/WAVE file, an unknown format tag), which line 110 catches, or
   * it raises something line 110 does not catch: `FileNotFoundError` for a
   * missing file, `EOFError` for a file cut short inside its header.
   */
  datatype Opening = Opens | WaveError | Uncaught

  /** An audio file: its name, the format of its audio, and how `wave.open` fares on it. */
  datatype AudioFile = AudioFile(name: string, header: Header, opening: Opening)

  /**
   * Where recognition starts from, or the exception that ends the call: the
   * `FileNotFoundError` raised for a missing model, or the uncaught error of
   * `wave.open` at line 107.
   */
  datatype Prepared = ModelNotFound | OpenFailed | Ready(file: AudioFile, converted: bool)

  const SupportedRates: set<int> := {8000, 16000, 32000}
  const TargetChannels := 1
  const TargetRate := 16000
  const RequiredSampleWidth := 2

  /** The header test at line 108. */
  predicate Supported(h: Header) {
    h.channels == TargetChannels && h.sampleWidth == RequiredSampleWidth && h.frameRate in SupportedRates
  }

  /** The file is used as it is: `wave` opens it and it passes the header test. */
  predicate UsableAsIs(f: AudioFile) {
    f.opening.Opens? && Supported(f.header)
  }

  /** `basename.replace(".wav", "_converted.wav")`, line 85. */
  function ConvertedName(audioName: string): string {
    ReplaceAll(audioName, ".wav", "_converted.wav")
  }

  /**
   * `convert_audio_to_vosk_format`: the audio forced to one channel and
   * 16000 Hz and exported as a WAV file that `wave` can read. The sample
   * width is whatever the decoded audio had: nothing in the conversion sets it.
   */
  function Convert(f: AudioFile): (g: AudioFile)
    ensures g.header.channels == TargetChannels && g.header.frameRate == TargetRate
    ensures g.header.sampleWidth == f.header.sampleWidth
    ensures g.opening.Opens?
  {
    AudioFile(ConvertedName(f.name), Header(TargetChannels, f.header.sampleWidth, TargetRate), Opens)
  }

  /**
   * Lines 103-112: check the model, then keep or convert the audio; an
   * exception of `wave.open` that line 110 does not catch ends the call.
   */
  function Prepare(modelExists: bool, f: AudioFile): (r: Prepared)
    ensures r.ModelNotFound? <==> !modelExists
    ensures r.OpenFailed? <==> modelExists && f.opening.Uncaught?
    ensures r.Ready? ==> (r.converted <==> !UsableAsIs(f))
    ensures r.Ready? && !r.converted ==> r.file == f
    ensures r.Ready? && r.converted ==> r.file == Convert(f)
  {
    if !modelExists then ModelNotFound
    else if f.opening.Uncaught? then OpenFailed
    else if UsableAsIs(f) then Ready(f, false)
    else Ready(Convert(f), true)
  }

  /**
   * Whatever file recognition opens is readable, mono and at a rate the
   * recognizer accepts, so the clock's division by the frame rate is defined.
   * It passes the whole header test exactly when it was used as it is or the
   * original sample width was already 2 bytes.
   */
  lemma PreparedFormat(f: AudioFile)
    requires Prepare(true, f).Ready?
    ensures var g := Prepare(true, f).file;
      && g.opening.Opens? && g.header.channels == TargetChannels
      && g.header.frameRate in SupportedRates && g.header.frameRate > 0
      && (Supported(g.header) <==> UsableAsIs(f) || f.header.sampleWidth == RequiredSampleWidth)
  {
  }

  /** Conversion only touches the format once: converting a converted file changes no format field. */
  lemma ConvertIdempotentFormat(f: AudioFile)
    ensures Convert(Convert(f)).header == Convert(f).header
  {
  }

  /** The gate is idempotent: a prepared file that passes the test is used as it is the next time. */
  lemma PrepareIdempotent(f: AudioFile)
    requires Prepare(true, f).Ready? && f.header.sampleWidth == RequiredSampleWidth
    ensures var g := Prepare(true, f).file; Prepare(true, g) == Ready(g, false)
  {
  }

  /** The converted audio of `chunk_{s}-{e}.wav` is `chunk_{s}-{e}_converted.wav`. */
  lemma ConvertedNameOf(base: string)
    requires Lacks(base, '.')
    ensures ConvertedName(base + ".wav") == base + "_converted.wav"
  {
    ReplaceSuffix(base, ".wav", "_converted.wav");
  }
}
