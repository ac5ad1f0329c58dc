/** Format dispatch (`src/decoder/mod.rs`, and its older snapshot `src/decoder.rs`):
    choosing a backend from a file extension or by trial-decoding a seekable reader,
    and the enum over the five decoders whose `info` / `into_samples` delegate to
    the active variant. Backends are oracles: what their `open`, `from_reader` and
    `try_decode` return is passed in. */
module Dispatch {
  import opened Common
  import Raw

  /** An opened backend decoder, seen from outside: its metadata and what its
      `into_samples` returns. */
  datatype Handle = Handle(info: AudioInfo, samples: Result<seq<Item>, DecoderError>)

  /** `FormatDecoder`: one variant per backend. */
  datatype FormatDecoder =
    | RawDec(raw: Raw.RawDecoder)
    | WavDec(h: Handle)
    | VorbisDec(h: Handle)
    | Mp3Dec(h: Handle)
    | FlacDec(h: Handle)

  /** The sample iterator a decoder turns into. */
  datatype SampleIterator =
    | RawSamples(it: Raw.RawSampleIterator)
    | BackendSamples(items: seq<Item>)

  predicate IsBackend(f: AudioFormat) {
    f != Raw
  }

  /** The extension literal of each `get_decoder!` arm. */
  function ExtensionOf(f: AudioFormat): string
    requires IsBackend(f)
  {
    match f
    case Wav => "wav"
    case Vorbis => "ogg"
    case Mp3 => "mp3"
    case Flac => "flac"
  }

  /** The cargo feature each arm requires. */
  function FeatureOf(f: AudioFormat): string
    requires IsBackend(f)
  {
    match f
    case Wav => "wav"
    case Vorbis => "vorbis"
    case Mp3 => "mp3"
    case Flac => "flac"
  }

  /** Exact, case-sensitive lookup of an extension among the four arms. */
  function FormatOfExtension(ext: string): (r: Option<AudioFormat>)
    ensures r.Some? ==> IsBackend(r.value) && ExtensionOf(r.value) == ext
  {
    if ext == "wav" then Some(Wav)
    else if ext == "ogg" then Some(Vorbis)
    else if ext == "mp3" then Some(Mp3)
    else if ext == "flac" then Some(Flac)
    else None
  }

  /** The variant a decoder is. */
  function Variant(fd: FormatDecoder): AudioFormat {
    match fd
    case RawDec(_) => Raw
    case WavDec(_) => Wav
    case VorbisDec(_) => Vorbis
    case Mp3Dec(_) => Mp3
    case FlacDec(_) => Flac
  }

  /** Wraps an opened backend in its variant. */
  function Wrap(f: AudioFormat, h: Handle): (fd: FormatDecoder)
    requires IsBackend(f)
    ensures Variant(fd) == f && !fd.RawDec? && fd.h == h
  {
    match f
    case Wav => WavDec(h)
    case Vorbis => VorbisDec(h)
    case Mp3 => Mp3Dec(h)
    case Flac => FlacDec(h)
  }

  /** The `match` that `get_decoder!` expands to, up to the backend call: an enabled
      arm selects its backend, a disabled one reports `DisabledExtension`, and any
      other string is an `UnsupportedExtension`. */
  function GetDecoder(ext: string, features: set<string>): (r: Result<AudioFormat, DecoderError>)
    ensures r.Ok? <==> FormatOfExtension(ext).Some? && FeatureOf(FormatOfExtension(ext).value) in features
    ensures r.Ok? ==> r.value == FormatOfExtension(ext).value
    ensures r == Err(UnsupportedExtension(ext)) <==> FormatOfExtension(ext).None?
    ensures (r.Err? && r.error.DisabledExtension?) <==>
            FormatOfExtension(ext).Some? && FeatureOf(FormatOfExtension(ext).value) !in features
    ensures r.Err? && r.error.DisabledExtension? ==>
            r.error == DisabledExtension(ext, FeatureOf(FormatOfExtension(ext).value))
  {
    match FormatOfExtension(ext)
    case None => Err(UnsupportedExtension(ext))
    case Some(f) =>
      if FeatureOf(f) in features then Ok(f) else Err(DisabledExtension(ExtensionOf(f), FeatureOf(f)))
  }

  /** Each backend's own extension selects it when its feature is enabled, and reports
      exactly its extension and feature when not. */
  lemma ExtensionSelectsBackend(f: AudioFormat, features: set<string>)
    requires IsBackend(f)
    ensures GetDecoder(ExtensionOf(f), features) ==
            if FeatureOf(f) in features then Ok(f) else Err(DisabledExtension(ExtensionOf(f), FeatureOf(f)))
  {
    assert FormatOfExtension(ExtensionOf(f)) == Some(f);
  }

  /** `open`: no (UTF-8) extension gives `NoExtension`; otherwise the selected
      backend's own `open` result, wrapped in its variant. */
  function Open(ext: Option<string>, features: set<string>, open: AudioFormat -> Result<Handle, DecoderError>)
    : (r: Result<FormatDecoder, DecoderError>)
    ensures ext.None? ==> r == Err(NoExtension)
    ensures ext.Some? && GetDecoder(ext.value, features).Err? ==> r == Err(GetDecoder(ext.value, features).error)
    ensures r.Ok? ==>
      && ext.Some? && GetDecoder(ext.value, features) == Ok(Variant(r.value))
      && !r.value.RawDec? && open(Variant(r.value)) == Ok(r.value.h)
    ensures ext.Some? && GetDecoder(ext.value, features).Ok? ==>
      var f := GetDecoder(ext.value, features).value;
      && (open(f).Err? ==> r == Err(open(f).error))
      && (open(f).Ok? ==> r == Ok(Wrap(f, open(f).value)))
  {
    match ext
    case None => Err(NoExtension)
    case Some(e) =>
      match GetDecoder(e, features)
      case Err(err) => Err(err)
      case Ok(f) =>
        match open(f)
        case Err(err) => Err(err)
        case Ok(h) => Ok(Wrap(f, h))
  }

  /** Opening a path with an upper-case extension is not a match: the lookup is exact. */
  lemma OpenIsCaseSensitive(features: set<string>, open: AudioFormat -> Result<Handle, DecoderError>)
    ensures Open(Some("WAV"), features, open) == Err(UnsupportedExtension("WAV"))
    ensures Open(Some("xyz"), features, open) == Err(UnsupportedExtension("xyz"))
    ensures Open(None, features, open) == Err(NoExtension)
    ensures "flac" !in features ==> Open(Some("flac"), features, open) == Err(DisabledExtension("flac", "flac"))
    ensures "vorbis" !in features ==> Open(Some("ogg"), features, open) == Err(DisabledExtension("ogg", "vorbis"))
  {
    assert FormatOfExtension("WAV").None? by {
      assert "WAV"[0] != "wav"[0] && |"WAV"| != |"flac"|;
    }
  }

  /** `Decoder::open_raw`: a file that fails to open gives `IOError`; otherwise the raw
      decoder is built, which may itself fail to seek. */
  method OpenRaw(file: Result<Raw.ByteSource, IoError>, spec: RawAudioSpec) returns (r: Result<FormatDecoder, DecoderError>)
    requires file.Ok? ==> file.value.Valid()
    modifies if file.Ok? then {file.value} else {}
    ensures file.Err? ==> r == Err(IOError(file.error))
    ensures file.Ok? && file.value.seekError.Some? ==> r == Err(IOError(file.value.seekError.value))
    ensures file.Ok? && file.value.seekError.None? ==>
      && r.Ok? && r.value.RawDec? && fresh(r.value.raw) && r.value.raw.Valid()
      && r.value.raw.reader == file.value && r.value.raw.spec == spec
      && file.value.pos == spec.startOffset
  {
    if file.Err? {
      return Err(IOError(file.error));
    }
    var d := Raw.RawDecoder.New(file.value, spec);
    match d
    case Err(err) => r := Err(err);
    case Ok(raw) => r := Ok(RawDec(raw));
  }

  ghost predicate ValidDecoder(fd: FormatDecoder)
    reads if fd.RawDec? then {fd.raw, fd.raw.reader} else {}
  {
    fd.RawDec? ==> fd.raw.Valid()
  }

  /** `info`: the active variant's own metadata, unchanged. */
  function Info(fd: FormatDecoder): (info: AudioInfo)
    requires ValidDecoder(fd)
    reads if fd.RawDec? then {fd.raw, fd.raw.reader} else {}
    ensures fd.RawDec? ==> info == Raw.RawInfo(fd.raw.spec) && info.format == Raw
    ensures !fd.RawDec? ==> info == fd.h.info
  {
    match fd
    case RawDec(d) => d.Info()
    case WavDec(h) => h.info
    case VorbisDec(h) => h.info
    case Mp3Dec(h) => h.info
    case FlacDec(h) => h.info
  }

  /** `into_samples`: the active variant's own iterator, or its error, unchanged. */
  method IntoSamples(fd: FormatDecoder) returns (r: Result<SampleIterator, DecoderError>)
    requires ValidDecoder(fd)
    ensures fd.RawDec? ==>
      && r.Ok? && r.value.RawSamples? && fresh(r.value.it)
      && r.value.it.reader == fd.raw.reader
      && r.value.it.format == fd.raw.spec.sampleFormat && r.value.it.endian == fd.raw.spec.endianness
    ensures !fd.RawDec? ==>
      r == match fd.h.samples
           case Ok(items) => Ok(BackendSamples(items))
           case Err(e) => Err(e)
  {
    match fd
    case RawDec(d) =>
      var it := d.IntoSamples();
      r := Ok(RawSamples(it));
    case _ =>
      match fd.h.samples
      case Ok(items) => r := Ok(BackendSamples(items));
      case Err(e) => r := Err(e);
  }

  /** A decoder opened by extension reports the metadata of the backend its extension
      names, and its samples are that backend's samples. */
  lemma OpenedDecoderDelegates(ext: string, features: set<string>, open: AudioFormat -> Result<Handle, DecoderError>)
    requires Open(Some(ext), features, open).Ok?
    ensures var fd := Open(Some(ext), features, open).value;
            && FormatOfExtension(ext) == Some(Variant(fd))
            && Info(fd) == open(Variant(fd)).value.info
            && fd.h.samples == open(Variant(fd)).value.samples
  {
  }

  // ---------------------------------------------------------------------------
  // Content sniffing
  // ---------------------------------------------------------------------------

  /** What one backend's `try_decode` returns when started at a position, and where
      it leaves the reader. */
  datatype ProbeOutcome = ProbeOutcome(result: Result<bool, DecoderError>, endPos: nat)

  type Probe = (AudioFormat, nat) -> ProbeOutcome

  /** The reader being sniffed: its position, what its seeks fail with, and (as
      history) the backends whose probe has run on it. */
  class SniffReader {
    var pos: nat
    const seekError: Option<IoError>
    ghost var probed: seq<AudioFormat>

    constructor (pos: nat, seekError: Option<IoError>)
      ensures this.pos == pos && this.seekError == seekError && probed == []
    {
      this.pos := pos;
      this.seekError := seekError;
      probed := [];
    }
  }

  /** The fixed trial order of `from_reader`, with the extension each stands for. */
  const Candidates: seq<(AudioFormat, string)> := [(Flac, "flac"), (Mp3, "mp3"), (Vorbis, "ogg"), (Wav, "wav")]

  predicate Compiled(f: AudioFormat, features: set<string>) {
    IsBackend(f) && FeatureOf(f) in features
  }

  datatype TryOutcome = TryOutcome(result: Result<bool, DecoderError>, pos: nat, ran: bool)

  /** `try_decode`: a compiled-in backend probes (an error returns at once, before
      the rewind); a format not compiled in answers `false`; then the reader is sought
      back to 0, whose failure is an `IOError`. */
  function TryDecodeSpec(f: AudioFormat, features: set<string>, probe: Probe, pos: nat, seekError: Option<IoError>)
    : (t: TryOutcome)
    ensures t.ran <==> Compiled(f, features)
    ensures t.result == Ok(true) ==> t.ran && t.pos == 0 && probe(f, pos).result == Ok(true)
    ensures !Compiled(f, features) ==> t.result != Ok(true)
  {
    var probed := Compiled(f, features);
    var outcome := if probed then probe(f, pos) else ProbeOutcome(Ok(false), pos);
    match outcome.result
    case Err(err) => TryOutcome(Err(err), outcome.endPos, probed)
    case Ok(found) =>
      if seekError.Some? then TryOutcome(Err(IOError(seekError.value)), outcome.endPos, probed)
      else TryOutcome(Ok(found), 0, probed)
  }

  method TryDecode(reader: SniffReader, f: AudioFormat, features: set<string>, probe: Probe)
    returns (r: Result<bool, DecoderError>)
    modifies reader
    ensures var t := TryDecodeSpec(f, features, probe, old(reader.pos), reader.seekError);
            && r == t.result && reader.pos == t.pos
            && reader.probed == old(reader.probed) + (if t.ran then [f] else [])
  {
    var found := false;
    if Compiled(f, features) {
      var outcome := probe(f, reader.pos);
      reader.pos := outcome.endPos;
      reader.probed := reader.probed + [f];
      if outcome.result.Err? {
        return Err(outcome.result.error);
      }
      found := outcome.result.value;
    }
    if reader.seekError.Some? {
      return Err(IOError(reader.seekError.value));
    }
    reader.pos := 0;
    r := Ok(found);
  }

  datatype SniffOutcome = SniffOutcome(ext: string, pos: nat, probed: seq<AudioFormat>)

  /** The lazy `filter_map(..).next()` over the candidates: the first candidate whose
      `try_decode` is `Ok(true)` gives its extension and nothing after it is tried;
      `Ok(false)` and errors alike move on; no match gives the default `""`. */
  function Sniff(cands: seq<(AudioFormat, string)>, features: set<string>, probe: Probe, pos: nat,
                 seekError: Option<IoError>): SniffOutcome
  {
    if cands == [] then SniffOutcome("", pos, [])
    else
      var t := TryDecodeSpec(cands[0].0, features, probe, pos, seekError);
      var ran := if t.ran then [cands[0].0] else [];
      if t.result == Ok(true) then SniffOutcome(cands[0].1, t.pos, ran)
      else
        var rest := Sniff(cands[1..], features, probe, t.pos, seekError);
        SniffOutcome(rest.ext, rest.pos, ran + rest.probed)
  }

  /** A sniffing outcome preceded by probes already run. */
  function After(probed: seq<AudioFormat>, s: SniffOutcome): SniffOutcome {
    SniffOutcome(s.ext, s.pos, probed + s.probed)
  }

  /** One step of sniffing from the i-th candidate on. */
  lemma SniffAt(cands: seq<(AudioFormat, string)>, i: nat, features: set<string>, probe: Probe, pos: nat,
                seekError: Option<IoError>)
    requires i < |cands|
    ensures var t := TryDecodeSpec(cands[i].0, features, probe, pos, seekError);
            var ran := if t.ran then [cands[i].0] else [];
            Sniff(cands[i..], features, probe, pos, seekError) ==
              if t.result == Ok(true) then SniffOutcome(cands[i].1, t.pos, ran)
              else After(ran, Sniff(cands[i + 1..], features, probe, t.pos, seekError))
  {
    assert cands[i..][1..] == cands[i + 1..];
  }

  /** Builds the decoder for a sniffed extension through the `get_decoder!` arms. */
  function Select(ext: string, features: set<string>, fromReader: AudioFormat -> Result<Handle, DecoderError>)
    : Result<FormatDecoder, DecoderError>
  {
    match GetDecoder(ext, features)
    case Err(err) => Err(err)
    case Ok(f) =>
      match fromReader(f)
      case Err(err) => Err(err)
      case Ok(h) => Ok(Wrap(f, h))
  }

  /** The lazy search of `from_reader`: `try_decode` on each candidate in turn until
      one answers `Ok(true)`; its extension, or `""` when none does. */
  method FirstMatch(reader: SniffReader, cands: seq<(AudioFormat, string)>, features: set<string>, probe: Probe)
    returns (ext: string)
    modifies reader
    ensures var s := Sniff(cands, features, probe, old(reader.pos), reader.seekError);
            && ext == s.ext && reader.pos == s.pos
            && reader.probed == old(reader.probed) + s.probed
  {
    ghost var start := reader.pos;
    ghost var before := reader.probed;
    ghost var done: seq<AudioFormat> := [];
    ext := "";
    var i := 0;
    assert cands[i..] == cands;
    assert before + done == before;
    while i < |cands|
      invariant 0 <= i <= |cands|
      invariant reader.probed == before + done
      invariant Sniff(cands, features, probe, start, reader.seekError) ==
                After(done, Sniff(cands[i..], features, probe, reader.pos, reader.seekError))
      invariant ext == ""
    {
      ghost var t := TryDecodeSpec(cands[i].0, features, probe, reader.pos, reader.seekError);
      ghost var ran := if t.ran then [cands[i].0] else [];
      SniffAt(cands, i, features, probe, reader.pos, reader.seekError);
      var r := TryDecode(reader, cands[i].0, features, probe);
      assert reader.probed == before + (done + ran);
      if r == Ok(true) {
        ext := cands[i].1;
        return;
      }
      AfterAfter(done, ran, Sniff(cands[i + 1..], features, probe, reader.pos, reader.seekError));
      done := done + ran;
      i := i + 1;
    }
  }

  lemma AfterAfter(a: seq<AudioFormat>, b: seq<AudioFormat>, s: SniffOutcome)
    ensures After(a, After(b, s)) == After(a + b, s)
  {
    assert a + (b + s.probed) == (a + b) + s.probed;
  }

  /** `from_reader`: sniff over the fixed candidate order, then open the match
      through the `get_decoder!` arms (no match: `UnsupportedExtension("")`). */
  method FromReader(reader: SniffReader, features: set<string>, probe: Probe,
                    fromReader: AudioFormat -> Result<Handle, DecoderError>)
    returns (r: Result<FormatDecoder, DecoderError>)
    modifies reader
    ensures var s := Sniff(Candidates, features, probe, old(reader.pos), reader.seekError);
            && reader.pos == s.pos
            && reader.probed == old(reader.probed) + s.probed
            && r == Select(s.ext, features, fromReader)
  {
    var ext := FirstMatch(reader, Candidates, features, probe);
    r := Select(ext, features, fromReader);
  }

  /** The compiled-in formats among the candidates, in trial order. */
  function Enabled(cands: seq<(AudioFormat, string)>, features: set<string>): (fs: seq<AudioFormat>)
    ensures forall i :: 0 <= i < |fs| ==> Compiled(fs[i], features)
  {
    if cands == [] then []
    else (if Compiled(cands[0].0, features) then [cands[0].0] else []) + Enabled(cands[1..], features)
  }

  /** Sniffing probes the compiled-in candidates in trial order, each once, and stops
      after the first that says yes: what it probed is a prefix of them, and all of
      them when none matches. */
  lemma {:induction false} SniffProbesEnabledPrefix(cands: seq<(AudioFormat, string)>, features: set<string>,
                                                    probe: Probe, pos: nat, seekError: Option<IoError>)
    requires forall k :: 0 <= k < |cands| ==> cands[k].1 != ""
    ensures var s := Sniff(cands, features, probe, pos, seekError);
            && s.probed <= Enabled(cands, features)
            && (s.ext == "" ==> s.probed == Enabled(cands, features))
  {
    if cands != [] {
      var t := TryDecodeSpec(cands[0].0, features, probe, pos, seekError);
      var ran := if t.ran then [cands[0].0] else [];
      var later := Enabled(cands[1..], features);
      assert Enabled(cands, features) == ran + later;
      if t.result != Ok(true) {
        SniffProbesEnabledPrefix(cands[1..], features, probe, t.pos, seekError);
        var rest := Sniff(cands[1..], features, probe, t.pos, seekError);
        assert Sniff(cands, features, probe, pos, seekError) == After(ran, rest);
        PrefixExtend(ran, rest.probed, later);
      } else {
        assert Sniff(cands, features, probe, pos, seekError).probed == ran;
        PrefixOfConcat(ran, later);
      }
    }
  }

  lemma PrefixOfConcat(a: seq<AudioFormat>, b: seq<AudioFormat>)
    ensures a <= a + b
  {
    assert (a + b)[..|a|] == a;
  }

  lemma PrefixExtend(a: seq<AudioFormat>, b: seq<AudioFormat>, c: seq<AudioFormat>)
    requires b <= c
    ensures a + b <= a + c
  {
    assert c[..|b|] == b;
    assert (a + c)[..|a + b|] == a + c[..|b|];
  }

  /** A candidate that pairs a backend with that backend's own extension. */
  predicate Tagged(c: (AudioFormat, string)) {
    IsBackend(c.0) && c.1 == ExtensionOf(c.0)
  }

  /** When sniffing settles on an extension, that extension belongs to the format of
      the last probe run (a backend), which answered `Ok(true)`, after which the reader
      was rewound to 0; no later candidate was probed. */
  lemma SniffCommitsToFirstYes(cands: seq<(AudioFormat, string)>, features: set<string>, probe: Probe,
                               pos: nat, seekError: Option<IoError>)
    requires forall k :: 0 <= k < |cands| ==> Tagged(cands[k])
    ensures var s := Sniff(cands, features, probe, pos, seekError);
            s.ext != "" ==>
              && |s.probed| >= 1 && Tagged((s.probed[|s.probed| - 1], s.ext))
              && s.pos == 0
  {
    var s := Sniff(cands, features, probe, pos, seekError);
    var k := SniffWinner(cands, features, probe, pos, seekError);
    if s.ext != "" {
      LastTagged(s.probed, s.ext, cands[k]);
    }
  }

  /** The candidate a settled sniff took its extension from: its format is the last
      one probed, and the reader was rewound to 0. */
  lemma {:induction false} SniffWinner(cands: seq<(AudioFormat, string)>, features: set<string>, probe: Probe,
                                       pos: nat, seekError: Option<IoError>)
    returns (k: nat)
    ensures var s := Sniff(cands, features, probe, pos, seekError);
            s.ext != "" ==>
              && k < |cands| && |s.probed| >= 1
              && s.probed[|s.probed| - 1] == cands[k].0 && s.ext == cands[k].1 && s.pos == 0
  {
    k := 0;
    if cands != [] {
      var t := TryDecodeSpec(cands[0].0, features, probe, pos, seekError);
      var ran := if t.ran then [cands[0].0] else [];
      var s := Sniff(cands, features, probe, pos, seekError);
      if t.result == Ok(true) {
        assert t.ran && s.probed == [cands[0].0];
      } else {
        var rest := Sniff(cands[1..], features, probe, t.pos, seekError);
        assert s.probed == ran + rest.probed && s.ext == rest.ext && s.pos == rest.pos;
        var j := SniffWinner(cands[1..], features, probe, t.pos, seekError);
        if rest.ext != "" {
          LastOfConcat(ran, rest.probed);
          assert cands[1..][j] == cands[j + 1];
        }
        k := j + 1;
      }
    }
  }

  /** Format f, tried with the reader at `before`, answered something other than
      `Ok(true)` and left the reader at `after`. */
  predicate Declined(f: AudioFormat, features: set<string>, probe: Probe, before: nat, after: nat,
                     seekError: Option<IoError>)
  {
    var t := TryDecodeSpec(f, features, probe, before, seekError);
    t.result != Ok(true) && after == t.pos
  }

  /** Sniffing commits to the first candidate whose `try_decode` answers `Ok(true)`.
      k is that candidate (or |cands| when there is none) and ps[j] the position the
      reader had when candidate j was tried: every candidate before k answered
      something other than `Ok(true)` (`Ok(false)` or an error alike), the winner
      answered `Ok(true)` and gives the extension, with the reader rewound to 0;
      with no winner the extension is the default "". */
  lemma {:induction false} SniffFirstYes(cands: seq<(AudioFormat, string)>, features: set<string>, probe: Probe,
                                         pos: nat, seekError: Option<IoError>)
    returns (k: nat, ps: seq<nat>)
    ensures k <= |cands| && |ps| == k + 1 && ps[0] == pos
    ensures forall j :: 0 <= j < k ==> Declined(cands[j].0, features, probe, ps[j], ps[j + 1], seekError)
    ensures var s := Sniff(cands, features, probe, pos, seekError);
            k < |cands| ==>
              && TryDecodeSpec(cands[k].0, features, probe, ps[k], seekError).result == Ok(true)
              && s.ext == cands[k].1 && s.pos == 0
    ensures var s := Sniff(cands, features, probe, pos, seekError);
            k == |cands| ==> s.ext == "" && s.pos == ps[k]
  {
    k, ps := 0, [pos];
    var s := Sniff(cands, features, probe, pos, seekError);
    if cands == [] {
      assert s.ext == "" && s.pos == pos;
    } else {
      var t := TryDecodeSpec(cands[0].0, features, probe, pos, seekError);
      if t.result == Ok(true) {
        assert s.ext == cands[0].1 && s.pos == t.pos == 0;
      } else {
        var rest := Sniff(cands[1..], features, probe, t.pos, seekError);
        assert s.ext == rest.ext && s.pos == rest.pos;
        var k', ps' := SniffFirstYes(cands[1..], features, probe, t.pos, seekError);
        k, ps := k' + 1, [pos] + ps';
        forall j | 0 <= j < k
          ensures Declined(cands[j].0, features, probe, ps[j], ps[j + 1], seekError)
        {
          if j > 0 {
            assert ps[j] == ps'[j - 1] && ps[j + 1] == ps'[j] && cands[j] == cands[1..][j - 1];
          } else {
            assert ps[0] == pos && ps[1] == ps'[0];
          }
        }
        if k < |cands| {
          assert ps[k] == ps'[k'] && cands[k] == cands[1..][k'];
        }
      }
    }
  }

  lemma LastTagged(probed: seq<AudioFormat>, ext: string, c: (AudioFormat, string))
    requires |probed| >= 1 && Tagged(c) && probed[|probed| - 1] == c.0 && ext == c.1
    ensures Tagged((probed[|probed| - 1], ext))
  {
  }

  lemma LastOfConcat(a: seq<AudioFormat>, b: seq<AudioFormat>)
    requires |b| >= 1
    ensures |a + b| >= 1 && (a + b)[|a + b| - 1] == b[|b| - 1]
  {
  }

  /** A reader that cannot seek defeats sniffing: every `try_decode` ends in an error
      (the probe's own or the failed rewind), so no candidate matches, whatever the
      probes answer, and `from_reader` reports `UnsupportedExtension("")`. */
  lemma {:induction false} UnseekableNeverMatches(cands: seq<(AudioFormat, string)>, features: set<string>, probe: Probe,
                                                  pos: nat, seekError: Option<IoError>,
                                                  fromReader: AudioFormat -> Result<Handle, DecoderError>)
    requires seekError.Some?
    ensures Sniff(cands, features, probe, pos, seekError).ext == ""
    ensures Select(Sniff(cands, features, probe, pos, seekError).ext, features, fromReader) == Err(UnsupportedExtension(""))
  {
    if cands != [] {
      var t := TryDecodeSpec(cands[0].0, features, probe, pos, seekError);
      UnseekableNeverMatches(cands[1..], features, probe, t.pos, seekError, fromReader);
    }
  }

  /** Probe errors count as "not this format": if every compiled-in probe fails,
      `from_reader` reports `UnsupportedExtension("")`. */
  lemma {:induction false} ProbeErrorsAreSwallowed(cands: seq<(AudioFormat, string)>, features: set<string>, probe: Probe,
                                                   pos: nat, seekError: Option<IoError>,
                                                   fromReader: AudioFormat -> Result<Handle, DecoderError>)
    requires forall f, p :: probe(f, p).result.Err?
    ensures Sniff(cands, features, probe, pos, seekError).ext == ""
    ensures Select(Sniff(cands, features, probe, pos, seekError).ext, features, fromReader) == Err(UnsupportedExtension(""))
  {
    if cands != [] {
      var t := TryDecodeSpec(cands[0].0, features, probe, pos, seekError);
      ProbeErrorsAreSwallowed(cands[1..], features, probe, t.pos, seekError, fromReader);
    }
  }

  /** A failed probe is not rewound: the next candidate is probed from wherever the
      failing one left the reader. */
  lemma FailedProbeNotRewound(features: set<string>, probe: Probe, pos: nat, seekError: Option<IoError>)
    requires Compiled(Flac, features) && probe(Flac, pos).result.Err?
    ensures Sniff(Candidates, features, probe, pos, seekError) ==
            var rest := Sniff(Candidates[1..], features, probe, probe(Flac, pos).endPos, seekError);
            SniffOutcome(rest.ext, rest.pos, [Flac] + rest.probed)
  {
  }

  /** A stream that only the WAV probe recognises (every probe starting at 0, the
      reader seekable) is sniffed as WAV and opened through the WAV backend's
      `from_reader`, exactly as a `.wav` path would pick the WAV backend. */
  lemma SniffIdentifiesWav(features: set<string>, probe: Probe, fromReader: AudioFormat -> Result<Handle, DecoderError>)
    requires "wav" in features
    requires forall f :: f != Wav ==> probe(f, 0).result == Ok(false)
    requires probe(Wav, 0).result == Ok(true)
    ensures Sniff(Candidates, features, probe, 0, None).ext == "wav"
    ensures Select("wav", features, fromReader) ==
            match fromReader(Wav) case Ok(h) => Ok(WavDec(h)) case Err(e) => Err(e)
    ensures GetDecoder("wav", features) == Ok(Wav)
  {
    var c1 := Candidates[1..];
    var c2 := c1[1..];
    var c3 := c2[1..];
    assert c3 == [(Wav, "wav")];
    assert Sniff(c3, features, probe, 0, None).ext == "wav";
    assert Sniff(c2, features, probe, 0, None).ext == "wav";
    assert Sniff(c1, features, probe, 0, None).ext == "wav";
  }
}
