/** The MP3 backend (`src/decoder/mp3.rs`): a frame reader whose first audio frame
    fixes the stream's rate and channel count, and a sample iterator that walks each
    frame's 16-bit samples and pulls the next frame when the current one is spent. */
module Mp3Backend {
  import opened Common

  /** A decoded frame: interleaved 16-bit samples, the frame's sample rate (`i32` in
      the frame library) and channel count. */
  datatype Frame = Frame(data: seq<int>, sampleRate: int, channels: nat)

  /** The frame library's errors. */
  datatype Mp3Error = Io(io: IoError) | InsufficientData | SkippedData | Eof

  type FrameResult = Result<Frame, Mp3Error>

  /** `x as u32` for an integer of the `i32` range: wrap modulo 2^32. */
  function AsU32(x: int): (u: nat)
    ensures u < 0x1_0000_0000
    ensures 0 <= x < 0x1_0000_0000 ==> u == x
  {
    x % 0x1_0000_0000
  }

  const NoAudioMsg: string := "mp3: no audio data"
  const InsufficientMsg: string := "mp3: insufficient data"
  const RateMsg: string := "mp3: streams with variable sample rates are not supported"
  const ChannelMsg: string := "mp3: streams with variable channel counts are not supported"

  /** `mp3_err_to_decoder_err`; the other two errors are handled by every caller first
      (the function would panic on them). */
  function ErrToDecoderErr(e: Mp3Error): (d: DecoderError)
    requires e.Io? || e.InsufficientData?
    ensures e.Io? <==> d.IOError?
    ensures e.Io? ==> d == IOError(e.io)
    ensures e.InsufficientData? ==> d == FormatError(InsufficientMsg)
  {
    match e
    case Io(io) => IOError(io)
    case InsufficientData => FormatError(InsufficientMsg)
  }

  /** What `next_frame` answers at position `i` of a scripted frame sequence; past the
      end it keeps answering `Eof`. */
  function FrameAt(results: seq<FrameResult>, i: nat): FrameResult {
    if i < |results| then results[i] else Err(Eof)
  }

  /** The frame reader: a scripted sequence of `next_frame` results and how many
      have been consumed. */
  class FrameReader {
    const results: seq<FrameResult>
    var idx: nat

    ghost predicate Valid()
      reads this
    {
      idx <= |results|
    }

    constructor (results: seq<FrameResult>)
      ensures Valid() && this.results == results && idx == 0
    {
      this.results := results;
      idx := 0;
    }

    method NextFrame() returns (r: FrameResult)
      requires Valid()
      modifies this`idx
      ensures Valid()
      ensures r == FrameAt(results, old(idx))
      ensures idx == if old(idx) < |results| then old(idx) + 1 else old(idx)
    {
      r := FrameAt(results, idx);
      if idx < |results| {
        idx := idx + 1;
      }
    }
  }

  /** The loop of `open`: skip `SkippedData`; the first frame that decodes, even an
      empty one, is the first frame; `Eof` means there is no audio. */
  function FirstFrame(results: seq<FrameResult>, idx: nat): (r: Result<(Frame, nat), DecoderError>)
    requires idx <= |results|
    ensures r.Ok? ==>
      && idx < r.value.1 <= |results|
      && results[r.value.1 - 1] == Ok(r.value.0)
      && forall k :: idx <= k < r.value.1 - 1 ==> results[k] == Err(SkippedData)
    ensures r.Err? && r.error != FormatError(NoAudioMsg) ==>
      exists k :: idx <= k < |results| && results[k].Err? && ErrorsOut(results[k].error)
    decreases |results| - idx
  {
    if idx == |results| then Err(FormatError(NoAudioMsg))
    else
      match results[idx]
      case Ok(frame) => Ok((frame, idx + 1))
      case Err(SkippedData) => FirstFrame(results, idx + 1)
      case Err(Eof) => Err(FormatError(NoAudioMsg))
      case Err(e) => Err(ErrToDecoderErr(e))
  }

  /** The frame-library errors the decoder passes on rather than skipping or ending on. */
  predicate ErrorsOut(e: Mp3Error) {
    e.Io? || e.InsufficientData?
  }

  /** An opened MP3 stream. */
  class Mp3Decoder {
    const reader: FrameReader
    const firstFrame: Frame
    const sampleRate: nat
    const channels: nat

    ghost predicate Valid()
      reads this, reader
    {
      && reader.Valid()
      && sampleRate == AsU32(firstFrame.sampleRate)
      && channels == firstFrame.channels
    }

    constructor Init(reader: FrameReader, firstFrame: Frame)
      requires reader.Valid()
      ensures Valid() && this.reader == reader && this.firstFrame == firstFrame
    {
      this.reader := reader;
      this.firstFrame := firstFrame;
      sampleRate := AsU32(firstFrame.sampleRate);
      channels := firstFrame.channels;
    }

    /** `Mp3Decoder::open`: a file that fails to open is an `IOError`; otherwise the
        reader is advanced to the first frame, which fixes rate and channel count. */
    static method Open(file: Result<FrameReader, IoError>) returns (r: Result<Mp3Decoder, DecoderError>)
      requires file.Ok? ==> file.value.Valid()
      modifies if file.Ok? then {file.value} else {}
      ensures file.Err? ==> r == Err(IOError(file.error))
      ensures file.Ok? ==>
        match FirstFrame(file.value.results, old(file.value.idx))
        case Err(e) => r == Err(e)
        case Ok(p) =>
          && r.Ok? && fresh(r.value) && r.value.Valid()
          && r.value.reader == file.value && r.value.firstFrame == p.0
          && file.value.idx == p.1
    {
      if file.Err? {
        return Err(IOError(file.error));
      }
      var reader := file.value;
      var first: Frame;
      while true
        invariant reader.Valid()
        invariant FirstFrame(reader.results, old(reader.idx)) == FirstFrame(reader.results, reader.idx)
        decreases |reader.results| - reader.idx
      {
        var fr := reader.NextFrame();
        match fr {
          case Ok(frame) =>
            first := frame;
            break;
          case Err(SkippedData) =>
          case Err(Eof) =>
            return Err(FormatError(NoAudioMsg));
          case Err(other) =>
            return Err(ErrToDecoderErr(other));
        }
      }
      var d := new Mp3Decoder.Init(reader, first);
      r := Ok(d);
    }

    /** `info`: format MP3, with the first frame's rate and channel count. */
    function Info(): (info: AudioInfo)
      requires Valid()
      reads this, reader
      ensures info.format == Mp3
      ensures info.sampleRate == AsU32(firstFrame.sampleRate) && info.channels == firstFrame.channels
    {
      AudioInfo(sampleRate, channels, Mp3)
    }

    /** `into_samples`: an iterator positioned at the start of the first frame, expecting
        the first frame's rate and channel count throughout. */
    method IntoSamples() returns (it: Mp3SampleIterator)
      requires Valid()
      ensures fresh(it) && it.Valid() && it.reader == reader
      ensures it.Expected() == Config(sampleRate, channels)
      ensures it.State() == Mp3State(firstFrame, 0, reader.idx)
    {
      it := new Mp3SampleIterator.Init(reader, channels, sampleRate, firstFrame);
    }
  }

  /** What every later frame is checked against. */
  datatype Config = Config(sampleRate: nat, channels: nat)

  /** The iterator's mutable state: current frame, cursor into it, frames consumed. */
  datatype Mp3State = Mp3State(frame: Frame, cursor: nat, idx: nat)

  /** The outcome of the refill loop of `next`. */
  datatype Fetched =
    | Loaded(frame: Frame, next: nat)
    | Failed(error: DecoderError, next: nat)
    | Ended(next: nat)

  /** The refill loop: empty frames and `SkippedData` are passed over; a frame of
      another rate, then one of another channel count, is a format error; `Eof` ends;
      any other error is passed on. */
  function Fetch(results: seq<FrameResult>, idx: nat, cfg: Config): (r: Fetched)
    requires idx <= |results|
    ensures idx <= r.next <= |results|
    ensures !r.Ended? ==> r.next > idx
    ensures r.Loaded? ==>
      && |r.frame.data| > 0 && AsU32(r.frame.sampleRate) == cfg.sampleRate && r.frame.channels == cfg.channels
      && results[r.next - 1] == Ok(r.frame)
    ensures r.Failed? ==>
      || r.error == FormatError(RateMsg)
      || r.error == FormatError(ChannelMsg)
      || (results[r.next - 1].Err? && ErrorsOut(results[r.next - 1].error))
    decreases |results| - idx
  {
    if idx == |results| then Ended(idx)
    else
      match results[idx]
      case Ok(frame) =>
        if |frame.data| == 0 then Fetch(results, idx + 1, cfg)
        else if AsU32(frame.sampleRate) != cfg.sampleRate then Failed(FormatError(RateMsg), idx + 1)
        else if frame.channels != cfg.channels then Failed(FormatError(ChannelMsg), idx + 1)
        else Loaded(frame, idx + 1)
      case Err(SkippedData) => Fetch(results, idx + 1, cfg)
      case Err(Eof) => Ended(idx + 1)
      case Err(e) => Failed(ErrToDecoderErr(e), idx + 1)
  }

  ghost predicate ValidState(st: Mp3State, results: seq<FrameResult>) {
    st.cursor <= |st.frame.data| && st.idx <= |results|
  }

  /** One call of `next`: a spent frame is refilled first, with the cursor reset to 0
      before the refill, so a failed or ended refill leaves the old frame in place
      with its cursor at 0. */
  function Step(cfg: Config, st: Mp3State, results: seq<FrameResult>): (r: (Option<Item>, Mp3State))
    requires ValidState(st, results)
    ensures ValidState(r.1, results)
    ensures r.0.None? <==> st.cursor == |st.frame.data| && Fetch(results, st.idx, cfg).Ended?
    ensures r.0.Some? ==>
      || r.1.idx > st.idx
      || (r.1.idx == st.idx && r.1.frame == st.frame && r.1.cursor == st.cursor + 1)
  {
    if st.cursor < |st.frame.data| then
      (Some(Ok(ScaleBy(st.frame.data[st.cursor], I16Max))), Mp3State(st.frame, st.cursor + 1, st.idx))
    else
      match Fetch(results, st.idx, cfg)
      case Loaded(frame, j) => (Some(Ok(ScaleBy(frame.data[0], I16Max))), Mp3State(frame, 1, j))
      case Failed(err, j) => (Some(Err(err)), Mp3State(st.frame, 0, j))
      case Ended(j) => (None, Mp3State(st.frame, 0, j))
  }

  /** Every item `next` yields from a state until it first answers `None`. */
  ghost function Items(cfg: Config, st: Mp3State, results: seq<FrameResult>): seq<Item>
    requires ValidState(st, results)
    decreases |results| - st.idx, |st.frame.data| - st.cursor
  {
    var (item, st') := Step(cfg, st, results);
    if item.None? then [] else [item.value] + Items(cfg, st', results)
  }

  class Mp3SampleIterator {
    const reader: FrameReader
    const expectedChannels: nat
    const expectedSampleRate: nat
    var curFrame: Frame
    var frameCursor: nat

    ghost predicate Valid()
      reads this, reader
    {
      reader.Valid() && frameCursor <= |curFrame.data|
    }

    ghost function Expected(): Config
      reads this
    {
      Config(expectedSampleRate, expectedChannels)
    }

    ghost function State(): Mp3State
      reads this, reader
    {
      Mp3State(curFrame, frameCursor, reader.idx)
    }

    ghost function Output(): seq<Item>
      requires Valid()
      reads this, reader
    {
      Items(Expected(), State(), reader.results)
    }

    constructor Init(reader: FrameReader, channels: nat, sampleRate: nat, first: Frame)
      requires reader.Valid()
      ensures Valid() && this.reader == reader
      ensures expectedChannels == channels && expectedSampleRate == sampleRate
      ensures curFrame == first && frameCursor == 0
    {
      this.reader := reader;
      expectedChannels := channels;
      expectedSampleRate := sampleRate;
      curFrame := first;
      frameCursor := 0;
    }

    /** `next`. */
    method Next() returns (item: Option<Item>)
      requires Valid()
      modifies this, reader
      ensures Valid()
      ensures (item, State()) == Step(old(Expected()), old(State()), reader.results)
      ensures item.None? ==> old(Output()) == []
      ensures item.Some? ==> old(Output()) == [item.value] + Output()
    {
      if frameCursor >= |curFrame.data| {
        frameCursor := 0;
        var cfg := Expected();
        while true
          invariant reader.Valid() && frameCursor == 0
          invariant curFrame == old(curFrame)
          invariant Fetch(reader.results, old(reader.idx), cfg) == Fetch(reader.results, reader.idx, cfg)
          decreases |reader.results| - reader.idx
        {
          var fr := reader.NextFrame();
          match fr {
            case Ok(frame) =>
              if |frame.data| == 0 {
                continue;
              }
              if AsU32(frame.sampleRate) != expectedSampleRate {
                return Some(Err(FormatError(RateMsg)));
              }
              if frame.channels != expectedChannels {
                return Some(Err(FormatError(ChannelMsg)));
              }
              curFrame := frame;
              break;
            case Err(SkippedData) =>
            case Err(Eof) =>
              return None;
            case Err(other) =>
              return Some(Err(ErrToDecoderErr(other)));
          }
        }
      }
      item := Some(Ok(ScaleBy(curFrame.data[frameCursor], I16Max)));
      frameCursor := frameCursor + 1;
    }
  }

  // ---------------------------------------------------------------------------
  // Properties of the sample stream
  // ---------------------------------------------------------------------------

  /** Frames that all agree with the stream's rate and channel count (empty ones are
      never checked), and no error other than skipped data before the end. */
  ghost predicate Clean(results: seq<FrameResult>, idx: nat, cfg: Config) {
    forall k :: idx <= k < |results| ==>
      match results[k]
      case Ok(f) => |f.data| == 0 || (AsU32(f.sampleRate) == cfg.sampleRate && f.channels == cfg.channels)
      case Err(e) => e == SkippedData || e == Eof
  }

  /** The samples of the frames from `idx` on, in order, up to the first `Eof`. */
  function Pcm(results: seq<FrameResult>, idx: nat): seq<int>
    decreases |results| - idx
  {
    if idx >= |results| then []
    else
      match results[idx]
      case Ok(f) => f.data + Pcm(results, idx + 1)
      case Err(Eof) => []
      case Err(_) => Pcm(results, idx + 1)
  }

  lemma {:induction false} FetchClean(results: seq<FrameResult>, idx: nat, cfg: Config)
    requires idx <= |results| && Clean(results, idx, cfg)
    ensures match Fetch(results, idx, cfg)
            case Loaded(f, j) => Pcm(results, idx) == f.data + Pcm(results, j) && Clean(results, j, cfg)
            case Failed(_, _) => false
            case Ended(_) => Pcm(results, idx) == []
    decreases |results| - idx
  {
    if idx < |results| {
      match results[idx]
      case Ok(frame) =>
        if |frame.data| == 0 {
          FetchClean(results, idx + 1, cfg);
          assert Pcm(results, idx) == Pcm(results, idx + 1);
        }
      case Err(e) =>
        if e == SkippedData {
          FetchClean(results, idx + 1, cfg);
        }
    }
  }

  /** With consistent frames and no errors, the iterator yields exactly the rest of
      the current frame and then every later frame's samples, in order, each divided
      by `i16::MAX`, and then ends. */
  lemma {:induction false} StreamInOrder(cfg: Config, st: Mp3State, results: seq<FrameResult>)
    requires ValidState(st, results) && Clean(results, st.idx, cfg)
    ensures Items(cfg, st, results) == Scale16(st.frame.data[st.cursor..] + Pcm(results, st.idx))
    decreases |results| - st.idx, |st.frame.data| - st.cursor, 1
  {
    if st.cursor < |st.frame.data| {
      InOrderFromCursor(cfg, st, results);
    } else {
      InOrderAfterRefill(cfg, st, results);
    }
  }

  lemma {:induction false} InOrderFromCursor(cfg: Config, st: Mp3State, results: seq<FrameResult>)
    requires ValidState(st, results) && Clean(results, st.idx, cfg) && st.cursor < |st.frame.data|
    ensures Items(cfg, st, results) == Scale16(st.frame.data[st.cursor..] + Pcm(results, st.idx))
    decreases |results| - st.idx, |st.frame.data| - st.cursor, 0
  {
    var data, c := st.frame.data, st.cursor;
    StepTakes(cfg, st, results);
    StreamInOrder(cfg, Mp3State(st.frame, c + 1, st.idx), results);
    Scale16Suffix(data, c, Pcm(results, st.idx));
  }

  lemma {:induction false} InOrderAfterRefill(cfg: Config, st: Mp3State, results: seq<FrameResult>)
    requires ValidState(st, results) && Clean(results, st.idx, cfg) && st.cursor == |st.frame.data|
    ensures Items(cfg, st, results) == Scale16(st.frame.data[st.cursor..] + Pcm(results, st.idx))
    decreases |results| - st.idx, |st.frame.data| - st.cursor, 0
  {
    FetchClean(results, st.idx, cfg);
    var fe := Fetch(results, st.idx, cfg);
    if fe.Loaded? {
      StepRefills(cfg, st, results);
      StreamInOrder(cfg, Mp3State(fe.frame, 1, fe.next), results);
      Scale16Head(fe.frame.data, Pcm(results, fe.next));
      EmptySuffix(st.frame.data, Pcm(results, st.idx));
    } else {
      assert st.frame.data[st.cursor..] == [];
    }
  }

  /** Inside a frame, one sample is taken and the cursor moves on. */
  lemma StepTakes(cfg: Config, st: Mp3State, results: seq<FrameResult>)
    requires ValidState(st, results) && st.cursor < |st.frame.data|
    ensures Items(cfg, st, results) ==
            [Ok(ScaleBy(st.frame.data[st.cursor], I16Max))] + Items(cfg, Mp3State(st.frame, st.cursor + 1, st.idx), results)
  {
  }

  /** A spent frame is replaced by the fetched one, whose first sample comes out. */
  lemma StepRefills(cfg: Config, st: Mp3State, results: seq<FrameResult>)
    requires ValidState(st, results) && st.cursor == |st.frame.data| && Fetch(results, st.idx, cfg).Loaded?
    ensures var fe := Fetch(results, st.idx, cfg);
            Items(cfg, st, results) == [Ok(ScaleBy(fe.frame.data[0], I16Max))] + Items(cfg, Mp3State(fe.frame, 1, fe.next), results)
  {
  }

  /** A failed refill yields its error, with the old frame's cursor reset. */
  lemma StepFails(cfg: Config, st: Mp3State, results: seq<FrameResult>)
    requires ValidState(st, results) && st.cursor == |st.frame.data| && Fetch(results, st.idx, cfg).Failed?
    ensures var fe := Fetch(results, st.idx, cfg);
            Items(cfg, st, results) == [Err(fe.error)] + Items(cfg, Mp3State(st.frame, 0, fe.next), results)
  {
  }

  /** What a freshly opened stream yields: the first frame's samples, then those of
      every later frame. */
  lemma OpenedStreamInOrder(cfg: Config, first: Frame, idx: nat, results: seq<FrameResult>)
    requires idx <= |results| && Clean(results, idx, cfg)
    ensures Items(cfg, Mp3State(first, 0, idx), results) == Scale16(first.data + Pcm(results, idx))
  {
    StreamInOrder(cfg, Mp3State(first, 0, idx), results);
    assert first.data[0..] == first.data;
  }

  /** From any cursor, the rest of the current frame comes first, whatever follows. */
  lemma {:induction false} DrainFrame(cfg: Config, st: Mp3State, results: seq<FrameResult>)
    requires ValidState(st, results)
    ensures Items(cfg, st, results) ==
            Scale16(st.frame.data[st.cursor..]) + Items(cfg, Mp3State(st.frame, |st.frame.data|, st.idx), results)
    decreases |st.frame.data| - st.cursor
  {
    var data, c := st.frame.data, st.cursor;
    var spent := Items(cfg, Mp3State(st.frame, |data|, st.idx), results);
    if c < |data| {
      StepTakes(cfg, st, results);
      DrainFrame(cfg, Mp3State(st.frame, c + 1, st.idx), results);
      Scale16Drop(data, c);
      ConcatAssoc([Ok(ScaleBy(data[c], I16Max))], Scale16(data[c + 1..]), spent);
    } else {
      assert data[c..] == [];
    }
  }

  /** A failed refill yields the error, and then, because the cursor was reset on
      the spent frame, the previous frame's samples all over again. */
  lemma ErrorReplaysFrame(cfg: Config, st: Mp3State, results: seq<FrameResult>)
    requires ValidState(st, results) && st.cursor == |st.frame.data|
    requires Fetch(results, st.idx, cfg).Failed?
    ensures var f := Fetch(results, st.idx, cfg);
            Items(cfg, st, results) ==
            [Err(f.error)] + Scale16(st.frame.data) + Items(cfg, Mp3State(st.frame, |st.frame.data|, f.next), results)
  {
    var f := Fetch(results, st.idx, cfg);
    var again, spent := Mp3State(st.frame, 0, f.next), Items(cfg, Mp3State(st.frame, |st.frame.data|, f.next), results);
    StepFails(cfg, st, results);
    DrainFrame(cfg, again, results);
    assert st.frame.data[0..] == st.frame.data;
    ConcatAssoc([Err(f.error)], Scale16(st.frame.data), spent);
  }

  /** A sample-rate change mid-stream is reported once per offending frame, as the
      format error, and the stream then carries on. */
  lemma RateChangeIsError(cfg: Config, st: Mp3State, results: seq<FrameResult>)
    requires ValidState(st, results) && st.cursor == |st.frame.data| && st.idx < |results|
    requires results[st.idx].Ok? && |results[st.idx].value.data| > 0
    requires AsU32(results[st.idx].value.sampleRate) != cfg.sampleRate
    ensures Step(cfg, st, results) == (Some(Err(FormatError(RateMsg))), Mp3State(st.frame, 0, st.idx + 1))
  {
  }

  /** A channel-count change is reported only when the rate agrees: rate is checked first. */
  lemma ChannelChangeIsError(cfg: Config, st: Mp3State, results: seq<FrameResult>)
    requires ValidState(st, results) && st.cursor == |st.frame.data| && st.idx < |results|
    requires results[st.idx].Ok? && |results[st.idx].value.data| > 0
    requires AsU32(results[st.idx].value.sampleRate) == cfg.sampleRate
    requires results[st.idx].value.channels != cfg.channels
    ensures Step(cfg, st, results) == (Some(Err(FormatError(ChannelMsg))), Mp3State(st.frame, 0, st.idx + 1))
  {
  }
}
