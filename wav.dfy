/** The WAV backend (`src/decoder/wav.rs`): the (bits per sample, sample format)
    table that picks how each decoded sample is normalised, the element-wise mapping
    of the sample reader's items, and the error mapping. */
module WavBackend {
  import opened Common
  import opened ByteCodec

  /** The WAV reader's errors. */
  datatype HoundError =
    | IoErr(io: IoError)
    | FormatErr(msg: string)
    | TooWide
    | UnfinishedSample
    | Unsupported
    | InvalidSampleFormat

  datatype SampleKind = IntSamples | FloatSamples

  /** The `fmt` chunk fields the adapter reads. */
  datatype WavSpec = WavSpec(channels: nat, sampleRate: nat, bitsPerSample: nat, sampleFormat: SampleKind)

  /** An opened WAV stream: its spec and the items its sample reader yields, each an
      integer sample (or, for 32-bit float, the sample's bit pattern) or an error. */
  datatype WavDecoder = WavDecoder(spec: WavSpec, samples: seq<Result<int, HoundError>>)

  /** `{:?}` of the sample format. */
  function KindName(k: SampleKind): string {
    match k
    case IntSamples => "Int"
    case FloatSamples => "Float"
  }

  /** `hound_err_to_decoder_err`; an unfinished sample is a writer-side error the
      reader never produces (the function would panic on it). */
  function ErrToDecoderErr(e: HoundError): (d: DecoderError)
    requires !e.UnfinishedSample?
    ensures e.IoErr? <==> d.IOError?
    ensures e.IoErr? ==> d == IOError(e.io)
  {
    match e
    case IoErr(io) => IOError(io)
    case FormatErr(m) => FormatError("wav: " + m)
    case Unsupported => FormatError("wav: unsupported format")
    case InvalidSampleFormat => FormatError("wav: invalid sample format")
    case TooWide => FormatError("wav: " + TooWideMsg)
  }

  /** The text after the backend prefix for `TooWide`. */
  const TooWideMsg := "decoded samples are too wide for destination type"

  /** Every format message names the backend; a format error keeps hound's own message
      at the end, and the three fixed messages differ from one another. */
  lemma ErrMessageKeepsCause(e: HoundError)
    requires !e.UnfinishedSample? && !e.IoErr?
    ensures var m := ErrToDecoderErr(e).msg;
            && "wav: " <= m
            && (e.FormatErr? ==> |e.msg| <= |m| && m[|m| - |e.msg|..] == e.msg)
    ensures ErrToDecoderErr(Unsupported) != ErrToDecoderErr(InvalidSampleFormat)
    ensures ErrToDecoderErr(Unsupported) != ErrToDecoderErr(TooWide)
    ensures ErrToDecoderErr(InvalidSampleFormat) != ErrToDecoderErr(TooWide)
  {
    var m := ErrToDecoderErr(e).msg;
    match e {
      case FormatErr(s) =>
        assert m == "wav: " + s;
        assert m[|m| - |s|..] == s;
      case Unsupported => assert m == "wav: unsupported format";
      case InvalidSampleFormat => assert m == "wav: invalid sample format";
      case TooWide => assert m == "wav: " + TooWideMsg;
    }
    assert m[..5] == "wav: ";
    assert |ErrToDecoderErr(Unsupported).msg| == 23;
    assert |ErrToDecoderErr(InvalidSampleFormat).msg| == 26;
    assert |ErrToDecoderErr(TooWide).msg| == 54;
  }

  /** How one sample is turned into a `Sample`. */
  datatype Conversion = DivideBy(max: int) | Passthrough

  /** The message for a (bits, format) pair the table does not list. */
  function UnsupportedMsg(bits: nat, k: SampleKind): string {
    "wav: format '" + NatToString(bits) + "-bit " + KindName(k) + "' is not supported"
  }

  predicate Supported(bits: nat, k: SampleKind) {
    (k == IntSamples && (bits == 8 || bits == 16 || bits == 24 || bits == 32))
    || (k == FloatSamples && bits == 32)
  }

  /** The `match` of `into_samples`: 8-bit integers over `i8::MAX`, 16-bit over
      `i16::MAX`, 24- and 32-bit both over `i32::MAX`, 32-bit float passed through;
      any other pair is a format error. */
  function Dispatch(bits: nat, k: SampleKind): (r: Result<Conversion, DecoderError>)
    ensures r.Ok? <==> Supported(bits, k)
    ensures r.Err? ==> r.error == FormatError(UnsupportedMsg(bits, k))
    ensures r.Ok? && k == IntSamples ==> r.value.DivideBy? && r.value.max > 0
    ensures r.Ok? && k == FloatSamples ==> r.value == Passthrough
    ensures r.Ok? && k == IntSamples && bits != 24 ==> r.value.max == Pow2(bits - 1) - 1
  {
    Pow2Table();
    if !Supported(bits, k) then Err(FormatError(UnsupportedMsg(bits, k)))
    else if k == FloatSamples then Ok(Passthrough)
    else if bits == 8 then Ok(DivideBy(0x7F))
    else if bits == 16 then Ok(DivideBy(I16Max))
    else Ok(DivideBy(I32Max))
  }

  function ConvertOne(c: Conversion, v: int): Sample
    requires c.DivideBy? ==> c.max > 0
    requires c.Passthrough? ==> v >= 0
  {
    match c
    case DivideBy(m) => ScaleBy(v, m)
    case Passthrough => F32Bits(v as nat)
  }

  /** Items the reader may yield: errors a reader can produce, and float bit patterns
      that are not negative. */
  predicate Readable(c: Conversion, item: Result<int, HoundError>) {
    && (item.Ok? && c.Passthrough? ==> item.value >= 0)
    && (item.Err? ==> !item.error.UnfinishedSample?)
  }

  /** One item of the `map` adapter: a sample converted, an error mapped. */
  function MapItem(c: Conversion, item: Result<int, HoundError>): (r: Item)
    requires c.DivideBy? ==> c.max > 0
    requires Readable(c, item)
    ensures item.Ok? <==> r.Ok?
    ensures item.Ok? ==> r.value == ConvertOne(c, item.value)
    ensures item.Err? ==> r.error == ErrToDecoderErr(item.error)
  {
    match item
    case Ok(v) => Ok(ConvertOne(c, v))
    case Err(e) => Err(ErrToDecoderErr(e))
  }

  /** The `map` adapter over the reader's items: each one converted on its own, in
      place, so count and order are kept. */
  function MapItems(c: Conversion, items: seq<Result<int, HoundError>>): (r: seq<Item>)
    requires c.DivideBy? ==> c.max > 0
    requires forall i :: 0 <= i < |items| ==> Readable(c, items[i])
    ensures |r| == |items|
    ensures forall i :: 0 <= i < |items| ==> Readable(c, items[i]) && r[i] == MapItem(c, items[i])
  {
    if items == [] then []
    else [MapItem(c, items[0])] + MapItems(c, items[1..])
  }

  /** Mapping a stream piece by piece is mapping it whole: no item depends on another. */
  lemma {:induction false} MapItemsAppend(c: Conversion, xs: seq<Result<int, HoundError>>, ys: seq<Result<int, HoundError>>)
    requires c.DivideBy? ==> c.max > 0
    requires forall i :: 0 <= i < |xs| ==> Readable(c, xs[i])
    requires forall i :: 0 <= i < |ys| ==> Readable(c, ys[i])
    ensures forall i :: 0 <= i < |xs + ys| ==> Readable(c, (xs + ys)[i])
    ensures MapItems(c, xs + ys) == MapItems(c, xs) + MapItems(c, ys)
    decreases |xs|
  {
    ReadableAppend(c, xs, ys);
    if xs == [] {
      assert xs + ys == ys;
    } else {
      TailOfAppend(xs, ys);
      MapItemsAppend(c, xs[1..], ys);
      ConcatAssoc([MapItem(c, xs[0])], MapItems(c, xs[1..]), MapItems(c, ys));
    }
  }

  lemma ReadableAppend(c: Conversion, xs: seq<Result<int, HoundError>>, ys: seq<Result<int, HoundError>>)
    requires forall i :: 0 <= i < |xs| ==> Readable(c, xs[i])
    requires forall i :: 0 <= i < |ys| ==> Readable(c, ys[i])
    ensures forall i :: 0 <= i < |xs + ys| ==> Readable(c, (xs + ys)[i])
  {
    forall i | 0 <= i < |xs + ys| ensures Readable(c, (xs + ys)[i]) {
      if i < |xs| { assert (xs + ys)[i] == xs[i]; } else { assert (xs + ys)[i] == ys[i - |xs|]; }
    }
  }

  lemma TailOfAppend<T>(xs: seq<T>, ys: seq<T>)
    requires |xs| > 0
    ensures (xs + ys)[0] == xs[0] && (xs + ys)[1..] == xs[1..] + ys
  {
  }

  /** `WavDecoder::open`: a reader that fails to open is its mapped error. */
  function Open(reader: Result<WavDecoder, HoundError>): (r: Result<WavDecoder, DecoderError>)
    requires reader.Err? ==> !reader.error.UnfinishedSample?
    ensures reader.Err? ==> r == Err(ErrToDecoderErr(reader.error))
    ensures reader.Ok? ==> r == Ok(reader.value)
  {
    match reader
    case Ok(d) => Ok(d)
    case Err(e) => Err(ErrToDecoderErr(e))
  }

  function SampleRate(d: WavDecoder): (rate: nat)
    ensures rate == d.spec.sampleRate
  {
    d.spec.sampleRate
  }

  function Channels(d: WavDecoder): (n: nat)
    ensures n == d.spec.channels
  {
    d.spec.channels
  }

  /** `into_samples`: the converted stream of a supported layout, or the format error. */
  function IntoSamples(d: WavDecoder): (r: Result<seq<Item>, DecoderError>)
    requires var c := Dispatch(d.spec.bitsPerSample, d.spec.sampleFormat);
             c.Ok? ==> forall i :: 0 <= i < |d.samples| ==> Readable(c.value, d.samples[i])
    ensures r.Ok? <==> Supported(d.spec.bitsPerSample, d.spec.sampleFormat)
    ensures r.Err? ==> r.error == FormatError(UnsupportedMsg(d.spec.bitsPerSample, d.spec.sampleFormat))
    ensures r.Ok? ==> r.value == MapItems(Dispatch(d.spec.bitsPerSample, d.spec.sampleFormat).value, d.samples)
  {
    match Dispatch(d.spec.bitsPerSample, d.spec.sampleFormat)
    case Err(e) => Err(e)
    case Ok(c) => Ok(MapItems(c, d.samples))
  }

  /** The unsupported-format message names the bit width exactly. */
  lemma UnsupportedMsgNamesWidth(bits: nat, k: SampleKind)
    ensures var m := UnsupportedMsg(bits, k);
            var digits := m[13..13 + |NatToString(bits)|];
            && |m| >= 13 + |NatToString(bits)|
            && (forall i :: 0 <= i < |digits| ==> '0' <= digits[i] <= '9')
            && ParseDigits(digits) == bits
  {
    var m := UnsupportedMsg(bits, k);
    var prefix := "wav: format '";
    assert |prefix| == 13;
    assert m[13..13 + |NatToString(bits)|] == NatToString(bits);
    NatToStringRoundTrip(bits);
  }

  /** As written, the largest 24-bit sample (hound yields 24-bit samples unshifted, in
      [-2^23, 2^23 - 1]) is divided by `i32::MAX` and comes out below 1/256. */
  lemma Wav24FullScaleAsWritten()
    ensures Dispatch(24, IntSamples) == Ok(DivideBy(I32Max))
    ensures ConvertOne(DivideBy(I32Max), 0x7F_FFFF).value < 1.0 / 256.0
  {
    DivBounds(0x7F_FFFF as real, I32Max as real);
    assert (0x7F_FFFF as real) * 256.0 < I32Max as real;
  }

  /** The divisor the table evidently intends: the largest value of each integer width. */
  function IntendedDispatch(bits: nat, k: SampleKind): (r: Result<Conversion, DecoderError>)
    ensures r.Ok? <==> Supported(bits, k)
    ensures r.Err? ==> r.error == FormatError(UnsupportedMsg(bits, k))
    ensures r.Ok? && k == IntSamples ==> r.value == DivideBy(Pow2(bits - 1) - 1) && r.value.max > 0
    ensures r.Ok? && k == FloatSamples ==> r.value == Passthrough
    ensures bits != 24 ==> r == Dispatch(bits, k)
  {
    Pow2Table();
    Pow2Add(16, 7);
    if k == IntSamples && bits == 24 then Ok(DivideBy(0x7F_FFFF)) else Dispatch(bits, k)
  }

  /** With the intended divisors every integer width maps its largest sample to 1 and
      its whole range into [-1 - 1/max, 1]. */
  lemma IntendedFullScale(bits: nat, v: int)
    requires Supported(bits, IntSamples)
    requires -Pow2(bits - 1) <= v <= Pow2(bits - 1) - 1
    ensures var c := IntendedDispatch(bits, IntSamples).value;
            && ConvertOne(c, Pow2(bits - 1) - 1) == Scaled(1.0)
            && -1.0 - 1.0 / c.max as real <= ConvertOne(c, v).value <= 1.0
  {
    var c := IntendedDispatch(bits, IntSamples).value;
    var m := c.max;
    assert m == Pow2(bits - 1) - 1;
    DivBounds(v as real, m as real);
    if v < -m {
      assert v == -m - 1;
      assert (v as real) / (m as real) == -1.0 - 1.0 / m as real;
    }
  }
}
