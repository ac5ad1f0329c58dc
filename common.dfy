/** Types shared by every part of the decoder: the error taxonomy, the stream
    metadata snapshot, the raw sample layout description and the sample value. */
module Common {

  datatype Option<+T> = None | Some(value: T)

  datatype Result<+T, +E> = Ok(value: T) | Err(error: E)

  /** An I/O error reported by the byte source; its content is opaque here. */
  datatype IoError = IoError(kind: string)

  /** The library's error type (`DecoderError`). */
  datatype DecoderError =
    | IOError(io: IoError)
    | FormatError(msg: string)
    | NoExtension
    | UnsupportedExtension(ext: string)
    | IncompleteData
    | DisabledExtension(extension: string, feature: string)

  /** The detected container/codec of a stream. */
  datatype AudioFormat = Wav | Vorbis | Mp3 | Flac | Raw

  /** Immutable metadata snapshot taken when a decoder is opened. */
  datatype AudioInfo = AudioInfo(sampleRate: nat, channels: nat, format: AudioFormat)

  datatype Endian = Big | Little

  /** The twelve raw layouts a caller may describe. */
  datatype RawSampleFormat =
    | Float32 | Float64
    | Unsigned8 | Signed8
    | Unsigned16 | Signed16
    | Unsigned24 | Signed24
    | Unsigned32 | Signed32
    | Unsigned64 | Signed64

  /** Caller-supplied description of a headerless sample stream. */
  datatype RawAudioSpec = RawAudioSpec(
    sampleRate: nat,
    channels: nat,
    sampleFormat: RawSampleFormat,
    endianness: Endian,
    startOffset: nat,
    maxFrames: Option<nat>)

  /** One decoded sample. Integer paths are normalised over exact reals; the IEEE
      paths keep the bit pattern that was assembled in the requested byte order
      (a 32-bit pattern passed through, or a 64-bit pattern narrowed to 32 bits). */
  datatype Sample =
    | Scaled(value: real)
    | F32Bits(bits: nat)
    | F64Narrowed(bits: nat)

  /** One element of a sample stream. */
  type Item = Result<Sample, DecoderError>

  /** Integer sample divided by a positive maximum, as a normalised sample. */
  function ScaleBy(v: int, max: int): (s: Sample)
    requires max > 0
    ensures s.Scaled? && (v == max ==> s.value == 1.0)
    ensures -max <= v <= max ==> -1.0 <= s.value <= 1.0
  {
    DivBounds(v as real, max as real);
    Scaled(v as real / max as real)
  }

  /** Where a quotient by a positive divisor lies, relative to -1 and 1. */
  lemma DivBounds(v: real, m: real)
    requires m > 0.0
    ensures v == m ==> v / m == 1.0
    ensures v == 0.0 ==> v / m == 0.0
    ensures 0.0 <= v <= m ==> 0.0 <= v / m <= 1.0
    ensures -m <= v <= m ==> -1.0 <= v / m <= 1.0
    ensures v < -m ==> v / m < -1.0
  {
    var q := v / m;
    assert q * m == v;
    SignOfProduct(q, m);
    SignOfProduct(q - 1.0, m);
    SignOfProduct(q + 1.0, m);
    assert (q - 1.0) * m == v - m;
    assert (q + 1.0) * m == v + m;
  }

  /** A product with a positive factor has the sign of the other factor. */
  lemma SignOfProduct(a: real, m: real)
    requires m > 0.0
    ensures a * m > 0.0 <==> a > 0.0
    ensures a * m < 0.0 <==> a < 0.0
  {
    if a > 0.0 {
      assert a * m > 0.0;
    } else if a < 0.0 {
      assert (-a) * m > 0.0;
    }
  }

  const I16Max: int := 0x7FFF
  const I32Max: int := 0x7FFF_FFFF

  /** The display name of a format (`impl Display for AudioFormat`). */
  function FormatName(f: AudioFormat): (name: string)
    ensures f == Wav ==> name == "WAV"
    ensures f == Vorbis ==> name == "Vorbis"
    ensures f == Mp3 ==> name == "MP3"
    ensures f == Flac ==> name == "FLAC"
    ensures f == Raw ==> name == "Raw"
    ensures |name| >= 3
  {
    match f
    case Wav => "WAV"
    case Vorbis => "Vorbis"
    case Mp3 => "MP3"
    case Flac => "FLAC"
    case Raw => "Raw"
  }

  /** Reads a display name back; the partner of FormatName. */
  function ParseFormatName(name: string): Option<AudioFormat>
  {
    if name == "WAV" then Some(Wav)
    else if name == "Vorbis" then Some(Vorbis)
    else if name == "MP3" then Some(Mp3)
    else if name == "FLAC" then Some(Flac)
    else if name == "Raw" then Some(Raw)
    else None
  }

  /** Display names are distinct: each one identifies its format. */
  lemma FormatNameRoundTrip(f: AudioFormat)
    ensures ParseFormatName(FormatName(f)) == Some(f)
  {
    match f
    case Wav =>
    case Vorbis => assert FormatName(f) != "WAV";
    case Mp3 => assert FormatName(f) != "WAV" && FormatName(f) != "Vorbis";
    case Flac => assert FormatName(f) != "WAV" && FormatName(f) != "MP3";
    case Raw => assert FormatName(f) != "WAV" && FormatName(f) != "FLAC";
  }

  lemma FormatNameInjective(f: AudioFormat, g: AudioFormat)
    requires FormatName(f) == FormatName(g)
    ensures f == g
  {
    FormatNameRoundTrip(f);
    FormatNameRoundTrip(g);
  }

  /** Decimal rendering of a natural number (Rust's `{}` on an integer). */
  function NatToString(n: nat): (s: string)
    ensures |s| >= 1
    ensures forall i :: 0 <= i < |s| ==> '0' <= s[i] <= '9'
    decreases n
  {
    var d := [('0' as int + n % 10) as char];
    if n < 10 then d else NatToString(n / 10) + d
  }

  /** Reads a string of decimal digits back as a number; the partner of NatToString. */
  function ParseDigits(s: string): nat
    requires forall i :: 0 <= i < |s| ==> '0' <= s[i] <= '9'
  {
    if s == [] then 0 else 10 * ParseDigits(s[..|s| - 1]) + (s[|s| - 1] as int - '0' as int)
  }

  lemma {:induction false} NatToStringRoundTrip(n: nat)
    ensures ParseDigits(NatToString(n)) == n
    decreases n
  {
    var s := NatToString(n);
    if n >= 10 {
      NatToStringRoundTrip(n / 10);
      assert s[..|s| - 1] == NatToString(n / 10);
    }
  }

  /** Distinct numbers render differently. */
  lemma NatToStringInjective(m: nat, n: nat)
    requires NatToString(m) == NatToString(n)
    ensures m == n
  {
    NatToStringRoundTrip(m);
    NatToStringRoundTrip(n);
  }

  /** Normalises every element of a sequence of integer samples by the same maximum. */
  function ScaleAll(xs: seq<int>, max: int): (r: seq<Item>)
    requires max > 0
    ensures |r| == |xs|
    ensures forall i :: 0 <= i < |xs| ==> r[i] == Ok(ScaleBy(xs[i], max))
  {
    if xs == [] then [] else [Ok(ScaleBy(xs[0], max))] + ScaleAll(xs[1..], max)
  }

  lemma SliceCons(s: seq<int>, i: nat, j: nat, tail: seq<int>)
    requires i < j <= |s|
    ensures s[i..j] + tail == [s[i]] + (s[i + 1..j] + tail)
  {
    assert s[i..j] == [s[i]] + s[i + 1..j];
  }

  lemma ConcatAssoc<T>(a: seq<T>, b: seq<T>, c: seq<T>)
    ensures a + (b + c) == a + b + c
  {
  }

  lemma SuffixCons(s: seq<int>, i: nat, tail: seq<int>)
    requires i < |s|
    ensures s[i..] + tail == [s[i]] + (s[i + 1..] + tail)
  {
    assert s[i..] == [s[i]] + s[i + 1..];
  }

  lemma EmptySlice(s: seq<int>, i: nat, tail: seq<int>)
    requires i <= |s|
    ensures s[i..i] + tail == tail
  {
  }

  lemma ScaleAllCons(x: int, xs: seq<int>, max: int)
    requires max > 0
    ensures ScaleAll([x] + xs, max) == [Ok(ScaleBy(x, max))] + ScaleAll(xs, max)
  {
    assert ([x] + xs)[1..] == xs;
  }

  /** Scaling a slice followed by more samples peels off the slice's first sample. */
  lemma ScaleAllSlice(s: seq<int>, i: nat, j: nat, tail: seq<int>, max: int)
    requires i < j <= |s| && max > 0
    ensures ScaleAll(s[i..j] + tail, max) == [Ok(ScaleBy(s[i], max))] + ScaleAll(s[i + 1..j] + tail, max)
  {
    SliceCons(s, i, j, tail);
    ScaleAllCons(s[i], s[i + 1..j] + tail, max);
  }

  lemma {:induction false} ScaleAllAppend(xs: seq<int>, ys: seq<int>, max: int)
    requires max > 0
    ensures ScaleAll(xs + ys, max) == ScaleAll(xs, max) + ScaleAll(ys, max)
  {
    var l, r := ScaleAll(xs + ys, max), ScaleAll(xs, max) + ScaleAll(ys, max);
    assert |l| == |r|;
    forall i | 0 <= i < |l| ensures l[i] == r[i] {
      if i < |xs| { assert (xs + ys)[i] == xs[i]; } else { assert (xs + ys)[i] == ys[i - |xs|]; }
    }
  }

  /** Normalises every element of a sequence of 16-bit samples (`x / i16::MAX`). */
  function Scale16(xs: seq<int>): (r: seq<Item>)
    ensures |r| == |xs|
    ensures forall i :: 0 <= i < |xs| ==> r[i] == Ok(ScaleBy(xs[i], I16Max))
  {
    ScaleAll(xs, I16Max)
  }

  lemma Scale16Cons(x: int, xs: seq<int>)
    ensures Scale16([x] + xs) == [Ok(ScaleBy(x, I16Max))] + Scale16(xs)
  {
    ScaleAllCons(x, xs, I16Max);
  }

  /** Scaling a suffix followed by more samples peels off the suffix's first sample. */
  lemma Scale16Suffix(s: seq<int>, i: nat, tail: seq<int>)
    requires i < |s|
    ensures Scale16(s[i..] + tail) == [Ok(ScaleBy(s[i], I16Max))] + Scale16(s[i + 1..] + tail)
  {
    SuffixCons(s, i, tail);
    Scale16Cons(s[i], s[i + 1..] + tail);
  }

  lemma Scale16Drop(s: seq<int>, i: nat)
    requires i < |s|
    ensures Scale16(s[i..]) == [Ok(ScaleBy(s[i], I16Max))] + Scale16(s[i + 1..])
  {
    assert s[i..] == [s[i]] + s[i + 1..];
    Scale16Cons(s[i], s[i + 1..]);
  }

  lemma Scale16Head(s: seq<int>, tail: seq<int>)
    requires |s| > 0
    ensures Scale16(s + tail) == [Ok(ScaleBy(s[0], I16Max))] + Scale16(s[1..] + tail)
  {
    assert s[0..] == s;
    Scale16Suffix(s, 0, tail);
  }

  lemma EmptySuffix(s: seq<int>, tail: seq<int>)
    ensures s[|s|..] + tail == tail
  {
  }
}
