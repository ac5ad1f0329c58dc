/** The raw PCM decoder (`src/decoder/raw.rs`): a byte source positioned at the
    spec's start offset, and an iterator whose every pull runs the per-format
    read closure once. */
module Raw {
  import opened Common
  import opened ByteCodec

  // ---------------------------------------------------------------------------
  // Per-format constants of the read closures
  // ---------------------------------------------------------------------------

  predicate Is24(f: RawSampleFormat) {
    f == Unsigned24 || f == Signed24
  }

  predicate IsFloat(f: RawSampleFormat) {
    f == Float32 || f == Float64
  }

  predicate IsSigned(f: RawSampleFormat) {
    f == Signed8 || f == Signed16 || f == Signed24 || f == Signed32 || f == Signed64
  }

  /** The byte count a full read must return (`SIZE_BYTES`, `SIZEOF_FLOAT`,
      `SIZEOF_DOUBLE`, or `SIZE` = 3 in the 24-bit arms). */
  function SampleSize(f: RawSampleFormat): (n: nat)
    ensures 1 <= n <= 8
  {
    match f
    case Float32 => 4
    case Float64 => 8
    case Unsigned8 => 1
    case Signed8 => 1
    case Unsigned16 => 2
    case Signed16 => 2
    case Unsigned24 => 3
    case Signed24 => 3
    case Unsigned32 => 4
    case Signed32 => 4
    case Unsigned64 => 8
    case Signed64 => 8
  }

  /** Length of the zeroed buffer each closure allocates (`BUFFER_SIZE` = 5 in the 24-bit arms). */
  function BufferSize(f: RawSampleFormat): nat {
    if Is24(f) then 5 else SampleSize(f)
  }

  /** First buffer index handed to `read`. */
  function WindowStart(f: RawSampleFormat): nat {
    if Is24(f) then 1 else 0
  }

  /** One past the last buffer index handed to `read`: the 24-bit arms pass
      `buf[1..SIZE]`, a window of two bytes. */
  function WindowEnd(f: RawSampleFormat): (hi: nat)
    ensures WindowStart(f) < hi <= BufferSize(f)
  {
    if Is24(f) then 3 else SampleSize(f)
  }

  /** `MAX_VAL` / `MAX_U24` / `MAX_I24` of each integer arm, as the constant
      expressions evaluate (over exact integers, before the `as f32` rounding). */
  function MaxValue(f: RawSampleFormat): (m: int)
    requires !IsFloat(f)
    ensures m > 0
  {
    match f
    case Unsigned8 => 0xFF
    case Signed8 => 0x7F
    case Unsigned16 => 0xFFFF
    case Signed16 => 0x7FFF
    case Unsigned24 => 0x1FF_FFFF      // (1 << 24) + ((1 << 24) - 1)
    case Signed24 => 0xFF_FFFF         // (1 << 23) + ((1 << 23) - 1)
    case Unsigned32 => 0xFFFF_FFFF
    case Signed32 => 0x7FFF_FFFF
    case Unsigned64 => 0xFFFF_FFFF_FFFF_FFFF
    case Signed64 => 0x7FFF_FFFF_FFFF_FFFF
  }

  // ---------------------------------------------------------------------------
  // Normalisation over exact reals
  // ---------------------------------------------------------------------------

  /** `v / MAX * 2 - 1`: the unsigned range [0, MAX] onto [-1, 1]. */
  function NormUnsigned(v: int, max: int): (r: real)
    requires max > 0
    ensures v == 0 ==> r == -1.0
    ensures v == max ==> r == 1.0
    ensures 0 <= v <= max ==> -1.0 <= r <= 1.0
  {
    DivBounds(v as real, max as real);
    (v as real / max as real) * 2.0 - 1.0
  }

  /** `v / MAX`: symmetric scaling with no special case for the extra negative value. */
  function NormSigned(v: int, max: int): (r: real)
    requires max > 0
    ensures v == max ==> r == 1.0
    ensures v == -max - 1 ==> r < -1.0
    ensures -max <= v <= max ==> -1.0 <= r <= 1.0
  {
    DivBounds(v as real, max as real);
    v as real / max as real
  }

  function AssembleUnsigned(e: Endian, bs: seq<Byte>): nat {
    if e == Big then FromBeBytes(bs) else FromLeBytes(bs)
  }

  function AssembleSigned(e: Endian, bs: seq<Byte>): int
    requires |bs| >= 1
  {
    if e == Big then FromBeBytesSigned(bs) else FromLeBytesSigned(bs)
  }

  /** The four bytes the 24-bit arms assemble: `buf[0..4]` for Big, `buf[1..5]` for Little. */
  function Word24(e: Endian, buf: seq<Byte>): (w: seq<Byte>)
    requires |buf| == 5
    ensures |w| == 4
  {
    if e == Big then buf[0..4] else buf[1..5]
  }

  /** The value arm of a read closure, applied to the whole buffer after a full read:
      the float arms keep the assembled bits, the integer arms normalise. */
  function DecodeBuffer(f: RawSampleFormat, e: Endian, buf: seq<Byte>): (s: Sample)
    requires |buf| == BufferSize(f)
    ensures IsFloat(f) <==> !s.Scaled?
  {
    if f == Float32 then F32Bits(AssembleUnsigned(e, buf))
    else if f == Float64 then F64Narrowed(AssembleUnsigned(e, buf))
    else Scaled(DecodeIntBuffer(f, e, buf))
  }

  /** The integer value arms. The 24-bit arms assemble four bytes big-endian for
      either byte order (`buf[0..4]` for Big, `buf[1..5]` for Little). */
  function DecodeIntBuffer(f: RawSampleFormat, e: Endian, buf: seq<Byte>): real
    requires !IsFloat(f) && |buf| == BufferSize(f)
  {
    if f == Unsigned24 then NormUnsigned(FromBeBytes(Word24(e, buf)), MaxValue(f))
    else if f == Signed24 then NormSigned(FromBeBytesSigned(Word24(e, buf)), MaxValue(f))
    else if IsSigned(f) then NormSigned(AssembleSigned(e, buf), MaxValue(f))
    else NormUnsigned(AssembleUnsigned(e, buf), MaxValue(f))
  }

  // ---------------------------------------------------------------------------
  // The byte source
  // ---------------------------------------------------------------------------

  /** Bytes left after `pos` (a seek may move past the end). */
  function Remaining(data: seq<Byte>, pos: nat): nat {
    if pos < |data| then |data| - pos else 0
  }

  /** The `n` bytes at `pos`, empty when nothing is asked for. */
  function Slice(data: seq<Byte>, pos: nat, n: nat): (r: seq<Byte>)
    requires n <= Remaining(data, pos)
    ensures |r| == n
  {
    if n == 0 then [] else data[pos..pos + n]
  }

  function Min(a: nat, b: nat): nat {
    if a < b then a else b
  }

  /** How many bytes one `read` delivers: no more than asked for, than is left,
      or than the source hands out per call. */
  function ReadCount(asked: nat, remaining: nat, chunk: nat): (n: nat)
    requires chunk >= 1
    ensures n <= asked && n <= remaining && n <= chunk
    ensures n == 0 <==> asked == 0 || remaining == 0
  {
    Min(asked, Min(remaining, chunk))
  }

  /** A seekable reader over a fixed byte string. Each `read` returns at most `chunk`
      bytes; `readError` and `seekError`, when set, are what every read or seek fails with. */
  class ByteSource {
    const data: seq<Byte>
    var pos: nat
    const chunk: nat
    const readError: Option<IoError>
    const seekError: Option<IoError>

    ghost predicate Valid()
      reads this
    {
      chunk >= 1
    }

    constructor (data: seq<Byte>, chunk: nat, readError: Option<IoError>, seekError: Option<IoError>)
      requires chunk >= 1
      ensures Valid()
      ensures this.data == data && this.pos == 0 && this.chunk == chunk
      ensures this.readError == readError && this.seekError == seekError
    {
      this.data := data;
      this.pos := 0;
      this.chunk := chunk;
      this.readError := readError;
      this.seekError := seekError;
    }

    /** `seek(SeekFrom::Start(offset))`. */
    method Seek(offset: nat) returns (r: Result<nat, IoError>)
      modifies this`pos
      ensures seekError.Some? ==> r == Err(seekError.value) && pos == old(pos)
      ensures seekError.None? ==> r == Ok(offset) && pos == offset
    {
      if seekError.Some? {
        r := Err(seekError.value);
      } else {
        pos := offset;
        r := Ok(offset);
      }
    }

    /** `read(&mut buf[lo..hi])`: fills a prefix of the window and advances. */
    method Read(buf: array<Byte>, lo: nat, hi: nat) returns (r: Result<nat, IoError>)
      requires Valid() && lo <= hi <= buf.Length
      modifies buf, this`pos
      ensures readError.Some? ==> r == Err(readError.value) && pos == old(pos) && buf[..] == old(buf[..])
      ensures readError.None? ==>
        && r.Ok?
        && r.value == ReadCount(hi - lo, Remaining(data, old(pos)), chunk)
        && pos == old(pos) + r.value
        && buf[..] == old(buf[..lo]) + Slice(data, old(pos), r.value) + old(buf[lo + r.value..])
    {
      if readError.Some? {
        return Err(readError.value);
      }
      var n := ReadCount(hi - lo, Remaining(data, pos), chunk);
      var bytes := Slice(data, pos, n);
      forall i | lo <= i < lo + n {
        buf[i] := bytes[i - lo];
      }
      pos := pos + n;
      r := Ok(n);
    }
  }

  // ---------------------------------------------------------------------------
  // One pull: the specification of a read closure
  // ---------------------------------------------------------------------------

  datatype Step = Step(item: Option<Item>, pos: nat)

  function Zeros(n: nat): (z: seq<Byte>)
    ensures |z| == n && forall i :: 0 <= i < n ==> z[i] == 0
  {
    if n == 0 then [] else [0] + Zeros(n - 1)
  }

  /** The buffer after a read of `n` bytes into the closure's window. */
  function Filled(f: RawSampleFormat, data: seq<Byte>, pos: nat, n: nat): (buf: seq<Byte>)
    requires n <= WindowEnd(f) - WindowStart(f) && n <= Remaining(data, pos)
    ensures |buf| == BufferSize(f)
  {
    Zeros(WindowStart(f)) + Slice(data, pos, n) + Zeros(BufferSize(f) - WindowStart(f) - n)
  }

  /** What one call of the read closure returns and where it leaves the source:
      0 bytes read ends the stream, exactly `SampleSize` bytes give a sample, any
      other count gives `IncompleteData`, and a failed read gives `IOError`. */
  function RawStep(f: RawSampleFormat, e: Endian, data: seq<Byte>, pos: nat, chunk: nat,
                   readError: Option<IoError>): (s: Step)
    requires chunk >= 1
    ensures readError.Some? ==> s == Step(Some(Err(IOError(readError.value))), pos)
    ensures readError.None? ==> (s.item.None? <==> Remaining(data, pos) == 0)
    ensures readError.None? && s.item.Some? ==> pos < s.pos && Remaining(data, s.pos) < Remaining(data, pos)
    ensures s.item.Some? && s.item.value.Ok? ==> s.pos == pos + SampleSize(f)
  {
    if readError.Some? then Step(Some(Err(IOError(readError.value))), pos)
    else
      var n := ReadCount(WindowEnd(f) - WindowStart(f), Remaining(data, pos), chunk);
      if n == 0 then Step(None, pos)
      else if n == SampleSize(f) then Step(Some(Ok(DecodeBuffer(f, e, Filled(f, data, pos, n)))), pos + n)
      else Step(Some(Err(IncompleteData)), pos + n)
  }

  /** A zeroed buffer with `n` bytes read into its window is `Filled`. */
  lemma ZeroedWindow(f: RawSampleFormat, data: seq<Byte>, pos: nat, n: nat)
    requires n <= WindowEnd(f) - WindowStart(f) && n <= Remaining(data, pos)
    ensures var z := Zeros(BufferSize(f));
            z[..WindowStart(f)] + Slice(data, pos, n) + z[WindowStart(f) + n..] == Filled(f, data, pos, n)
  {
    var z := Zeros(BufferSize(f));
    assert z[..WindowStart(f)] == Zeros(WindowStart(f));
    assert z[WindowStart(f) + n..] == Zeros(BufferSize(f) - WindowStart(f) - n);
  }

  /** The read closure built by `into_samples` for format `f` and byte order `e`. */
  method ReadSample(reader: ByteSource, f: RawSampleFormat, e: Endian) returns (r: Option<Item>)
    requires reader.Valid()
    modifies reader`pos
    ensures var s := RawStep(f, e, reader.data, old(reader.pos), reader.chunk, reader.readError);
            r == s.item && reader.pos == s.pos
  {
    ghost var start := reader.pos;
    var buf := new Byte[BufferSize(f)](_ => 0);
    assert buf[..] == Zeros(BufferSize(f));
    var res := reader.Read(buf, WindowStart(f), WindowEnd(f));
    match res
    case Err(err) =>
      r := Some(Err(IOError(err)));
    case Ok(n) =>
      if n == 0 {
        r := None;
      } else if n == SampleSize(f) {
        ZeroedWindow(f, reader.data, start, n);
        assert buf[..] == Filled(f, reader.data, start, n);
        r := Some(Ok(DecodeBuffer(f, e, buf[..])));
      } else {
        r := Some(Err(IncompleteData));
      }
  }

  // ---------------------------------------------------------------------------
  // The whole stream
  // ---------------------------------------------------------------------------

  /** Every item the iterator yields, in order, up to the first `None`, for a source
      whose reads do not fail. */
  function RawStream(f: RawSampleFormat, e: Endian, data: seq<Byte>, pos: nat, chunk: nat): seq<Item>
    requires chunk >= 1
    decreases Remaining(data, pos)
  {
    var s := RawStep(f, e, data, pos, chunk, None);
    if s.item.None? then [] else [s.item.value] + RawStream(f, e, data, s.pos, chunk)
  }

  /** The byte groups `n` bytes split into: every whole `size`-byte group in order,
      then the partial rest when there is one. */
  function Groups(data: seq<Byte>, pos: nat, size: nat): seq<seq<Byte>>
    requires size >= 1
    decreases Remaining(data, pos)
  {
    var n := Remaining(data, pos);
    if n >= size then [data[pos..pos + size]] + Groups(data, pos + size, size)
    else if n > 0 then [data[pos..]]
    else []
  }

  /** One group of the intended stream: a whole group is a decoded sample, a partial
      one is `IncompleteData`. */
  function DecodeGroup(f: RawSampleFormat, e: Endian, g: seq<Byte>): (r: Item)
    ensures r.Ok? <==> |g| == SampleSize(f)
    ensures r.Err? ==> r.error == IncompleteData
  {
    if |g| == SampleSize(f) then Ok(Decode(f, e, g)) else Err(IncompleteData)
  }

  /** Each group decoded on its own, in order. */
  function DecodeGroups(f: RawSampleFormat, e: Endian, gs: seq<seq<Byte>>): (s: seq<Item>)
    ensures |s| == |gs| && forall i :: 0 <= i < |gs| ==> s[i] == DecodeGroup(f, e, gs[i])
  {
    if gs == [] then [] else [DecodeGroup(f, e, gs[0])] + DecodeGroups(f, e, gs[1..])
  }

  /** What a raw stream is meant to be, independently of how reads are issued: the
      byte groups of the data, each decoded on its own. `Decode` is the intended
      per-sample decoder. */
  function IntendedStream(f: RawSampleFormat, e: Endian, data: seq<Byte>, pos: nat): seq<Item> {
    DecodeGroups(f, e, Groups(data, pos, SampleSize(f)))
  }

  /** Intended decoding of one `SampleSize`-byte sample: the code's own value arm for
      every format but the 24-bit ones, which use the three-byte decoder Sample24. */
  function Decode(f: RawSampleFormat, e: Endian, bytes: seq<Byte>): Sample
    requires |bytes| == SampleSize(f)
  {
    if Is24(f) then Scaled(Sample24(bytes, e, f == Signed24))
    else DecodeBuffer(f, e, bytes)
  }

  /** The intended stream at a whole group: its sample, then the stream after it. */
  lemma IntendedStreamStep(f: RawSampleFormat, e: Endian, data: seq<Byte>, pos: nat)
    requires Remaining(data, pos) >= SampleSize(f)
    ensures var size := SampleSize(f);
            IntendedStream(f, e, data, pos) ==
              [Ok(Decode(f, e, data[pos..pos + size]))] + IntendedStream(f, e, data, pos + size)
  {
    var size := SampleSize(f);
    var gs := Groups(data, pos, size);
    assert gs == [data[pos..pos + size]] + Groups(data, pos + size, size);
    assert gs[1..] == Groups(data, pos + size, size);
  }

  /** For every non-24-bit format, a source that hands out at least one sample's worth
      of bytes per read yields exactly the intended stream: the samples in byte order,
      then `IncompleteData` iff a partial sample is left, then the end. */
  lemma {:induction false} RawStreamIsIntended(f: RawSampleFormat, e: Endian, data: seq<Byte>, pos: nat, chunk: nat)
    requires !Is24(f) && chunk >= SampleSize(f)
    ensures RawStream(f, e, data, pos, chunk) == IntendedStream(f, e, data, pos)
    decreases Remaining(data, pos)
  {
    var n, size := Remaining(data, pos), SampleSize(f);
    if n >= size {
      var x := Ok(Decode(f, e, data[pos..pos + size]));
      calc {
        RawStream(f, e, data, pos, chunk);
        == { RawStreamWhole(f, e, data, pos, chunk); }
        [x] + RawStream(f, e, data, pos + size, chunk);
        == { assert Remaining(data, pos + size) < n; RawStreamIsIntended(f, e, data, pos + size, chunk); }
        [x] + IntendedStream(f, e, data, pos + size);
        == { IntendedStreamStep(f, e, data, pos); }
        IntendedStream(f, e, data, pos);
      }
    } else if n > 0 {
      RawStreamPartial(f, e, data, pos, chunk);
      IntendedStreamPartial(f, e, data, pos);
    } else {
      assert Groups(data, pos, size) == [];
    }
  }

  /** A read that returns a whole sample decodes it and moves on by its size. */
  lemma RawStreamWhole(f: RawSampleFormat, e: Endian, data: seq<Byte>, pos: nat, chunk: nat)
    requires !Is24(f) && chunk >= SampleSize(f) && Remaining(data, pos) >= SampleSize(f)
    ensures var size := SampleSize(f);
            RawStream(f, e, data, pos, chunk) ==
              [Ok(Decode(f, e, data[pos..pos + size]))] + RawStream(f, e, data, pos + size, chunk)
  {
    RawStepWhole(f, e, data, pos, chunk);
    RawStreamCons(f, e, data, pos, chunk, Ok(Decode(f, e, data[pos..pos + SampleSize(f)])), pos + SampleSize(f));
  }

  /** A step that yields an item puts it in front of the stream from where it left off. */
  lemma RawStreamCons(f: RawSampleFormat, e: Endian, data: seq<Byte>, pos: nat, chunk: nat, item: Item, next: nat)
    requires chunk >= 1 && RawStep(f, e, data, pos, chunk, None) == Step(Some(item), next)
    ensures RawStream(f, e, data, pos, chunk) == [item] + RawStream(f, e, data, next, chunk)
  {
  }

  lemma RawStepWhole(f: RawSampleFormat, e: Endian, data: seq<Byte>, pos: nat, chunk: nat)
    requires !Is24(f) && chunk >= SampleSize(f) && Remaining(data, pos) >= SampleSize(f)
    ensures var size := SampleSize(f);
            RawStep(f, e, data, pos, chunk, None) == Step(Some(Ok(Decode(f, e, data[pos..pos + size]))), pos + size)
  {
    var size := SampleSize(f);
    assert ReadCount(WindowEnd(f) - WindowStart(f), Remaining(data, pos), chunk) == size;
    assert Filled(f, data, pos, size) == data[pos..pos + size];
  }

  /** Fewer bytes than a sample give one `IncompleteData`, then the end. */
  lemma RawStreamPartial(f: RawSampleFormat, e: Endian, data: seq<Byte>, pos: nat, chunk: nat)
    requires !Is24(f) && chunk >= SampleSize(f) && 0 < Remaining(data, pos) < SampleSize(f)
    ensures RawStream(f, e, data, pos, chunk) == [Err(IncompleteData)]
  {
    var n := Remaining(data, pos);
    assert ReadCount(WindowEnd(f) - WindowStart(f), n, chunk) == n;
    assert RawStep(f, e, data, pos, chunk, None) == Step(Some(Err(IncompleteData)), pos + n);
    assert Remaining(data, pos + n) == 0;
  }

  lemma IntendedStreamPartial(f: RawSampleFormat, e: Endian, data: seq<Byte>, pos: nat)
    requires 0 < Remaining(data, pos) < SampleSize(f)
    ensures IntendedStream(f, e, data, pos) == [Err(IncompleteData)]
  {
    assert Groups(data, pos, SampleSize(f)) == [data[pos..]];
  }

  /** Shape of the intended stream: n / size samples, then one `IncompleteData` iff
      n % size != 0; the first sample is the first group decoded. */
  lemma IntendedStreamShape(f: RawSampleFormat, e: Endian, data: seq<Byte>, pos: nat)
    ensures var n, size := Remaining(data, pos), SampleSize(f);
            var s := IntendedStream(f, e, data, pos);
            && |s| == n / size + (if n % size != 0 then 1 else 0)
            && (forall i :: 0 <= i < n / size ==> s[i].Ok?)
            && (n % size != 0 ==> s[|s| - 1] == Err(IncompleteData))
            && (n >= size ==> s[0] == Ok(Decode(f, e, data[pos..pos + size])))
  {
    var n, size := Remaining(data, pos), SampleSize(f);
    var gs := Groups(data, pos, size);
    var s := DecodeGroups(f, e, gs);
    assert s == IntendedStream(f, e, data, pos);
    GroupsShape(data, pos, size);
    forall i | 0 <= i < n / size ensures s[i].Ok? {
      assert s[i] == DecodeGroup(f, e, gs[i]);
    }
    if n % size != 0 {
      assert s[|s| - 1] == DecodeGroup(f, e, gs[|gs| - 1]);
    }
    if n >= size {
      IntendedStreamStep(f, e, data, pos);
    }
  }

  /** n bytes split into n / size whole groups, then one partial group iff n % size != 0. */
  lemma {:induction false} GroupsShape(data: seq<Byte>, pos: nat, size: nat)
    requires size >= 1
    ensures var n, gs := Remaining(data, pos), Groups(data, pos, size);
            && |gs| == n / size + (if n % size != 0 then 1 else 0)
            && (forall i :: 0 <= i < n / size ==> |gs[i]| == size)
            && (n % size != 0 ==> |gs[|gs| - 1]| == n % size)
    decreases Remaining(data, pos)
  {
    var n, gs := Remaining(data, pos), Groups(data, pos, size);
    if n >= size {
      assert Remaining(data, pos + size) == n - size;
      GroupsShape(data, pos + size, size);
      DivStep(n, size);
      var rest := Groups(data, pos + size, size);
      assert gs == [data[pos..pos + size]] + rest;
      forall i | 0 <= i < n / size ensures |gs[i]| == size {
        if i > 0 { assert gs[i] == rest[i - 1]; }
      }
      if n % size != 0 {
        assert gs[|gs| - 1] == rest[|rest| - 1];
      }
    } else {
      DivSmall(n, size);
    }
  }

  lemma DivStep(n: nat, size: nat)
    requires 1 <= size <= n
    ensures (n - size) / size == n / size - 1 && (n - size) % size == n % size
  {
    DivUnique(n - size, size, n / size - 1, n % size);
  }

  lemma DivSmall(n: nat, size: nat)
    requires n < size
    ensures n / size == 0 && n % size == n
  {
  }

  /** As written, the 24-bit arms read into a two-byte window and then compare the
      count with 3, so no read yields a sample: every item is `IncompleteData`, and
      the stream is empty only when no bytes are left. */
  lemma {:induction false} Raw24NeverYieldsSamples(f: RawSampleFormat, e: Endian, data: seq<Byte>, pos: nat, chunk: nat)
    requires Is24(f) && chunk >= 1
    ensures var s := RawStream(f, e, data, pos, chunk);
            && (forall i :: 0 <= i < |s| ==> s[i] == Err(IncompleteData))
            && (|s| == 0 <==> Remaining(data, pos) == 0)
    decreases Remaining(data, pos)
  {
    var st := RawStep(f, e, data, pos, chunk, None);
    if st.item.Some? {
      Raw24NeverYieldsSamples(f, e, data, st.pos, chunk);
    }
  }

  /** With reads of two bytes at a time, a 24-bit stream over n bytes is exactly
      ceil(n / 2) `IncompleteData` items. */
  lemma {:induction false} Raw24StreamLength(f: RawSampleFormat, e: Endian, data: seq<Byte>, pos: nat, chunk: nat)
    requires Is24(f) && chunk >= 2
    ensures |RawStream(f, e, data, pos, chunk)| == (Remaining(data, pos) + 1) / 2
    decreases Remaining(data, pos)
  {
    var st := RawStep(f, e, data, pos, chunk, None);
    if st.item.Some? {
      Raw24StreamLength(f, e, data, st.pos, chunk);
    }
  }

  // ---------------------------------------------------------------------------
  // Integer arms: byte encodings round-trip, extremes normalise as written
  // ---------------------------------------------------------------------------

  /** Range of the integers a non-24-bit integer format stores. */
  function MinInt(f: RawSampleFormat): int
    requires !IsFloat(f) && !Is24(f)
  {
    if IsSigned(f) then -MaxValue(f) - 1 else 0
  }

  /** The plain integer maxima are the type maxima: 2^N - 1 unsigned, 2^(N-1) - 1 signed. */
  lemma MaxValueIsTypeMax(f: RawSampleFormat)
    requires !IsFloat(f) && !Is24(f)
    ensures IsSigned(f) ==> MaxValue(f) == Pow2(8 * SampleSize(f) - 1) - 1
    ensures !IsSigned(f) ==> MaxValue(f) == Pow2(8 * SampleSize(f)) - 1
  {
    Pow2Table();
  }

  /** The `SampleSize(f)`-byte encoding of v in byte order e (two's complement when signed). */
  function EncodeInt(f: RawSampleFormat, e: Endian, v: int): (bs: seq<Byte>)
    requires !IsFloat(f) && !Is24(f) && MinInt(f) <= v <= MaxValue(f)
    ensures |bs| == SampleSize(f)
  {
    MaxValueIsTypeMax(f);
    var u := if IsSigned(f) then FromSigned(v, 8 * SampleSize(f)) else v;
    if e == Big then ToBeBytes(u, SampleSize(f)) else ToLeBytes(u, SampleSize(f))
  }

  /** Normalised value of integer v in format f: `v/MAX*2-1` unsigned, `v/MAX` signed. */
  function NormInt(f: RawSampleFormat, v: int): real
    requires !IsFloat(f)
  {
    if IsSigned(f) then NormSigned(v, MaxValue(f)) else NormUnsigned(v, MaxValue(f))
  }

  /** Decoding the encoding of any in-range integer gives back that integer, normalised. */
  lemma DecodeEncode(f: RawSampleFormat, e: Endian, v: int)
    requires !IsFloat(f) && !Is24(f) && MinInt(f) <= v <= MaxValue(f)
    ensures DecodeBuffer(f, e, EncodeInt(f, e, v)) == Scaled(NormInt(f, v))
  {
    MaxValueIsTypeMax(f);
    var n := SampleSize(f);
    if IsSigned(f) {
      if e == Big { SignedBeRoundTrip(v, n); } else { SignedLeRoundTrip(v, n); }
    } else {
      if e == Big { BeRoundTrip(v, n); } else { LeRoundTrip(v, n); }
    }
  }

  /** MAX decodes to exactly 1.0 in every integer format. */
  lemma DecodeMaxIsOne(f: RawSampleFormat, e: Endian)
    requires !IsFloat(f) && !Is24(f)
    ensures DecodeBuffer(f, e, EncodeInt(f, e, MaxValue(f))) == Scaled(1.0)
  {
    DecodeEncode(f, e, MaxValue(f));
  }

  /** Unsigned 0 decodes to exactly -1.0. */
  lemma DecodeUnsignedZero(f: RawSampleFormat, e: Endian)
    requires !IsFloat(f) && !Is24(f) && !IsSigned(f)
    ensures DecodeBuffer(f, e, EncodeInt(f, e, 0)) == Scaled(-1.0)
  {
    DecodeEncode(f, e, 0);
  }

  /** Signed MIN decodes to MIN/MAX, which lies below -1 (e.g. -128/127 for 8 bits). */
  lemma DecodeSignedMin(f: RawSampleFormat, e: Endian)
    requires !IsFloat(f) && !Is24(f) && IsSigned(f)
    ensures DecodeBuffer(f, e, EncodeInt(f, e, MinInt(f))) == Scaled((MinInt(f) as real) / (MaxValue(f) as real))
    ensures (MinInt(f) as real) / (MaxValue(f) as real) < -1.0
  {
    DecodeEncode(f, e, MinInt(f));
  }

  // ---------------------------------------------------------------------------
  // 24-bit samples
  // ---------------------------------------------------------------------------

  /** The 24-bit constants as written evaluate to 2^25 - 1 and 2^24 - 1, twice the
      24-bit maxima 2^24 - 1 and 2^23 - 1. */
  lemma Max24AsWritten()
    ensures MaxValue(Unsigned24) == Pow2(25) - 1 == 2 * (Pow2(24) - 1) + 1
    ensures MaxValue(Signed24) == Pow2(24) - 1 == 2 * (Pow2(23) - 1) + 1
  {
    Pow2Add(16, 8);
    Pow2Add(16, 7);
    Pow2Add(16, 9);
    Pow2Table();
    assert Pow2(9) == 512;
  }

  const Max24Unsigned: int := 0xFF_FFFF
  const Max24Signed: int := 0x7F_FFFF

  /** Intended decoding of a 3-byte sample: assemble 24 bits in byte order e, read them
      as two's complement when signed, and divide by the 24-bit maximum. */
  function Sample24(bytes: seq<Byte>, e: Endian, signed: bool): (r: real)
    requires |bytes| == 3
  {
    var u := AssembleUnsigned(e, bytes);
    Pow2Table();
    Pow2Add(16, 8);
    if signed then NormSigned(ToSigned(u, 24), Max24Signed)
    else NormUnsigned(u, Max24Unsigned)
  }

  predicate In24Range(v: int, signed: bool) {
    if signed then -Max24Signed - 1 <= v <= Max24Signed else 0 <= v <= Max24Unsigned
  }

  /** The 3-byte encoding of a 24-bit value in byte order e (two's complement when signed). */
  function Encode24(v: int, e: Endian, signed: bool): (bytes: seq<Byte>)
    requires In24Range(v, signed)
    ensures |bytes| == 3
  {
    Pow2Table();
    Pow2Add(16, 8);
    Pow2Add(16, 7);
    var u := if signed then FromSigned(v, 24) else v;
    if e == Big then ToBeBytes(u, 3) else ToLeBytes(u, 3)
  }

  /** The intended 24-bit decoder maps the encoding of every 24-bit value v to v over
      the 24-bit maximum (unsigned through `*2-1`), so 0xFFFFFF unsigned and 0x7FFFFF
      signed both give exactly 1. */
  lemma Sample24RoundTrip(v: int, e: Endian, signed: bool)
    requires In24Range(v, signed)
    ensures Sample24(Encode24(v, e, signed), e, signed) ==
            if signed then NormSigned(v, Max24Signed) else NormUnsigned(v, Max24Unsigned)
  {
    Pow2Table();
    Pow2Add(16, 8);
    Pow2Add(16, 7);
    var u := if signed then FromSigned(v, 24) else v;
    if e == Big { BeRoundTrip(u, 3); } else { LeRoundTrip(u, 3); }
    if signed {
      SignedRoundTrip(v, 24);
    }
  }

  /** The 24-bit value arms as written, if a three-byte read had reached them: the
      largest unsigned sample 0xFFFFFF, big-endian, lands just below 0, not at 1. */
  lemma Unsigned24AsWrittenMisscales()
    ensures DecodeBuffer(Unsigned24, Big, [0, 0xFF, 0xFF, 0xFF, 0]).value < 0.0
  {
    var w1: seq<Byte> := [0];
    var w2: seq<Byte> := [0, 0xFF];
    var w3: seq<Byte> := [0, 0xFF, 0xFF];
    var w4: seq<Byte> := [0, 0xFF, 0xFF, 0xFF];
    assert w1[..0] == [] && w2[..1] == w1 && w3[..2] == w2 && w4[..3] == w3;
    assert FromBeBytes(w1) == 0;
    assert FromBeBytes(w2) == 0xFF;
    assert FromBeBytes(w3) == 0xFFFF;
    assert FromBeBytes(w4) == 0xFF_FFFF;
    var buf: seq<Byte> := [0, 0xFF, 0xFF, 0xFF, 0];
    assert Word24(Big, buf) == w4;
    assert DecodeBuffer(Unsigned24, Big, buf) == Scaled(NormUnsigned(0xFF_FFFF, 0x1FF_FFFF));
  }

  /** The intended decoder puts the same largest unsigned sample at exactly 1. */
  lemma Sample24FullScale()
    ensures Sample24([0xFF, 0xFF, 0xFF], Big, false) == 1.0
  {
    var v1: seq<Byte> := [0xFF];
    var v2: seq<Byte> := [0xFF, 0xFF];
    var v3: seq<Byte> := [0xFF, 0xFF, 0xFF];
    assert v1[..0] == [] && v2[..1] == v1 && v3[..2] == v2;
    assert FromBeBytes(v3) == 0xFF_FFFF;
  }

  // ---------------------------------------------------------------------------
  // Decoder and iterator objects
  // ---------------------------------------------------------------------------

  /** The metadata of a raw stream: format `Raw`, channels and rate from the spec. */
  function RawInfo(spec: RawAudioSpec): (info: AudioInfo)
    ensures info.format == Raw
    ensures info.channels == spec.channels && info.sampleRate == spec.sampleRate
  {
    AudioInfo(spec.sampleRate, spec.channels, Raw)
  }

  class RawDecoder {
    const reader: ByteSource
    const spec: RawAudioSpec
    const info: AudioInfo

    ghost predicate Valid()
      reads this, reader
    {
      reader.Valid() && info == RawInfo(spec)
    }

    constructor Init(reader: ByteSource, spec: RawAudioSpec)
      requires reader.Valid()
      ensures Valid() && this.reader == reader && this.spec == spec
    {
      this.reader := reader;
      this.spec := spec;
      this.info := RawInfo(spec);
    }

    /** `RawDecoder::new`: seek to the start offset, fail with `IOError` if that fails. */
    static method New(reader: ByteSource, spec: RawAudioSpec) returns (r: Result<RawDecoder, DecoderError>)
      requires reader.Valid()
      modifies reader`pos
      ensures reader.seekError.Some? ==> r == Err(IOError(reader.seekError.value)) && reader.pos == old(reader.pos)
      ensures reader.seekError.None? ==>
        && r.Ok? && fresh(r.value) && r.value.Valid()
        && r.value.reader == reader && r.value.spec == spec
        && reader.pos == spec.startOffset
    {
      var sought := reader.Seek(spec.startOffset);
      if sought.Err? {
        return Err(IOError(sought.error));
      }
      var d := new RawDecoder.Init(reader, spec);
      r := Ok(d);
    }

    function Info(): (info: AudioInfo)
      requires Valid()
      reads this, reader
      ensures info == RawInfo(spec)
    {
      this.info
    }

    /** `into_samples`: an iterator that runs the read closure for the spec's format and
        byte order; nothing else from the spec (in particular not `max_frames`) is kept. */
    method IntoSamples() returns (it: RawSampleIterator)
      requires Valid()
      ensures fresh(it) && it.reader == reader && it.format == spec.sampleFormat && it.endian == spec.endianness
      ensures it.Output() == RawStream(spec.sampleFormat, spec.endianness, reader.data, reader.pos, reader.chunk)
    {
      it := new RawSampleIterator(reader, spec.sampleFormat, spec.endianness);
    }
  }

  class RawSampleIterator {
    const reader: ByteSource
    const format: RawSampleFormat
    const endian: Endian

    constructor (reader: ByteSource, format: RawSampleFormat, endian: Endian)
      ensures this.reader == reader && this.format == format && this.endian == endian
    {
      this.reader := reader;
      this.format := format;
      this.endian := endian;
    }

    /** The items still to come, for a source whose reads do not fail. */
    ghost function Output(): seq<Item>
      reads this, reader
      requires reader.Valid()
    {
      RawStream(format, endian, reader.data, reader.pos, reader.chunk)
    }

    /** `next`: one call of the read closure. */
    method Next() returns (r: Option<Item>)
      requires reader.Valid()
      modifies reader`pos
      ensures var s := RawStep(format, endian, reader.data, old(reader.pos), reader.chunk, reader.readError);
              r == s.item && reader.pos == s.pos
      ensures reader.readError.None? ==>
        if r.None? then old(Output()) == [] else old(Output()) == [r.value] + Output()
    {
      r := ReadSample(reader, format, endian);
    }
  }

  // ---------------------------------------------------------------------------
  // max_frames
  // ---------------------------------------------------------------------------

  /** The stream a raw decoder opened on `data` with `spec` yields (reads never fail). */
  function StreamOf(spec: RawAudioSpec, data: seq<Byte>, chunk: nat): seq<Item>
    requires chunk >= 1
  {
    RawStream(spec.sampleFormat, spec.endianness, data, spec.startOffset, chunk)
  }

  /** As written, `max_frames` is never read: a cap of zero frames still lets a full
      sample through. */
  lemma MaxFramesIgnored(spec: RawAudioSpec, data: seq<Byte>)
    requires spec.sampleFormat == Unsigned8 && spec.maxFrames == Some(0) && spec.startOffset == 0
    requires |data| == 1
    ensures |StreamOf(spec, data, 1)| == 1 > 0 * spec.channels
    ensures StreamOf(spec, data, 1)[0].Ok?
  {
    var s := RawStep(Unsigned8, spec.endianness, data, 0, 1, None);
    assert s.pos == 1 && s.item.Some? && s.item.value.Ok?;
    assert RawStream(Unsigned8, spec.endianness, data, 1, 1) == [];
  }

  /** The intended cap: at most `max_frames * channels` items. */
  function CapFrames(items: seq<Item>, spec: RawAudioSpec): (r: seq<Item>)
    ensures r <= items
    ensures spec.maxFrames.Some? ==> |r| == Min(|items|, spec.maxFrames.value * spec.channels)
    ensures spec.maxFrames.None? ==> r == items
  {
    match spec.maxFrames
    case None => items
    case Some(k) => items[..Min(|items|, k * spec.channels)]
  }

  /** With the cap applied, a source holding at least k*c whole samples yields exactly
      k*c samples, all of them decoded values, however many bytes remain. */
  lemma CappedStreamExact(spec: RawAudioSpec, data: seq<Byte>, chunk: nat, k: nat)
    requires !Is24(spec.sampleFormat) && chunk >= SampleSize(spec.sampleFormat)
    requires spec.maxFrames == Some(k)
    requires Remaining(data, spec.startOffset) >= k * spec.channels * SampleSize(spec.sampleFormat)
    ensures var r := CapFrames(StreamOf(spec, data, chunk), spec);
            |r| == k * spec.channels && forall i :: 0 <= i < |r| ==> r[i].Ok?
  {
    var f, e, pos := spec.sampleFormat, spec.endianness, spec.startOffset;
    var n, size, m := Remaining(data, pos), SampleSize(f), k * spec.channels;
    RawStreamIsIntended(f, e, data, pos, chunk);
    IntendedStreamShape(f, e, data, pos);
    WholeGroupsAtLeast(m, size, n);
    var items := StreamOf(spec, data, chunk);
    var r := CapFrames(items, spec);
    assert |r| == m;
    forall i | 0 <= i < |r| ensures r[i].Ok? {
      assert r[i] == items[i];
    }
  }

  /** m groups of `size` bytes fit in n bytes only if n holds at least m whole groups. */
  lemma WholeGroupsAtLeast(m: nat, size: nat, n: nat)
    requires size >= 1 && m * size <= n
    ensures m <= n / size
  {
    var q, r := n / size, n % size;
    assert n == q * size + r && r < size;
    if m > q {
      assert (q + 1) * size == q * size + size;
      MulMonotone(q + 1, m, size);
    }
  }

  lemma MulMonotone(a: nat, b: nat, c: nat)
    requires a <= b
    ensures a * c <= b * c
  {
    assert b * c == a * c + (b - a) * c;
  }
  }
