/** The FLAC backend (`src/decoder/flac.rs`): a block reader, and a sample iterator
    that walks the first `len` entries of each decoded block buffer, scaling by the
    largest value the stream's sample width can hold. */
module FlacBackend {
  import opened Common
  import opened ByteCodec

  /** The block library's errors. */
  datatype FlacError = IoErr(io: IoError) | FormatErr(msg: string) | Unsupported(msg: string)

  /** The stream header fields the adapter reads. */
  datatype StreamInfo = StreamInfo(sampleRate: nat, channels: nat, bitsPerSample: nat, maxBlockSize: nat)

  /** A decoded block: its buffer and how many of its entries are samples. */
  datatype Block = Block(buffer: seq<int>, len: nat)

  /** One `read_next_or_eof` answer. */
  type BlockResult = Result<Option<Block>, FlacError>

  /** `flac_err_as_decoder_err`. */
  function ErrToDecoderErr(e: FlacError): (d: DecoderError)
    ensures e.IoErr? <==> d.IOError?
    ensures e.IoErr? ==> d == IOError(e.io)
  {
    match e
    case IoErr(io) => IOError(io)
    case FormatErr(m) => FormatError("flac: format error: " + m)
    case Unsupported(m) => FormatError("flac: unsupported: " + m)
  }

  /** A format message names the backend and the error kind, and ends with the
      library's own message. */
  lemma ErrMessageKeepsCause(e: FlacError)
    requires !e.IoErr?
    ensures var m := ErrToDecoderErr(e).msg;
            && "flac: " <= m
            && (e.FormatErr? ==> "flac: format error: " <= m)
            && (e.Unsupported? ==> "flac: unsupported: " <= m)
            && |e.msg| <= |m| && m[|m| - |e.msg|..] == e.msg
  {
    var m := ErrToDecoderErr(e).msg;
    var prefix := if e.FormatErr? then "flac: format error: " else "flac: unsupported: ";
    assert m == prefix + e.msg;
    assert m[|m| - |e.msg|..] == e.msg;
    assert m[..6] == "flac: ";
  }

  /** `i32::MAX >> (32 - bits_per_sample)`; a width of 0 or above 32 would make the
      shift or the subtraction overflow. */
  function MaxSampleValue(bps: nat): (m: nat)
    requires 1 <= bps <= 32
  {
    I32Max / Pow2(32 - bps)
  }

  /** The shift gives the largest two's-complement value of the sample width. */
  lemma MaxSampleValueIsWidthMax(bps: nat)
    requires 1 <= bps <= 32
    ensures MaxSampleValue(bps) == Pow2(bps - 1) - 1
  {
    var q, d := Pow2(bps - 1), Pow2(32 - bps);
    Pow2Add(bps - 1, 32 - bps);
    Pow2Table();
    assert q * d == 0x8000_0000;
    MulPred(q, d);
    DivUnique(I32Max, d, q - 1, d - 1);
  }

  lemma MulPred(q: int, d: int)
    ensures (q - 1) * d == q * d - d
  {
  }

  /** The block answer at position `idx` and the position after it; past the end the
      reader keeps answering end of stream. */
  function ReadBlock(blocks: seq<BlockResult>, idx: nat): (r: (BlockResult, nat))
    requires idx <= |blocks|
    ensures idx <= r.1 <= |blocks|
    ensures r.1 == idx ==> r.0 == Ok(None)
    ensures r.0 != Ok(None) ==> r.1 == idx + 1
  {
    if idx < |blocks| then (blocks[idx], idx + 1) else (Ok(None), idx)
  }

  /** Every decoded block's length fits its buffer. */
  ghost predicate WellFormed(blocks: seq<BlockResult>) {
    forall k :: 0 <= k < |blocks| && blocks[k].Ok? && blocks[k].value.Some? ==>
      blocks[k].value.value.len <= |blocks[k].value.value.buffer|
  }

  /** The FLAC reader: the stream header, the scripted block answers, and how many
      have been consumed. */
  class FlacReader {
    const info: StreamInfo
    const blocks: seq<BlockResult>
    var idx: nat

    ghost predicate Valid()
      reads this
    {
      idx <= |blocks| && WellFormed(blocks)
    }

    constructor (info: StreamInfo, blocks: seq<BlockResult>)
      requires WellFormed(blocks)
      ensures Valid() && this.info == info && this.blocks == blocks && idx == 0
    {
      this.info := info;
      this.blocks := blocks;
      idx := 0;
    }

    /** `blocks().read_next_or_eof(buffer)`: the buffer handed in only lends its
        allocation, so it is not modelled. */
    method ReadNextOrEof() returns (r: BlockResult)
      requires Valid()
      modifies this`idx
      ensures Valid()
      ensures (r, idx) == ReadBlock(blocks, old(idx))
    {
      r, idx := ReadBlock(blocks, idx).0, ReadBlock(blocks, idx).1;
    }
  }

  class FlacDecoder {
    const reader: FlacReader
    const sampleRate: nat
    const channels: nat

    ghost predicate Valid()
      reads this, reader
    {
      reader.Valid() && sampleRate == reader.info.sampleRate && channels == reader.info.channels
    }

    constructor Init(reader: FlacReader)
      requires reader.Valid()
      ensures Valid() && this.reader == reader
    {
      this.reader := reader;
      sampleRate := reader.info.sampleRate;
      channels := reader.info.channels;
    }

    /** `FlacDecoder::open`: a reader that fails to open is its mapped error; otherwise
        rate and channel count come from the stream header. */
    static method Open(file: Result<FlacReader, FlacError>) returns (r: Result<FlacDecoder, DecoderError>)
      requires file.Ok? ==> file.value.Valid()
      ensures file.Err? ==> r == Err(ErrToDecoderErr(file.error))
      ensures file.Ok? ==>
        && r.Ok? && fresh(r.value) && r.value.Valid() && r.value.reader == file.value
        && r.value.SampleRate() == file.value.info.sampleRate && r.value.Channels() == file.value.info.channels
    {
      if file.Err? {
        return Err(ErrToDecoderErr(file.error));
      }
      var d := new FlacDecoder.Init(file.value);
      r := Ok(d);
    }

    function SampleRate(): (rate: nat)
      requires Valid()
      reads this, reader
      ensures rate == reader.info.sampleRate
    {
      sampleRate
    }

    function Channels(): (n: nat)
      requires Valid()
      reads this, reader
      ensures n == reader.info.channels
    {
      channels
    }

    /** `into_samples`: always succeeds, with an iterator that has no block yet. */
    method IntoSamples() returns (r: Result<FlacSampleIterator, DecoderError>)
      requires Valid() && 2 <= reader.info.bitsPerSample <= 32
      ensures r.Ok? && fresh(r.value) && r.value.Valid() && r.value.reader == reader
      ensures r.value.maxSampleValue == MaxSampleValue(reader.info.bitsPerSample)
      ensures r.value.State() == FState([], 0, 0, reader.idx)
    {
      var it := new FlacSampleIterator(reader);
      r := Ok(it);
    }
  }

  /** The iterator's mutable state: block buffer, its sample count, cursor, blocks consumed. */
  datatype FState = FState(block: seq<int>, len: nat, cursor: nat, idx: nat)

  ghost predicate ValidState(st: FState, blocks: seq<BlockResult>) {
    st.cursor <= st.len <= |st.block| && st.idx <= |blocks| && WellFormed(blocks)
  }

  /** One call of `next`: emit from the current block while the cursor is below its
      length; otherwise reset the cursor, hand the buffer over (leaving an empty one
      behind) and read a block. Any answer but a block, error or end alike, ends the
      stream, and the length of the previous block stays behind. */
  function Pull(st: FState, maxv: int, blocks: seq<BlockResult>): (r: (Option<Item>, FState))
    requires ValidState(st, blocks) && maxv > 0
    ensures r.0.Some? ==> ValidState(r.1, blocks) && r.0.value.Ok?
    ensures r.0.Some? ==> r.1.idx > st.idx || (r.1.idx == st.idx && r.1.len - r.1.cursor < st.len - st.cursor)
    ensures r.0.None? ==> r.1.block == [] && r.1.cursor == 0 && st.cursor == st.len
    ensures r.0.None? ==> (ValidState(r.1, blocks) <==> r.1.len == 0)
    decreases |blocks| - st.idx, st.len - st.cursor
  {
    if st.cursor < st.len then
      (Some(Ok(ScaleBy(st.block[st.cursor], maxv))), FState(st.block, st.len, st.cursor + 1, st.idx))
    else
      var (res, j) := ReadBlock(blocks, st.idx);
      match res
      case Ok(Some(b)) => Pull(FState(b.buffer, b.len, 0, j), maxv, blocks)
      case _ => (None, FState([], st.len, 0, j))
  }

  /** Every item `next` yields from a state until it first answers `None`. */
  ghost function Items(st: FState, maxv: int, blocks: seq<BlockResult>): seq<Item>
    requires ValidState(st, blocks) && maxv > 0
    decreases |blocks| - st.idx, st.len - st.cursor
  {
    var (item, st') := Pull(st, maxv, blocks);
    if item.None? then [] else [item.value] + Items(st', maxv, blocks)
  }

  class FlacSampleIterator {
    const reader: FlacReader
    var curBlock: seq<int>
    var curBlockLen: nat
    const maxSampleValue: int
    var blockCursor: nat

    ghost predicate Valid()
      reads this, reader
    {
      && reader.Valid() && maxSampleValue > 0
      && blockCursor <= curBlockLen <= |curBlock|
    }

    ghost function State(): FState
      reads this, reader
    {
      FState(curBlock, curBlockLen, blockCursor, reader.idx)
    }

    ghost function Output(): seq<Item>
      requires Valid()
      reads this, reader
    {
      Items(State(), maxSampleValue, reader.blocks)
    }

    /** `FlacSampleIterator::new`. */
    constructor (reader: FlacReader)
      requires reader.Valid() && 2 <= reader.info.bitsPerSample <= 32
      ensures Valid() && this.reader == reader
      ensures maxSampleValue == MaxSampleValue(reader.info.bitsPerSample)
      ensures curBlock == [] && curBlockLen == 0 && blockCursor == 0
    {
      this.reader := reader;
      MaxSampleValueIsWidthMax(reader.info.bitsPerSample);
      maxSampleValue := MaxSampleValue(reader.info.bitsPerSample);
      curBlock := [];
      curBlockLen := 0;
      blockCursor := 0;
    }

    /** `next`. After it answers `None` the iterator is only safe to call again if the
        last block it read was empty. */
    method Next() returns (item: Option<Item>)
      requires Valid()
      modifies this, reader
      ensures (item, State()) == Pull(old(State()), maxSampleValue, reader.blocks)
      ensures item.Some? ==> Valid() && old(Output()) == [item.value] + Output()
      ensures item.None? ==> old(Output()) == [] && (Valid() <==> curBlockLen == 0)
    {
      while true
        invariant Valid()
        invariant Pull(old(State()), maxSampleValue, reader.blocks) == Pull(State(), maxSampleValue, reader.blocks)
        decreases |reader.blocks| - reader.idx, curBlockLen - blockCursor
      {
        if blockCursor < curBlockLen {
          var sample := ScaleBy(curBlock[blockCursor], maxSampleValue);
          blockCursor := blockCursor + 1;
          return Some(Ok(sample));
        }
        blockCursor := 0;
        curBlock := [];
        var res := reader.ReadNextOrEof();
        match res {
          case Ok(Some(block)) =>
            curBlockLen := block.len;
            curBlock := block.buffer;
          case _ =>
            return None;
        }
      }
    }
  }

  // ---------------------------------------------------------------------------
  // Properties of the sample stream
  // ---------------------------------------------------------------------------

  /** The samples of the blocks from `idx` on, in order, up to the first answer that
      is not a block. */
  function Pcm(blocks: seq<BlockResult>, idx: nat): seq<int>
    requires WellFormed(blocks)
    decreases |blocks| - idx
  {
    if idx >= |blocks| then []
    else
      match blocks[idx]
      case Ok(Some(b)) => b.buffer[..b.len] + Pcm(blocks, idx + 1)
      case _ => []
  }

  /** The iterator yields the rest of the current block and then the samples of every
      later block, in order, each divided by the width maximum; an empty block adds
      nothing, and the first error or end of stream ends it. */
  lemma {:induction false} StreamInOrder(st: FState, maxv: int, blocks: seq<BlockResult>)
    requires ValidState(st, blocks) && maxv > 0
    ensures Items(st, maxv, blocks) == ScaleAll(st.block[st.cursor..st.len] + Pcm(blocks, st.idx), maxv)
    decreases |blocks| - st.idx, st.len - st.cursor
  {
    if st.cursor < st.len {
      PullEmits(st, maxv, blocks);
      StreamInOrder(FState(st.block, st.len, st.cursor + 1, st.idx), maxv, blocks);
      ScaleAllSlice(st.block, st.cursor, st.len, Pcm(blocks, st.idx), maxv);
    } else if st.idx < |blocks| && blocks[st.idx].Ok? && blocks[st.idx].value.Some? {
      var b := blocks[st.idx].value.value;
      PullRefills(st, maxv, blocks);
      StreamInOrder(FState(b.buffer, b.len, 0, st.idx + 1), maxv, blocks);
      PcmRefill(blocks, st.idx);
      EmptySlice(st.block, st.cursor, Pcm(blocks, st.idx));
    } else {
      PullEnds(st, maxv, blocks);
      EmptySlice(st.block, st.cursor, Pcm(blocks, st.idx));
      assert Pcm(blocks, st.idx) == [];
    }
  }

  /** A decoded block contributes its first `len` samples ahead of the later blocks. */
  lemma PcmRefill(blocks: seq<BlockResult>, idx: nat)
    requires WellFormed(blocks) && idx < |blocks| && blocks[idx].Ok? && blocks[idx].value.Some?
    ensures var b := blocks[idx].value.value;
            Pcm(blocks, idx) == b.buffer[0..b.len] + Pcm(blocks, idx + 1)
  {
    var b := blocks[idx].value.value;
    assert b.buffer[0..b.len] == b.buffer[..b.len];
  }

  /** Below the block length, one item is emitted and the cursor advances. */
  lemma PullEmits(st: FState, maxv: int, blocks: seq<BlockResult>)
    requires ValidState(st, blocks) && maxv > 0 && st.cursor < st.len
    ensures Items(st, maxv, blocks) ==
            [Ok(ScaleBy(st.block[st.cursor], maxv))] + Items(FState(st.block, st.len, st.cursor + 1, st.idx), maxv, blocks)
  {
  }

  /** At the block length, a block read from the reader takes the place of the old one. */
  lemma PullRefills(st: FState, maxv: int, blocks: seq<BlockResult>)
    requires ValidState(st, blocks) && maxv > 0 && st.cursor == st.len
    requires st.idx < |blocks| && blocks[st.idx].Ok? && blocks[st.idx].value.Some?
    ensures var b := blocks[st.idx].value.value;
            Items(st, maxv, blocks) == Items(FState(b.buffer, b.len, 0, st.idx + 1), maxv, blocks)
  {
    var b := blocks[st.idx].value.value;
    assert Pull(st, maxv, blocks) == Pull(FState(b.buffer, b.len, 0, st.idx + 1), maxv, blocks);
  }

  /** At the block length, anything but a block ends the stream. */
  lemma PullEnds(st: FState, maxv: int, blocks: seq<BlockResult>)
    requires ValidState(st, blocks) && maxv > 0 && st.cursor == st.len
    requires !(st.idx < |blocks| && blocks[st.idx].Ok? && blocks[st.idx].value.Some?)
    ensures Items(st, maxv, blocks) == []
  {
  }

  /** The iterator never yields an error item: errors from the block reader end the
      stream silently. */
  lemma NeverYieldsError(st: FState, maxv: int, blocks: seq<BlockResult>)
    requires ValidState(st, blocks) && maxv > 0
    ensures forall i :: 0 <= i < |Items(st, maxv, blocks)| ==> Items(st, maxv, blocks)[i].Ok?
  {
    StreamInOrder(st, maxv, blocks);
  }

  /** A freshly built iterator yields the samples of all blocks in order, scaled by
      the width maximum `2^(bps-1) - 1`. */
  lemma OpenedStreamInOrder(bps: nat, idx: nat, blocks: seq<BlockResult>)
    requires 2 <= bps <= 32 && idx <= |blocks| && WellFormed(blocks)
    ensures MaxSampleValue(bps) == Pow2(bps - 1) - 1 > 0
    ensures Items(FState([], 0, 0, idx), MaxSampleValue(bps), blocks) == ScaleAll(Pcm(blocks, idx), Pow2(bps - 1) - 1)
  {
    MaxSampleValueIsWidthMax(bps);
    assert Pow2(bps - 1) == 2 * Pow2(bps - 2);
    StreamInOrder(FState([], 0, 0, idx), MaxSampleValue(bps), blocks);
    var empty: seq<int> := [];
    assert empty[0..0] + Pcm(blocks, idx) == Pcm(blocks, idx);
  }

  /** When the block that ended the stream followed a non-empty one, the iterator is
      left with an empty buffer but the old length: the cursor 0 is below the length,
      so a further call would index past the end of the buffer. */
  lemma CallAfterEndOutOfBounds(st: FState, maxv: int, blocks: seq<BlockResult>)
    requires ValidState(st, blocks) && maxv > 0 && st.cursor == st.len > 0
    requires ReadBlock(blocks, st.idx).0 == Ok(None) || ReadBlock(blocks, st.idx).0.Err?
    ensures var r := Pull(st, maxv, blocks);
            && r.0.None? && r.1.cursor < r.1.len && r.1.cursor >= |r.1.block|
  {
  }
}
