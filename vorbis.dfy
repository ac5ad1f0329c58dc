/** The Vorbis backend (`src/decoder/vorbis.rs`): an Ogg reader that hands out
    decoded packets of interleaved 16-bit samples, and a sample iterator that walks
    each packet and fetches the next one as soon as the current one is used up. */
module VorbisBackend {
  import opened Common

  /** The packet library's error kinds, each carrying its rendered message. */
  datatype VorbisError = BadAudio(msg: string) | BadHeader(msg: string) | OggError(msg: string)

  /** One `read_dec_packet_itl` answer: a packet, `None` at the end of the stream, or an error. */
  type PacketResult = Result<Option<seq<int>>, VorbisError>

  /** The identification header: channel count (`u8`) and sample rate. */
  datatype Ident = Ident(channels: nat, sampleRate: nat)

  /** `vorbis_err_to_decoder_err`: every kind is a format error, under its own prefix. */
  function ErrToDecoderErr(e: VorbisError): (d: DecoderError)
    ensures d.FormatError?
  {
    match e
    case BadAudio(m) => FormatError("ogg: bad audio: " + m)
    case BadHeader(m) => FormatError("ogg: bad header: " + m)
    case OggError(m) => FormatError("ogg: " + m)
  }

  /** The message names the backend, then the error kind where there is one, and
      ends with the library's own message. */
  lemma ErrMessageKeepsCause(e: VorbisError)
    ensures var m := ErrToDecoderErr(e).msg;
            && "ogg: " <= m
            && (e.BadAudio? ==> "ogg: bad audio: " <= m)
            && (e.BadHeader? ==> "ogg: bad header: " <= m)
            && |e.msg| <= |m| && m[|m| - |e.msg|..] == e.msg
  {
    var m := ErrToDecoderErr(e).msg;
    var prefix := if e.BadAudio? then "ogg: bad audio: " else if e.BadHeader? then "ogg: bad header: " else "ogg: ";
    assert m == prefix + e.msg;
    assert m[|m| - |e.msg|..] == e.msg;
    assert m[..5] == "ogg: ";
  }

  /** The next packet answer at position `idx` and the position after it; past the
      end the stream keeps answering `None`. */
  function ReadPacket(packets: seq<PacketResult>, idx: nat): (r: (PacketResult, nat))
    requires idx <= |packets|
    ensures idx <= r.1 <= |packets|
    ensures r.1 == idx ==> r.0 == Ok(None)
    ensures r.0.Err? ==> r.1 == idx + 1
  {
    if idx < |packets| then (packets[idx], idx + 1) else (Ok(None), idx)
  }

  /** The Ogg stream reader: its identification header (or the error reading it), the
      scripted packet answers, and how many have been consumed. */
  class OggReader {
    const ident: Result<Ident, VorbisError>
    const packets: seq<PacketResult>
    var idx: nat

    ghost predicate Valid()
      reads this
    {
      idx <= |packets|
    }

    constructor (ident: Result<Ident, VorbisError>, packets: seq<PacketResult>)
      ensures Valid() && this.ident == ident && this.packets == packets && idx == 0
    {
      this.ident := ident;
      this.packets := packets;
      idx := 0;
    }

    method ReadDecPacket() returns (r: PacketResult)
      requires Valid()
      modifies this`idx
      ensures Valid()
      ensures (r, idx) == ReadPacket(packets, old(idx))
    {
      r, idx := ReadPacket(packets, idx).0, ReadPacket(packets, idx).1;
    }
  }

  class VorbisDecoder {
    const reader: OggReader
    const channels: nat
    const sampleRate: nat

    ghost predicate Valid()
      reads this, reader
    {
      && reader.Valid() && reader.ident.Ok?
      && channels == reader.ident.value.channels && sampleRate == reader.ident.value.sampleRate
    }

    constructor Init(reader: OggReader)
      requires reader.Valid() && reader.ident.Ok?
      ensures Valid() && this.reader == reader
    {
      this.reader := reader;
      channels := reader.ident.value.channels;
      sampleRate := reader.ident.value.sampleRate;
    }

    /** `VorbisDecoder::open`: a file that fails to open is an `IOError`, a header that
        fails to read is its mapped error; otherwise rate and channels come from the
        identification header. */
    static method Open(file: Result<OggReader, IoError>) returns (r: Result<VorbisDecoder, DecoderError>)
      requires file.Ok? ==> file.value.Valid()
      ensures file.Err? ==> r == Err(IOError(file.error))
      ensures file.Ok? && file.value.ident.Err? ==> r == Err(ErrToDecoderErr(file.value.ident.error))
      ensures file.Ok? && file.value.ident.Ok? ==>
        && r.Ok? && fresh(r.value) && r.value.Valid() && r.value.reader == file.value
        && r.value.SampleRate() == file.value.ident.value.sampleRate
        && r.value.Channels() == file.value.ident.value.channels
    {
      if file.Err? {
        return Err(IOError(file.error));
      }
      var reader := file.value;
      if reader.ident.Err? {
        return Err(ErrToDecoderErr(reader.ident.error));
      }
      var d := new VorbisDecoder.Init(reader);
      r := Ok(d);
    }

    function SampleRate(): (rate: nat)
      requires Valid()
      reads this, reader
      ensures rate == reader.ident.value.sampleRate
    {
      sampleRate
    }

    function Channels(): (n: nat)
      requires Valid()
      reads this, reader
      ensures n == reader.ident.value.channels
    {
      channels
    }

    /** `into_samples`: the first packet is read at once; an error there is the result. */
    method IntoSamples() returns (r: Result<OggSampleIterator, DecoderError>)
      requires Valid()
      modifies reader
      ensures var (first, next) := ReadPacket(reader.packets, old(reader.idx));
              && reader.idx == next
              && (first.Err? ==> r == Err(ErrToDecoderErr(first.error)))
              && (first.Ok? ==>
                    && r.Ok? && fresh(r.value) && r.value.Valid() && r.value.reader == reader
                    && r.value.State() == VState(first.value, 0, next))
    {
      var first := reader.ReadDecPacket();
      if first.Err? {
        return Err(ErrToDecoderErr(first.error));
      }
      var it := new OggSampleIterator.Init(reader, first.value);
      r := Ok(it);
    }
  }

  /** The iterator's mutable state: current packet (`None` once the stream has ended),
      cursor into it, packets consumed. */
  datatype VState = VState(packet: Option<seq<int>>, cursor: nat, idx: nat)

  ghost predicate ValidState(st: VState, packets: seq<PacketResult>) {
    st.idx <= |packets| && (st.packet.Some? ==> st.cursor <= |st.packet.value|)
  }

  /** Samples of the current packet not yet taken. */
  function Left(st: VState): nat {
    if st.packet.Some? && st.cursor <= |st.packet.value| then |st.packet.value| - st.cursor + 1 else 0
  }

  /** One call of `next`. Taking the last sample of a packet fetches the next packet
      before the sample is returned; a failed fetch returns the error instead and the
      sample is dropped. Fetching resets the cursor and, on failure, keeps the old packet. */
  function Pull(st: VState, packets: seq<PacketResult>): (r: (Option<Item>, VState))
    requires ValidState(st, packets)
    ensures ValidState(r.1, packets)
    ensures st.packet.None? ==> r == (None, st)
    ensures r.0.None? ==> r.1.packet.None?
    ensures r.0.Some? ==> r.1.idx > st.idx || (r.1.idx == st.idx && Left(r.1) < Left(st))
    ensures r.1.idx >= st.idx
    decreases |packets| - st.idx, Left(st)
  {
    match st.packet
    case None => (None, st)
    case Some(p) =>
      if st.cursor < |p| then
        var sample := p[st.cursor];
        if st.cursor + 1 >= |p| then
          var (res, j) := ReadPacket(packets, st.idx);
          match res
          case Err(e) => (Some(Err(ErrToDecoderErr(e))), VState(st.packet, 0, j))
          case Ok(q) => (Some(Ok(ScaleBy(sample, I16Max))), VState(q, 0, j))
        else
          (Some(Ok(ScaleBy(sample, I16Max))), VState(st.packet, st.cursor + 1, st.idx))
      else
        var (res, j) := ReadPacket(packets, st.idx);
        match res
        case Err(e) => (Some(Err(ErrToDecoderErr(e))), VState(st.packet, 0, j))
        case Ok(q) => Pull(VState(q, 0, j), packets)
  }

  /** Every item `next` yields from a state until it first answers `None`. */
  ghost function Items(st: VState, packets: seq<PacketResult>): seq<Item>
    requires ValidState(st, packets)
    decreases |packets| - st.idx, Left(st)
  {
    var (item, st') := Pull(st, packets);
    if item.None? then [] else [item.value] + Items(st', packets)
  }

  class OggSampleIterator {
    const reader: OggReader
    var curPacket: Option<seq<int>>
    var packetCursor: nat

    ghost predicate Valid()
      reads this, reader
    {
      reader.Valid() && (curPacket.Some? ==> packetCursor <= |curPacket.value|)
    }

    ghost function State(): VState
      reads this, reader
    {
      VState(curPacket, packetCursor, reader.idx)
    }

    ghost function Output(): seq<Item>
      requires Valid()
      reads this, reader
    {
      Items(State(), reader.packets)
    }

    constructor Init(reader: OggReader, first: Option<seq<int>>)
      requires reader.Valid()
      ensures Valid() && this.reader == reader && curPacket == first && packetCursor == 0
    {
      this.reader := reader;
      curPacket := first;
      packetCursor := 0;
    }

    /** `next_packet`: reset the cursor, then read; on error the packet is kept. */
    method NextPacket() returns (r: Result<(), DecoderError>)
      requires Valid()
      modifies this, reader
      ensures Valid() && packetCursor == 0
      ensures var (res, j) := ReadPacket(reader.packets, old(reader.idx));
              && reader.idx == j
              && (res.Err? ==> r == Err(ErrToDecoderErr(res.error)) && curPacket == old(curPacket))
              && (res.Ok? ==> r == Ok(()) && curPacket == res.value)
    {
      packetCursor := 0;
      var res := reader.ReadDecPacket();
      if res.Err? {
        return Err(ErrToDecoderErr(res.error));
      }
      curPacket := res.value;
      r := Ok(());
    }

    /** `next`. */
    method Next() returns (item: Option<Item>)
      requires Valid()
      modifies this, reader
      ensures Valid()
      ensures (item, State()) == Pull(old(State()), reader.packets)
      ensures item.None? ==> old(Output()) == []
      ensures item.Some? ==> old(Output()) == [item.value] + Output()
    {
      while curPacket.Some?
        invariant Valid()
        invariant Pull(old(State()), reader.packets) == Pull(State(), reader.packets)
        decreases |reader.packets| - reader.idx, Left(State())
      {
        var packet := curPacket.value;
        if packetCursor < |packet| {
          packetCursor := packetCursor + 1;
          var sample := packet[packetCursor - 1];
          if packetCursor >= |packet| {
            var res := NextPacket();
            if res.Err? {
              return Some(Err(res.error));
            }
          }
          return Some(Ok(ScaleBy(sample, I16Max)));
        } else {
          var res := NextPacket();
          if res.Err? {
            return Some(Err(res.error));
          }
        }
      }
      item := None;
    }
  }

  // ---------------------------------------------------------------------------
  // Properties of the sample stream
  // ---------------------------------------------------------------------------

  /** No packet error from `idx` on. */
  ghost predicate Clean(packets: seq<PacketResult>, idx: nat) {
    forall k :: idx <= k < |packets| ==> packets[k].Ok?
  }

  /** The samples of the packets from `idx` on, in order, up to the first `None`. */
  function Pcm(packets: seq<PacketResult>, idx: nat): seq<int>
    decreases |packets| - idx
  {
    if idx >= |packets| then []
    else
      match packets[idx]
      case Ok(Some(q)) => q + Pcm(packets, idx + 1)
      case _ => []
  }

  /** What is still to come from a state: the rest of the current packet, then the
      later packets while the stream has not ended. */
  function Pending(st: VState, packets: seq<PacketResult>): seq<int>
    requires ValidState(st, packets)
  {
    match st.packet
    case None => []
    case Some(p) => p[st.cursor..] + Pcm(packets, st.idx)
  }

  lemma PendingAfterFetch(p: seq<int>, packets: seq<PacketResult>, idx: nat)
    requires idx <= |packets| && Clean(packets, idx)
    ensures var (res, j) := ReadPacket(packets, idx);
            res.Ok? && Pcm(packets, idx) == Pending(VState(res.value, 0, j), packets)
  {
    var (res, j) := ReadPacket(packets, idx);
    if res.value.Some? {
      assert res.value.value[0..] == res.value.value;
    }
  }

  /** Without packet errors, the iterator yields exactly the rest of the current
      packet and then every later packet's samples, in order, each divided by
      `i16::MAX`; empty packets contribute nothing and `None` ends the stream. */
  lemma {:induction false} StreamInOrder(st: VState, packets: seq<PacketResult>)
    requires ValidState(st, packets) && Clean(packets, st.idx)
    ensures Items(st, packets) == Scale16(Pending(st, packets))
    decreases |packets| - st.idx, Left(st)
  {
    if st.packet.Some? {
      var p := st.packet.value;
      if st.cursor < |p| {
        InOrderTakeSample(st, packets);
      } else {
        PendingAfterFetch(p, packets, st.idx);
        var (res, j) := ReadPacket(packets, st.idx);
        var st' := VState(res.value, 0, j);
        calc {
          Items(st, packets);
          == { PullRefetches(st, packets); }
          Items(st', packets);
          == { StreamInOrder(st', packets); }
          Scale16(Pending(st', packets));
          == { assert p[st.cursor..] == p[st.cursor..st.cursor]; EmptySlice(p, st.cursor, Pcm(packets, st.idx)); }
          Scale16(Pending(st, packets));
        }
      }
    }
  }

  lemma {:induction false} InOrderTakeSample(st: VState, packets: seq<PacketResult>)
    requires ValidState(st, packets) && Clean(packets, st.idx)
    requires st.packet.Some? && st.cursor < |st.packet.value|
    ensures Items(st, packets) == Scale16(Pending(st, packets))
    decreases |packets| - st.idx, Left(st), 0
  {
    var p, c := st.packet.value, st.cursor;
    var x, tail := p[c], Pcm(packets, st.idx);
    assert p[c..] == p[c..|p|];
    if c + 1 >= |p| {
      PendingAfterFetch(p, packets, st.idx);
      var (res, j) := ReadPacket(packets, st.idx);
      var st' := VState(res.value, 0, j);
      calc {
        Items(st, packets);
        == { PullTakesLast(st, packets); }
        [Ok(ScaleBy(x, I16Max))] + Items(st', packets);
        == { StreamInOrder(st', packets); }
        [Ok(ScaleBy(x, I16Max))] + Scale16(Pending(st', packets));
        == { Scale16Cons(x, Pending(st', packets)); }
        Scale16([x] + Pending(st', packets));
        == { SliceCons(p, c, |p|, tail); EmptySlice(p, c + 1, tail); }
        Scale16(Pending(st, packets));
      }
    } else {
      var st' := VState(st.packet, c + 1, st.idx);
      calc {
        Items(st, packets);
        == { PullTakes(st, packets); }
        [Ok(ScaleBy(x, I16Max))] + Items(st', packets);
        == { StreamInOrder(st', packets); }
        [Ok(ScaleBy(x, I16Max))] + Scale16(Pending(st', packets));
        == { Scale16Cons(x, Pending(st', packets)); }
        Scale16([x] + Pending(st', packets));
        == { SliceCons(p, c, |p|, tail); assert p[c + 1..] == p[c + 1..|p|]; }
        Scale16(Pending(st, packets));
      }
    }
  }

  /** Inside a packet, short of its last sample, one sample is taken and the cursor moves on. */
  lemma PullTakes(st: VState, packets: seq<PacketResult>)
    requires ValidState(st, packets) && st.packet.Some? && st.cursor + 1 < |st.packet.value|
    ensures Items(st, packets) ==
            [Ok(ScaleBy(st.packet.value[st.cursor], I16Max))] + Items(VState(st.packet, st.cursor + 1, st.idx), packets)
  {
  }

  /** Taking a packet's last sample fetches the next packet, which replaces it. */
  lemma PullTakesLast(st: VState, packets: seq<PacketResult>)
    requires ValidState(st, packets) && Clean(packets, st.idx)
    requires st.packet.Some? && st.cursor + 1 == |st.packet.value|
    ensures var (res, j) := ReadPacket(packets, st.idx);
            && res.Ok?
            && Items(st, packets) == [Ok(ScaleBy(st.packet.value[st.cursor], I16Max))] + Items(VState(res.value, 0, j), packets)
  {
  }

  /** Past a packet's end, the next packet is fetched and taken from at once. */
  lemma PullRefetches(st: VState, packets: seq<PacketResult>)
    requires ValidState(st, packets) && Clean(packets, st.idx)
    requires st.packet.Some? && st.cursor == |st.packet.value|
    ensures var (res, j) := ReadPacket(packets, st.idx);
            && res.Ok?
            && Items(st, packets) == Items(VState(res.value, 0, j), packets)
  {
    var (res, j) := ReadPacket(packets, st.idx);
    assert Pull(st, packets) == Pull(VState(res.value, 0, j), packets);
  }

  /** The packets handed out after `into_samples` read the first one, in order. */
  lemma OpenedStreamInOrder(first: Option<seq<int>>, idx: nat, packets: seq<PacketResult>)
    requires idx <= |packets| && Clean(packets, idx)
    ensures Items(VState(first, 0, idx), packets) ==
            Scale16(if first.Some? then first.value + Pcm(packets, idx) else [])
  {
    StreamInOrder(VState(first, 0, idx), packets);
    if first.Some? {
      assert first.value[0..] == first.value;
    }
  }

  /** Taking a packet's last sample when the next fetch fails: the error comes out
      instead of the sample, and the next calls start the same packet over again. */
  lemma LastSampleLostThenReplayed(p: seq<int>, idx: nat, packets: seq<PacketResult>)
    requires |p| >= 1 && idx < |packets| && packets[idx].Err?
    ensures var st := VState(Some(p), |p| - 1, idx);
            && Pull(st, packets) == (Some(Err(ErrToDecoderErr(packets[idx].error))), VState(Some(p), 0, idx + 1))
            && Items(st, packets) ==
               [Err(ErrToDecoderErr(packets[idx].error))] + Scale16(p[..|p| - 1]) + Items(VState(Some(p), |p| - 1, idx + 1), packets)
  {
    PullFetchFails(p, idx, packets);
    ReplayPrefix(p, 0, idx + 1, packets);
    assert p[0..|p| - 1] == p[..|p| - 1];
    ConcatAssoc([Err(ErrToDecoderErr(packets[idx].error))], Scale16(p[..|p| - 1]),
                Items(VState(Some(p), |p| - 1, idx + 1), packets));
  }

  /** A failed fetch after a packet's last sample: the error, and the packet rewound. */
  lemma PullFetchFails(p: seq<int>, idx: nat, packets: seq<PacketResult>)
    requires |p| >= 1 && idx < |packets| && packets[idx].Err?
    ensures var st, err := VState(Some(p), |p| - 1, idx), Err(ErrToDecoderErr(packets[idx].error));
            && Pull(st, packets) == (Some(err), VState(Some(p), 0, idx + 1))
            && Items(st, packets) == [err] + Items(VState(Some(p), 0, idx + 1), packets)
  {
    assert ReadPacket(packets, idx) == (packets[idx], idx + 1);
  }

  /** Inside a packet, the samples before its last come out in index order. */
  lemma {:induction false} ReplayPrefix(p: seq<int>, c: nat, idx: nat, packets: seq<PacketResult>)
    requires c < |p| && idx <= |packets|
    ensures Items(VState(Some(p), c, idx), packets) == Scale16(p[c..|p| - 1]) + Items(VState(Some(p), |p| - 1, idx), packets)
    decreases |p| - c
  {
    if c < |p| - 1 {
      var rest, tail := p[c + 1..|p| - 1], Items(VState(Some(p), |p| - 1, idx), packets);
      calc {
        Items(VState(Some(p), c, idx), packets);
        == { PullTakes(VState(Some(p), c, idx), packets); }
        [Ok(ScaleBy(p[c], I16Max))] + Items(VState(Some(p), c + 1, idx), packets);
        == { ReplayPrefix(p, c + 1, idx, packets); }
        [Ok(ScaleBy(p[c], I16Max))] + (Scale16(rest) + tail);
        == { Scale16Cons(p[c], rest); }
        Scale16([p[c]] + rest) + tail;
        == { assert p[c..|p| - 1] == [p[c]] + rest; }
        Scale16(p[c..|p| - 1]) + tail;
      }
    } else {
      assert p[c..|p| - 1] == [];
    }
  }
}
