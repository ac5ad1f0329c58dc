# creak decoding core in Dafny

creak is a Rust audio-decoding library. It opens a file or a reader and picks a backend: raw PCM, WAV, Ogg Vorbis, MP3 or FLAC. Each backend's samples are exposed as one iterator of `Result<Sample, DecoderError>`, with channels interleaved.

This project models the part of creak that is creak's own logic, and proves properties of it:

- **Raw PCM decoding** (`Raw`, `ByteCodec`). Opening a raw decoder seeks to the start offset. Each pull runs the read closure of the spec's sample format:
  - It reads into a fixed buffer.
  - It classifies the byte count: 0 means end, a full read means a sample, anything else means `IncompleteData`, and a read failure means `IOError`.
  - It assembles a big- or little-endian integer (two's complement when signed).
  - It normalises the integer over exact reals.

  The byte source is a class. Each read returns exactly the smallest of the bytes asked for, the bytes left and `chunk`, so a read before the end of the data is short only when `chunk` limits it. The closure fills an `array` window in place.
- **Format dispatch** (`Dispatch`, `Common`). This covers:
  - the extension table (`get_decoder!`), with the enabled cargo features as a set;
  - `open` and `open_raw`;
  - `info`/`into_samples` delegation;
  - the display names of `AudioFormat`;
  - content sniffing. A loop over the candidates Flac, Mp3, Vorbis, Wav calls `try_decode` on a reader whose position it moves. The backends' probes are an oracle.

  The older `src/decoder.rs` has the same extension table, delegation and `open_raw`. It shares this model.
- **Backend adapters** (`Mp3Backend`, `VorbisBackend`, `FlacBackend`, `WavBackend`). Each decoding library is a scripted sequence of unit results: MP3 frames, Vorbis packets, FLAC blocks, or WAV samples. For MP3, Vorbis and FLAC:
  - The iterator is a class with the source's cursor and buffer fields.
  - Its `Next` method is proved equal to a pure step function (`Step`/`Pull`).
  - Lemmas about all the items before the first `None` state ordering, the error cases and replay.

  WAV is pure: a (bits, format) dispatch table, an element-wise map, and the error map.

Samples are `Scaled(r)` with `r` an exact real when the source divides an integer by a maximum. The IEEE paths keep the bit pattern: `F32Bits` for raw `f32` and WAV float, and `F64Narrowed` for raw `f64`. Integers are unbounded. The one place where the source's width matters is MP3's `sample_rate as u32`, which is written out as `AsU32`.

In four places the code does something other than what it evidently intends. The model follows the code as written:
- The 24-bit raw arms read into a two-byte window, so they never yield a sample.
- The 24-bit raw constants are twice the 24-bit maxima plus one.
- `max_frames` is never read, although src/decoder/mod.rs:45 documents it as the maximum number of frames to read.
- WAV 24-bit samples are divided by `i32::MAX`, while every other integer width is divided by its own maximum.

Each of these is a finding below, with the intended behaviour modelled beside it.

A sniffing probe that fails is not rewound: the `?` in `try_decode` returns before the seek (src/decoder/mod.rs:251-262). The model keeps this, and `Dispatch.FailedProbeNotRewound` states it.

## Model

| member | source | states |
|---|---|---|
| Common.FormatName | src/decoder/mod.rs:130-139 | display names are `WAV`, `Vorbis`, `MP3`, `FLAC`, `Raw` |
| Common.FormatNameRoundTrip | src/decoder.rs:121-130 | reading a display name back gives the format: the names identify their formats |
| Common.FormatNameInjective | src/decoder/mod.rs:130-139 | two formats with the same display name are the same format |
| Common.NatToString | src/decoder/wav.rs:69 | the decimal rendering of a number is non-empty and all digits |
| Common.NatToStringRoundTrip | src/decoder/wav.rs:69 | parsing the decimal rendering of n gives n back |
| Common.NatToStringInjective | src/decoder/wav.rs:69 | different numbers have different decimal renderings |
| Common.ScaleBy | src/decoder/mp3.rs:96 | `v / max` over reals: max maps to 1, and [-max, max] into [-1, 1] |
| Common.ScaleAll | src/decoder/flac.rs:72 | element-wise scaling keeps length and order, and each item is `Ok(v / max)` |
| Common.ScaleAllAppend | src/decoder/flac.rs:72 | scaling two pieces one after the other is scaling the whole, in order |
| Common.Scale16 | src/decoder/vorbis.rs:90 | every sample is divided by `i16::MAX`, in order |
| ByteCodec.FromBeBytes | src/decoder/raw.rs:58 | `from_be_bytes` of n bytes is below 256^n (its partner `ToBeBytes` round-trips below) |
| ByteCodec.FromLeBytes | src/decoder/raw.rs:59 | `from_le_bytes` of n bytes is below 256^n |
| ByteCodec.BeRoundTrip | src/decoder/raw.rs:57-58 | decoding the n-byte big-endian encoding of v gives v |
| ByteCodec.BeRoundTripBytes | src/decoder/raw.rs:57-58 | encoding the decoded value of n bytes gives the bytes back |
| ByteCodec.LeRoundTrip | src/decoder/raw.rs:57-59 | decoding the n-byte little-endian encoding of v gives v |
| ByteCodec.LeRoundTripBytes | src/decoder/raw.rs:57-59 | encoding the decoded little-endian value gives the bytes back |
| ByteCodec.LeIsReversedBe | src/decoder/raw.rs:58-59 | little-endian decoding is big-endian decoding of the reversed bytes |
| ByteCodec.ToSigned | src/decoder/raw.rs:77 | two's-complement reading of an N-bit value lies in [-2^(N-1), 2^(N-1)) |
| ByteCodec.SignedRoundTrip | src/decoder/raw.rs:76-78 | reading the two's-complement pattern of an in-range signed v gives v |
| ByteCodec.UnsignedRoundTrip | src/decoder/raw.rs:76-78 | the pattern of a signed reading is the pattern it was read from |
| ByteCodec.SignedBeRoundTrip | src/decoder/raw.rs:77 | `iN::from_be_bytes` of the encoding of v is v |
| ByteCodec.SignedLeRoundTrip | src/decoder/raw.rs:78 | `iN::from_le_bytes` of the encoding of v is v |
| Raw.SampleSize | src/decoder/raw.rs:52-142 | the byte count a full read must return, 1 to 8 |
| Raw.WindowEnd | src/decoder/raw.rs:116-119 | the read window lies inside the buffer; for 24-bit it is `buf[1..3]`, two bytes |
| Raw.MaxValue | src/decoder/raw.rs:53-141 | each integer arm's `MAX` constant, as written, is positive |
| Raw.NormUnsigned | src/decoder/raw.rs:58-59 | `v/MAX*2-1`: 0 maps to -1, MAX to 1, and [0, MAX] into [-1, 1] |
| Raw.NormSigned | src/decoder/raw.rs:77-78 | `v/MAX`: MAX maps to 1, [-MAX, MAX] into [-1, 1], and MIN below -1 |
| Raw.Word24 | src/decoder/raw.rs:124-153 | the four bytes a 24-bit arm assembles: `buf[0..4]` for Big, `buf[1..5]` for Little |
| Raw.DecodeBuffer | src/decoder/raw.rs:57-156 | a value arm gives a `Scaled` sample exactly when the format is an integer format |
| Raw.ReadCount | src/decoder/raw.rs:55 | a read returns no more than was asked for, is left, or fits one chunk, and 0 only when nothing was asked for or nothing is left |
| Raw.ByteSource.Seek | src/decoder/raw.rs:12-13 | a failing seek returns its error and leaves the position; otherwise the position is the offset |
| Raw.ByteSource.Read | src/decoder/raw.rs:55 | a failing read changes nothing; otherwise it fills a prefix of the window with the next bytes and advances by that count |
| Raw.Filled | src/decoder/raw.rs:54-55 | the buffer after a read is the zeroed buffer with the read bytes in the window |
| Raw.ZeroedWindow | src/decoder/raw.rs:54-55 | a zeroed buffer with the read bytes copied into its window is exactly `Filled` |
| Raw.RawStep | src/decoder/raw.rs:55-158 | one pull: a read error is `IOError` and nothing moves; `None` exactly when no bytes are left; otherwise progress; a sample advances by exactly one sample size |
| Raw.ReadSample | src/decoder/raw.rs:51-160 | the read closure on an `array` buffer returns what `RawStep` says and leaves the source where `RawStep` says |
| Raw.DecodeGroup | src/decoder/raw.rs:56-61 | a byte group is a sample exactly when it is one sample wide; any other group is `IncompleteData` |
| Raw.DecodeGroups | src/decoder/raw.rs:187-189 | each group decoded on its own: as many items as groups, in the same order |
| Raw.GroupsShape | src/decoder/raw.rs:55-61 | n bytes split into n/size whole groups, then one group of n % size bytes iff n % size != 0 |
| Raw.IntendedStreamStep | src/decoder/raw.rs:55-58 | at a whole group, the intended stream is that group's sample followed by the stream one sample further on |
| Raw.RawStreamWhole | src/decoder/raw.rs:55-58 | when a read returns a whole sample, the stream is that sample decoded, then the stream one sample further on |
| Raw.RawStreamPartial | src/decoder/raw.rs:55-61 | when fewer bytes than a sample are left, the stream is one `IncompleteData`, then the end |
| Raw.RawStreamIsIntended | src/decoder/raw.rs:187-189 | for every non-24-bit format, with reads of at least one sample, the stream is the byte groups decoded in order, then `IncompleteData` if a partial group is left, then the end |
| Raw.IntendedStreamShape | src/decoder/raw.rs:55-62 | n bytes give n/size samples, then one `IncompleteData` iff n % size != 0; the first sample is the first group decoded |
| Raw.Raw24NeverYieldsSamples | src/decoder/raw.rs:116-147 | as written, every item of a 24-bit stream is `IncompleteData`, and the stream is empty only when no bytes are left |
| Raw.Raw24StreamLength | src/decoder/raw.rs:119-136 | as written, with reads of two bytes, a 24-bit stream over n bytes has ceil(n/2) items |
| Raw.MaxValueIsTypeMax | src/decoder/raw.rs:53-72 | the non-24-bit maxima are the type maxima 2^N-1 (unsigned) and 2^(N-1)-1 (signed) |
| Raw.EncodeInt | src/decoder/raw.rs:57-78 | the encoding of an in-range integer is one sample wide |
| Raw.DecodeEncode | src/decoder/raw.rs:57-78 | decoding the encoding of any in-range integer in either byte order gives that integer normalised |
| Raw.DecodeMaxIsOne | src/decoder/raw.rs:53-78 | the encoding of MAX decodes to exactly 1.0 in every 8- to 64-bit integer format, signed or unsigned |
| Raw.DecodeUnsignedZero | src/decoder/raw.rs:53-59 | the encoding of unsigned 0 decodes to exactly -1.0 |
| Raw.DecodeSignedMin | src/decoder/raw.rs:72-78 | the encoding of signed MIN decodes to MIN/MAX, which is strictly below -1.0 |
| Raw.Max24AsWritten | src/decoder/raw.rs:115-141 | the 24-bit constants are 2^25-1 and 2^24-1, each twice the 24-bit maximum plus one |
| Raw.Encode24 | src/decoder/raw.rs:116 | the intended encoding of a 24-bit value is three bytes |
| Raw.Sample24RoundTrip | src/decoder/raw.rs:114-160 | the intended 24-bit decoder maps the encoding of every 24-bit value v to v over the 24-bit maximum (unsigned: 2v/MAX-1) |
| Raw.Unsigned24AsWrittenMisscales | src/decoder/raw.rs:115-127 | as written, the largest unsigned 24-bit sample would decode below 0 |
| Raw.Sample24FullScale | src/decoder/raw.rs:114-135 | the intended decoder maps the largest unsigned 24-bit sample to exactly 1 |
| Raw.RawInfo | src/decoder/raw.rs:16-20 | info has format `Raw` and the spec's channels and sample rate |
| Raw.RawDecoder.New | src/decoder/raw.rs:10-23 | a seek failure is `IOError` and leaves the reader; otherwise a decoder holding the reader and the spec, with the reader at the start offset |
| Raw.RawDecoder.Info | src/decoder/raw.rs:28-30 | info is the stored `RawInfo(spec)` |
| Raw.RawDecoder.IntoSamples | src/decoder/raw.rs:33-170 | the iterator runs the spec's format and byte order on the same reader, and its output is `RawStream` from the current position |
| Raw.RawSampleIterator.Next | src/decoder/raw.rs:187-189 | `next` is one pull of the read closure, and it removes exactly its item from the front of the remaining output |
| Raw.MaxFramesIgnored | src/decoder/raw.rs:87-189 | as written, a spec capped at zero frames still yields a full sample |
| Raw.CapFrames | src/decoder/raw.rs:3-7 | the intended cap keeps a prefix of at most `max_frames * channels` items, and all items when there is no cap |
| Raw.CappedStreamExact | src/decoder/raw.rs:87-189 | with the cap applied, a source holding k*c whole samples yields exactly k*c samples, all of them values |
| Dispatch.FormatOfExtension | src/decoder/mod.rs:237-242 | an extension names a backend only if it is that backend's extension, matched exactly |
| Dispatch.Wrap | src/decoder/mod.rs:206-216 | wrapping a backend handle gives the variant of that format, holding the handle |
| Dispatch.GetDecoder | src/decoder/mod.rs:218-229 | `Ok` iff the extension is listed and its feature is enabled; `UnsupportedExtension(ext)` iff it is not listed; `DisabledExtension` iff listed but disabled, carrying the extension and its feature |
| Dispatch.ExtensionSelectsBackend | src/decoder/mod.rs:236-242 | `wav/ogg/mp3/flac` select Wav/Vorbis/Mp3/Flac when enabled, and otherwise give `DisabledExtension` with feature `vorbis` for `ogg` and the extension itself for the others |
| Dispatch.Open | src/decoder.rs:203-228 | no extension gives `NoExtension`; a dispatch error is returned; for an enabled backend, an error of its own open is passed on unchanged and a handle is wrapped in the variant of the selected format |
| Dispatch.OpenIsCaseSensitive | src/decoder/mod.rs:227-244 | `WAV` and `xyz` give `UnsupportedExtension`; no extension gives `NoExtension`; disabled `flac` and `ogg` give `DisabledExtension` |
| Dispatch.OpenRaw | src/decoder.rs:154-158 | a file that fails to open is `IOError`; a failing seek is `IOError`; otherwise a `Raw` decoder at the start offset |
| Dispatch.Info | src/decoder/mod.rs:306-319 | info of the active variant, unchanged |
| Dispatch.IntoSamples | src/decoder.rs:230-243 | `into_samples` of the active variant, unchanged |
| Dispatch.OpenedDecoderDelegates | src/decoder.rs:231-258 | a decoder opened by extension reports the selected backend's info and sample stream |
| Dispatch.TryDecodeSpec | src/decoder/mod.rs:247-264 | a probe runs iff its format is compiled in; `Ok(true)` only from a compiled-in probe that said yes, and then the reader is back at 0 |
| Dispatch.TryDecode | src/decoder/mod.rs:247-264 | moves the reader and returns exactly what `TryDecodeSpec` says: a probe error returns before the rewind, and a failed rewind is `IOError` |
| Dispatch.FirstMatch | src/decoder/mod.rs:268-283 | the lazy search returns `Sniff`'s extension and position, and records `Sniff`'s probes |
| Dispatch.FromReader | src/decoder/mod.rs:267-289 | sniffs Flac, Mp3, Vorbis, Wav in that order, then opens the match through the `get_decoder!` arms |
| Dispatch.Enabled | src/decoder/mod.rs:249-258 | the candidates whose format is compiled in, in trial order |
| Dispatch.SniffProbesEnabledPrefix | src/decoder/mod.rs:274-282 | the probes run are a prefix of the compiled-in candidates in order, and all of them when nothing matches |
| Dispatch.SniffCommitsToFirstYes | src/decoder/mod.rs:275-283 | a sniffed extension is the extension of the last format probed, which is a backend, and the reader is back at 0 |
| Dispatch.SniffWinner | src/decoder/mod.rs:275-283 | a settled sniff took its extension from a candidate whose format is the last one probed, and the reader was rewound to 0 |
| Dispatch.SniffFirstYes | src/decoder/mod.rs:268-283 | sniffing commits to the first candidate whose `try_decode` answers `Ok(true)`, each candidate tried at the position the previous one left: every earlier candidate answered false or an error, the winner gives the extension with the reader at 0, and with no winner the extension is empty and the reader stays where the last probe left it |
| Dispatch.UnseekableNeverMatches | src/decoder/mod.rs:260-288 | a reader that cannot seek never matches, and opens as `UnsupportedExtension("")` |
| Dispatch.ProbeErrorsAreSwallowed | src/decoder/mod.rs:267-288 | if every probe errs, nothing matches, and the result is `UnsupportedExtension("")` |
| Dispatch.FailedProbeNotRewound | src/decoder/mod.rs:251-262 | after a failing Flac probe, the next probe starts where that probe left the reader |
| Dispatch.SniffIdentifiesWav | src/decoder/mod.rs:268-288 | a stream only the WAV probe accepts is sniffed as `wav` and opened by the WAV backend |
| Mp3Backend.AsU32 | src/decoder/mp3.rs:80 | `as u32`: the value mod 2^32, unchanged when already in range |
| Mp3Backend.ErrToDecoderErr | src/decoder/mp3.rs:103-108 | `Io` maps to `IOError`, `InsufficientData` to the format error `mp3: insufficient data` |
| Mp3Backend.FrameReader.NextFrame | src/decoder/mp3.rs:75 | the next scripted frame result; `Eof` after the end |
| Mp3Backend.FirstFrame | src/decoder/mp3.rs:18-25 | the first frame is the first `Ok` result, even an empty one, after only `SkippedData`; any error other than "no audio" is an `Io`/`InsufficientData` result |
| Mp3Backend.Mp3Decoder.Open | src/decoder/mp3.rs:15-33 | an open failure is `IOError`; otherwise the result of `FirstFrame`, and the reader is left just after the first frame |
| Mp3Backend.Mp3Decoder.Info | src/decoder/mp3.rs:38-44 | format `Mp3`, with the first frame's rate (as u32) and channel count |
| Mp3Backend.Mp3Decoder.IntoSamples | src/decoder/mp3.rs:47-55 | the iterator starts at the first frame, cursor 0, and expects the first frame's rate and channels |
| Mp3Backend.Fetch | src/decoder/mp3.rs:74-93 | a refill passes over empty frames and `SkippedData`; a loaded frame is non-empty with the expected rate and channels; a failure is the rate error, the channel error or a passed-on library error |
| Mp3Backend.Step | src/decoder/mp3.rs:70-99 | `None` iff the frame is spent and the refill ends; otherwise progress, and within a frame the cursor moves by exactly one |
| Mp3Backend.FetchClean | src/decoder/mp3.rs:74-93 | on a clean stream a refill never fails; a loaded frame's samples head the remaining PCM, and the rest stays clean |
| Mp3Backend.Mp3SampleIterator.Next | src/decoder/mp3.rs:70-99 | `next` is `Step` on the fields, and removes exactly its item from the front of the remaining output |
| Mp3Backend.StreamInOrder | src/decoder/mp3.rs:72-98 | on a clean stream, the output is the rest of the current frame, then each later non-empty frame's samples, in order, over `i16::MAX` |
| Mp3Backend.OpenedStreamInOrder | src/decoder/mp3.rs:47-98 | an opened clean stream yields the first frame's samples, then every later frame's, in order |
| Mp3Backend.DrainFrame | src/decoder/mp3.rs:96-97 | the rest of the current frame comes out first, one sample per call |
| Mp3Backend.ErrorReplaysFrame | src/decoder/mp3.rs:73-93 | after a failed refill, the error is followed by the previous frame's samples all over again |
| Mp3Backend.RateChangeIsError | src/decoder/mp3.rs:80-82 | a non-empty frame of another rate gives the variable-rate format error, and the stream goes on |
| Mp3Backend.ChannelChangeIsError | src/decoder/mp3.rs:84-86 | a non-empty frame of another channel count gives the variable-channel format error |
| VorbisBackend.ErrToDecoderErr | src/decoder/vorbis.rs:105-110 | every Vorbis error becomes a `FormatError`, never an `IOError` |
| VorbisBackend.ErrMessageKeepsCause | src/decoder/vorbis.rs:105-110 | the message starts with `ogg: `, then `bad audio: ` or `bad header: ` for those kinds, and ends with the library's message |
| VorbisBackend.ReadPacket | src/decoder/vorbis.rs:61 | the next scripted packet result; `Ok(None)` after the end; an error consumes its packet |
| VorbisBackend.OggReader.ReadDecPacket | src/decoder/vorbis.rs:61 | returns and advances exactly as `ReadPacket` |
| VorbisBackend.VorbisDecoder.Open | src/decoder/vorbis.rs:15-29 | an open failure is `IOError`; a header error is mapped; otherwise channels and rate come from the identification header |
| VorbisBackend.VorbisDecoder.SampleRate | src/decoder/vorbis.rs:32-34 | the identification header's rate |
| VorbisBackend.VorbisDecoder.Channels | src/decoder/vorbis.rs:37-39 | the identification header's channel count |
| VorbisBackend.VorbisDecoder.IntoSamples | src/decoder/vorbis.rs:42-48 | reads the first packet eagerly; a decode error there fails `into_samples`; otherwise the iterator starts on that packet at cursor 0 |
| VorbisBackend.Pull | src/decoder/vorbis.rs:73-102 | with no packet the answer is `None` and nothing changes; `None` leaves no packet; every item makes progress |
| VorbisBackend.OggSampleIterator.NextPacket | src/decoder/vorbis.rs:59-66 | the cursor is reset first; on error the old packet stays and the error is mapped |
| VorbisBackend.OggSampleIterator.Next | src/decoder/vorbis.rs:73-102 | `next` is `Pull` on the fields, and removes exactly its item from the front of the remaining output |
| VorbisBackend.StreamInOrder | src/decoder/vorbis.rs:74-101 | on a clean stream, the output is the rest of the current packet, then every later packet's samples in order, over `i16::MAX` |
| VorbisBackend.OpenedStreamInOrder | src/decoder/vorbis.rs:42-101 | an opened clean stream yields the first packet, then every later packet, in order; an empty packet adds nothing |
| VorbisBackend.LastSampleLostThenReplayed | src/decoder/vorbis.rs:59-87 | if the fetch after a packet's last sample fails, that sample is lost behind the error, and the packet is then replayed from its start except for its last sample |
| VorbisBackend.ReplayPrefix | src/decoder/vorbis.rs:76-91 | from cursor c, the packet's samples up to its last come out in order |
| FlacBackend.ErrToDecoderErr | src/decoder/flac.rs:90-96 | an error becomes an `IOError` exactly when it is an I/O error, carrying the same I/O error |
| FlacBackend.ErrMessageKeepsCause | src/decoder/flac.rs:90-96 | other errors get a message starting `flac: format error: ` or `flac: unsupported: ` by kind and ending with the library's message |
| FlacBackend.MaxSampleValueIsWidthMax | src/decoder/flac.rs:57 | `i32::MAX >> (32 - bps)` is 2^(bps-1)-1 for 1 <= bps <= 32 |
| FlacBackend.ReadBlock | src/decoder/flac.rs:79 | the next scripted block result; `Ok(None)` after the end |
| FlacBackend.FlacReader.ReadNextOrEof | src/decoder/flac.rs:79 | returns and advances exactly as `ReadBlock` |
| FlacBackend.FlacDecoder.Open | src/decoder/flac.rs:15-23 | an open error is mapped; otherwise rate and channels come from STREAMINFO |
| FlacBackend.FlacDecoder.SampleRate | src/decoder/flac.rs:33-35 | STREAMINFO's sample rate |
| FlacBackend.FlacDecoder.Channels | src/decoder/flac.rs:28-30 | STREAMINFO's channel count |
| FlacBackend.FlacDecoder.IntoSamples | src/decoder/flac.rs:38-62 | a fresh iterator with an empty block, cursor 0 and the width's maximum as divisor |
| FlacBackend.Pull | src/decoder/flac.rs:69-87 | every item is a value and makes progress; `None` leaves an empty buffer and cursor 0, and the state stays sound only if the old length was 0 |
| FlacBackend.FlacSampleIterator.Next | src/decoder/flac.rs:69-87 | `next` is `Pull` on the fields, and removes exactly its item from the front of the remaining output |
| FlacBackend.StreamInOrder | src/decoder/flac.rs:70-86 | the output is the rest of the current block, then each later block's samples, in order, over the maximum, up to the first EOF or error |
| FlacBackend.NeverYieldsError | src/decoder/flac.rs:79-85 | the iterator never yields an `Err` item |
| FlacBackend.OpenedStreamInOrder | src/decoder/flac.rs:52-86 | a fresh iterator yields every block's samples in order over 2^(bps-1)-1 |
| FlacBackend.CallAfterEndOutOfBounds | src/decoder/flac.rs:71-84 | after `None`, the buffer is empty but the length is kept, so a further call would index out of bounds |
| WavBackend.ErrToDecoderErr | src/decoder/wav.rs:74-83 | an error becomes an `IOError` exactly when it is an I/O error, carrying the same I/O error |
| WavBackend.ErrMessageKeepsCause | src/decoder/wav.rs:74-83 | every other message starts with `wav: `; a format error ends with hound's message; the unsupported, invalid-format and too-wide messages are pairwise different |
| WavBackend.Dispatch | src/decoder/wav.rs:34-69 | `Ok` iff (8/16/24/32, Int) or (32, Float); Int divides by a positive maximum, which is 2^(bits-1)-1 for 8, 16 and 32; Float passes through; anything else is `wav: format '<bits>-bit <fmt>' is not supported` |
| WavBackend.MapItem | src/decoder/wav.rs:36-41 | one item: `Ok` exactly when the input is `Ok`, holding the converted sample; an error is mapped by `ErrToDecoderErr` |
| WavBackend.MapItems | src/decoder/wav.rs:36-66 | element-wise: same length, `Ok` where the input is `Ok` with the converted value, and `Err` where it errs with the mapped error |
| WavBackend.MapItemsAppend | src/decoder/wav.rs:36-41 | mapping two pieces of a stream is mapping the whole stream: order is kept |
| WavBackend.Open | src/decoder/wav.rs:14-20 | an open error is mapped; otherwise the reader with its spec |
| WavBackend.SampleRate | src/decoder/wav.rs:23-25 | the spec's sample rate |
| WavBackend.Channels | src/decoder/wav.rs:28-30 | the spec's channel count |
| WavBackend.IntoSamples | src/decoder/wav.rs:32-71 | `Ok` iff the layout is supported, and then the element-wise conversion of the reader's items; otherwise the unsupported-format error |
| WavBackend.UnsupportedMsgNamesWidth | src/decoder/wav.rs:69 | the unsupported-format message carries the bit width, readable back exactly |
| WavBackend.Wav24FullScaleAsWritten | src/decoder/wav.rs:53-58 | as written, 24-bit samples are divided by `i32::MAX`, so the largest one comes out below 1/256 |
| WavBackend.IntendedDispatch | src/decoder/wav.rs:34-69 | the intended table: the same, except that 24-bit divides by 2^23-1; every Int width divides by its own maximum |
| WavBackend.IntendedFullScale | src/decoder/wav.rs:53-58 | with the intended divisors, every Int width maps its largest sample to 1 and its range into [-1-1/max, 1] |

## Left out

- The decoding libraries (hound, lewton, minimp3, claxon). Each is a scripted sequence of unit results: frames, packets, blocks or samples. Their parsing, and the layout of their buffers, are not modelled.
- File opening, `BufReader` and `Path::extension`. The extension is an `Option<string>`, where `None` also stands for a non-UTF-8 extension. The enabled cargo features are a set of names, in place of `#[cfg]`.
- IEEE floating point. Integer normalisation is stated over exact reals, without `f32` rounding. `f32::from_*_bytes`, WAV float samples and the `f64 → f32` narrowing keep their bit patterns (`F32Bits`, `F64Narrowed`).
- `try_decode`/`from_reader` of the backends, and `info()` on the Wav, Vorbis and Flac decoders, are not defined in the adapter sources. They are oracles: `Probe`, and the `open`/`fromReader` functions passed to `Dispatch`.
- `Display`/`Error` for `DecoderError`: text formatting only.
- `Raw.RawSampleIterator.Next`: `Output` is stated only for a source whose reads do not fail. A failing read is covered by `RawStep`, which yields `IOError` forever.
- `Mp3Backend.ErrToDecoderErr`: requires `Io` or `InsufficientData`. The source hits `unimplemented!()` for other errors, and the iterator never passes it one.
- `WavBackend.ErrToDecoderErr`: requires an error other than `UnfinishedSample`. The source hits `unreachable!()` for it, and only hound's writer produces it.
- `FlacBackend.FlacDecoder.IntoSamples`: requires 2 to 32 bits per sample. At 1 bit the divisor `i32::MAX >> 31` is 0, and the f32 division gives infinities, which is not modelled. FLAC streams have at least 4 bits per sample.
- Channel interleaving within a FLAC block. The block's buffer is taken in the order the library fills it.
- The `Sample` values of `Scaled` items are stated through `ScaleBy`, not as rounded `f32`.

## Findings

| source | as written | input that shows it | evidently intended | confidence | as-written member | corrected member |
|---|---|---|---|---|---|---|
| src/decoder/raw.rs:119-145 | the 24-bit arms read into `buf[1..SIZE]`, a two-byte window, then expect `Ok(3)` | any `Unsigned24`/`Signed24` stream with at least one byte: every item is `IncompleteData` | read three bytes and decode one sample per three bytes | high, not executed | Raw.Raw24NeverYieldsSamples | Raw.IntendedStreamShape |
| src/decoder/raw.rs:115-141 | `MAX_U24 = 2^25-1`, `MAX_I24 = 2^24-1` | the unsigned sample `FF FF FF` (big-endian) in the value arm decodes below 0 | divide by 2^24-1 and 2^23-1, so full scale is 1 | high, not executed | Raw.Unsigned24AsWrittenMisscales | Raw.Sample24RoundTrip |
| src/decoder/raw.rs:87-189 | `max_frames` is never read | `Unsigned8`, `max_frames = Some(0)`, one byte of data: one sample is yielded | stop after `max_frames * channels` samples | medium, not executed | Raw.MaxFramesIgnored | Raw.CappedStreamExact |
| src/decoder/wav.rs:53-58 | 24-bit integer samples are divided by `i32::MAX` | the 24-bit sample 0x7FFFFF gives less than 1/256 | divide by the 24-bit maximum 2^23-1, so full scale is 1 | high, not executed | WavBackend.Wav24FullScaleAsWritten | WavBackend.IntendedFullScale |
