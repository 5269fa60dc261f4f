# monocle: the wire codec, the host stream decoder, the CDC read buffer and the tick counter, in Dafny

monocle is an event-capture device. It timestamps level changes on two input
channels and streams them to a host over a serial link. The data uses a small
tag-prefixed binary protocol. This project models, and proves properties of:

- **the wire codec** (`api/src/data.rs`). This covers the `State` bitmask, the
  `Reading`, the four-variant `ClientHostMessage` and the `u8`/`u32`
  primitives. The encoders are methods that write into the caller's
  `array<u8>` from an offset. The offset stands for the Rust sub-slice
  `buffer[off..]` that the composite encoders pass on. Each encoder is proved
  against the wire image of its value (`U32Bytes`, `ReadingBytes`,
  `MessageBytes`, ...). The decoders are functions over `seq<u8>`. Both round
  trips are proved. So is exact length symmetry: a decoder consumes exactly
  the bytes of its value's wire image. So is the behaviour on a partial input
  and on a rejected byte;
- **the host stream decoder** (`decode_messages` and the append step of
  `read_serial_port_data` in `host/src/serial_reader.rs`). It is a `while`
  loop over the byte accumulator, proved against the specification function
  `Drain`. Proved about `Drain`: a concatenated stream of messages drains to
  exactly those messages; splitting the stream into reads does not change the
  result; the kept tail is a partial message shorter than six bytes;
- **the USB CDC serial port** (`src/cdc.rs`). This is the 64-byte read buffer
  of `SerialPort::read`, modelled as a class over an `array<u8>` and proved
  against the value-level `ReadSpec`. No received byte is lost or reordered.
  The model also covers the `Busy` mapping of `write` and the class-request
  filter of `control_out`. The two requests it accepts are SET_LINE_CODING
  (0x20) and SET_CONTROL_LINE_STATE (0x22), as in section 6.2 of the USB CDC
  1.1 specification;
- **the big-endian `encode_u32`** (`api/src/util.rs`). Its bytes are proved
  to be those of the codec's little-endian `u32`, in reverse order;
- **the `Stopwatch`** (`src/stopwatch.rs`). This is a 16-bit overflow
  counter that extends the hardware count to 32 bits.

Integers are subset types of `int` (`u8`, `u16`, `u32` in module `Bytes`).
A Rust `>> k` is a division by 2^k, an `as u8` is `% 0x100`, and an OR of
disjoint bit fields is a sum. Rust's `?` is Dafny's `:-` over `Bytes.Result`.

Decisions and observations:

- The resynchronising arm of `decode_messages` matches
  `DecodingError::IncorrectPrefixByte` (`host/src/serial_reader.rs:78`).
  The codec has no such variant: it has only `EndOfBytes` and
  `UnexpectedByte` (`api/src/data.rs:85-88`). The model resynchronises on
  `UnexpectedByte`, which is what the arm evidently intends. It drops
  one byte and retries. This includes an `UnexpectedByte` raised by the
  `State` byte of a `Reading`. With only two error variants, the
  `Err(e) => return Err(e)` arm cannot be reached, and `DecodeMessages`
  is proved always to return `Ok`.
- Every multi-byte field is little-endian, as the code writes it.
  `SerialReader.ResyncExample` drains the 12-byte stream
  `[0xFF, 1, 3, 0,0,0,100, 2, 0,0x10,0,0]`. Its timestamp bytes
  `0,0,0,100` are therefore `100 << 24`; a big-endian reading of the same four bytes would give 100. Its frequency bytes
  `0,0x10,0,0` are 4096.
- The primitive encoders (`u8`, `u32`, `State`) check the room first and
  write nothing when it is too small. The composite encoders are not
  atomic. When the buffer holds at least one byte, a failing
  `ClientHostMessage` encode has already written the tag, and a failing
  `Reading` encode has already written the `State` byte. On an empty
  buffer both fail before writing anything.
  The encoder contracts state exactly these partial writes
  (`Codec.WrittenCount`, `Codec.FailedEncodeLeavesPrefix`).

## Model

| member | source | states |
|---|---|---|
| `Codec.State.New` | api/src/data.rs:8-19 | `channel1()` and `channel2()` of a new `State` return the two flags it was built from; the packed byte is at most 0b11 by its type |
| `Codec.StateFromChannels` | api/src/data.rs:8-19 | every `State` is the one `State::new` builds from its own two channels: the byte holds nothing else |
| `Codec.Reading.New` | api/src/data.rs:28-35 | a new `Reading` carries the given time and channel flags |
| `Codec.MessageLength` | api/src/data.rs:121-144 | the wire length is tag plus payload: 6 for `Reading`, 5 for `FrequencyHertz`, 2 for `Reset`, 5 for `CurrentTime` |
| `Codec.EncodeU8` | api/src/data.rs:186-193 | with room, writes the byte at the offset and returns 1; without room, returns `BufferToSmall` and leaves the buffer as it was |
| `Codec.EncodeState` | api/src/data.rs:90-97 | with room, writes the packed byte and returns 1; otherwise `BufferToSmall` with the buffer untouched |
| `Codec.EncodeU32` | api/src/data.rs:163-172 | with at least 4 bytes of room, writes `x & 0xFF`, `(x>>8) & 0xFF`, `(x>>16) & 0xFF`, `x>>24` at offsets 0..3 and returns 4; with less, returns `BufferToSmall` and changes nothing |
| `Codec.EncodeReading` | api/src/data.rs:108-111 | writes the `State` byte and then the `u32` and returns 5; when only 1 to 4 bytes fit, returns `BufferToSmall` after writing the `State` byte; no byte outside the image is touched |
| `Codec.EncodePayload` | api/src/data.rs:134-141 | dispatches to the variant's encoder: the payload's image, its length, or `BufferToSmall` with that encoder's partial write |
| `Codec.EncodeMessage` | api/src/data.rs:122-144 | writes the tag (1/2/3/4) and then the payload, and returns payload length + 1; on too little room, returns `BufferToSmall`, with the tag (and a `Reading`'s `State` byte) already written when they fit; all other bytes unchanged |
| `Codec.FailedEncodeLeavesPrefix` | api/src/data.rs:122-144 | a message encode that fails with some room leaves the tag at the offset, and for a `Reading` with 2 or more bytes of room also the `State` byte; every other byte is as before |
| `Codec.EncodeDecode` | api/src/data.rs:219-249 | the source's test: encoding into a buffer of at least 6 bytes succeeds, and decoding that buffer gives back the message and consumes exactly the reported length; the buffer then holds the message's image at its front and its old bytes after it |
| `Codec.DecodeU8` | api/src/data.rs:195-200 | one byte gives `(1, byte)`; an empty input gives `EndOfBytes` |
| `Codec.DecodeU32` | api/src/data.rs:174-183 | 4 or more bytes give a value with 4 consumed; fewer give `EndOfBytes` |
| `Codec.DecodeState` | api/src/data.rs:98-104 | an empty input gives `EndOfBytes`; a first byte above 3 gives `UnexpectedByte(byte)`; otherwise the result is `(1, State{data: byte})` |
| `Codec.DecodeReading` | api/src/data.rs:113-118 | succeeds exactly when there are at least 5 bytes and a valid state byte, and then consumes 5; a state byte above 3 gives `UnexpectedByte` at any length; 1 to 4 bytes with a valid first byte give `EndOfBytes` |
| `Codec.DecodePayload` | api/src/data.rs:56-73 | the tag dispatch: a tag outside 1..4 gives `UnexpectedByte(tag)`; a success yields a variant with that tag, and the count it returns is the payload's length alone, excluding the tag, and never more than the bytes given |
| `Codec.DecodeMessage` | api/src/data.rs:146-159 | an empty input gives `EndOfBytes`; a tag outside 1..4 gives `UnexpectedByte(tag)` whatever follows; a success has the tag of the decoded variant and consumes exactly that message's wire length |
| `Codec.StateRoundTrip` | api/src/data.rs:90-104 | decoding a `State`'s byte, whatever follows it, gives `(1, state)` |
| `Codec.U32RoundTrip` | api/src/data.rs:162-183 | decoding the little-endian image of `x`, whatever follows it, gives `(4, x)` |
| `Codec.U32Canonical` | api/src/data.rs:162-183 | the four bytes a `u32` is decoded from are exactly that value's image |
| `Codec.ReadingRoundTrip` | api/src/data.rs:107-119 | decoding a `Reading`'s image, whatever follows it, gives `(5, reading)` |
| `Codec.MessageRoundTrip` | api/src/data.rs:121-159 | decoding a message's image, whatever follows it, gives `(wire length, message)` |
| `Codec.MessageCanonical` | api/src/data.rs:121-159 | the bytes a successful decode consumed are exactly the decoded message's image: encode is the inverse of decode |
| `Codec.PrefixIsEndOfBytes` | api/src/data.rs:146-159 | every proper prefix of a message's image, including the empty one, decodes to `EndOfBytes` |
| `Codec.EndOfBytesIsPrefix` | api/src/data.rs:146-159 | conversely, input that decodes to `EndOfBytes` is a proper prefix of some message's image |
| `Codec.DecodeIgnoresMore` | api/src/data.rs:146-159 | a decode that succeeded or rejected a byte gives the same answer however many bytes are appended |
| `SerialReader.Drain` | host/src/serial_reader.rs:65-89 | the specification of the drain loop; the bytes it keeps are never more than its input |
| `SerialReader.DrainDecoded` | host/src/serial_reader.rs:70-74 | on a successful decode the message is emitted first and exactly `bytes_used` bytes are removed from the head |
| `SerialReader.DrainStops` | host/src/serial_reader.rs:75-77 | on `EndOfBytes` the drain stops, emits nothing and keeps every byte |
| `SerialReader.DrainResync` | host/src/serial_reader.rs:78-81 | on `UnexpectedByte` exactly one head byte is dropped and the drain continues |
| `SerialReader.DrainKeepsPartial` | host/src/serial_reader.rs:65-89 | what a drain keeps is a suffix of its input on which the decoder reports `EndOfBytes` |
| `SerialReader.DecodeMessages` | host/src/serial_reader.rs:65-89 | the loop returns `Ok` with the messages of `Drain`, in order, and leaves the accumulator as `Drain`'s kept suffix, a partial message; it runs at most `|data| + 1` iterations |
| `SerialReader.AppendRead` | host/src/serial_reader.rs:58-60 | the accumulator becomes its old contents followed by `internal_buf[..read_amount]` |
| `SerialReader.DrainStream` | host/src/serial_reader.rs:65-89 | the concatenated images of messages `m1..mk` followed by any tail drain to `m1..mk` and then what the tail alone drains to |
| `SerialReader.DrainEncoded` | host/src/serial_reader.rs:70-74 | a whole message at the head is emitted and its bytes dropped |
| `SerialReader.DrainWholeMessages` | host/src/serial_reader.rs:65-89 | a stream of whole messages drains to exactly those messages and leaves the accumulator empty |
| `SerialReader.DrainChunked` | host/src/serial_reader.rs:22-29 | read, append, drain, repeated: however the stream is split into reads, the messages and the kept bytes are those of draining it in one piece |
| `SerialReader.DrainKeepsLessThanAMessage` | host/src/serial_reader.rs:75-77 | the kept bytes are fewer than 6, so the accumulator stays bounded between reads |
| `SerialReader.ResyncExample` | host/src/serial_reader.rs:78-81 | `[0xFF, 1, 3, 0,0,0,100, 2, 0,0x10,0,0]` drains to a `Reading` with both channels set and time `100 << 24`, then `FrequencyHertz(4096)`, with nothing kept |
| `Cdc.ControlOut` | src/cdc.rs:132-146 | `Ok` exactly for a Class request to an Interface with request 0x20 or 0x22; `Ignore` for everything else |
| `Cdc.Write` | src/cdc.rs:50-56 | `Busy` becomes `Ok(0)` and never reaches the caller; every other endpoint outcome passes through unchanged |
| `Cdc.Refill` | src/cdc.rs:69-70 | after the endpoint's read, the pending bytes are exactly the packet |
| `Cdc.ReadSpec` | src/cdc.rs:58-88 | not locked gives `Ok(0)` with nothing changed; the endpoint is consulted only when nothing is pending; `NoData` gives `Ok(0)` and other errors are returned with nothing changed; otherwise `min(room, len)` bytes are copied, and copied bytes plus bytes still pending equal the bytes pending before (or the new packet), in order |
| `Cdc.EmptyRefill` | src/cdc.rs:76-78 | for every destination size, a refill of zero bytes returns `Ok(0)`, copies nothing and leaves the buffer as it was |
| `Cdc.RotatedPending` | src/cdc.rs:84-85 | after `rotate_left(count)` the first `len - count` bytes are the old bytes `count..len` |
| `Cdc.RotateLeftInPlace` | src/cdc.rs:84 | the array becomes its old contents rotated left by `count` |
| `Cdc.CopyFront` | src/cdc.rs:82 | the first `count` destination bytes become the buffer's first `count` bytes; the rest of the destination is untouched |
| `Cdc.SerialPort.constructor` | src/cdc.rs:43-46 | a new port has a zeroed 64-byte buffer with nothing pending |
| `Cdc.SerialPort.FillFromEndpoint` | src/cdc.rs:68-74 | the packet is written at the front of the empty buffer and `len` becomes its length |
| `Cdc.SerialPort.HandOut` | src/cdc.rs:80-85 | copies `min(data.len, len)` bytes to the front of `data`, rotates the buffer left by that count and decreases `len` by it |
| `Cdc.SerialPort.Read` | src/cdc.rs:58-88 | result, new buffer and written destination are those `ReadSpec` gives; the destination bytes from the count on are unchanged |
| `Util.EncodeU32` | api/src/util.rs:1-6 | writes `val>>24`, `(val>>16) & 0xFF`, `(val>>8) & 0xFF`, `val & 0xFF` at indices 0..3 of a buffer of at least 4 bytes and leaves every later byte unchanged |
| `Util.BigEndianIsReversed` | api/src/util.rs:2-5 | the four bytes are those of the codec's `u32` encoder for the same value, in reverse order |
| `Util.BigEndianRoundTrip` | api/src/util.rs:1-6 | the image, reversed and read by the codec's `u32` decoder, gives the value back |
| `Stopwatch.Stopwatch.constructor` | src/stopwatch.rs:25-28 | a new stopwatch has overflow counter 0 |
| `Stopwatch.Stopwatch.OnOverflow` | src/stopwatch.rs:31-33 | the counter increases by exactly 1, and `now()` for any fixed raw count strictly increases |
| `Stopwatch.Stopwatch.Now` | src/stopwatch.rs:35-37 | the high 16 bits of `now()` are the overflow counter and the low 16 bits the raw count, and the sum never exceeds `u32::MAX` |

## Left out

- `src/main.rs`, `src/channels.rs`, `examples/blinky.rs`, `examples/uartloopback.rs`: clock, timer, GPIO and EXTI register set-up, the task table and the idle loop. This is hardware and scheduling. `onpin1` is `unimplemented!()` in the source.
- `src/macros.rs`: `send_client_host_message` writes `buffer[..n]` to the transmit peripheral inside a priority-ceiling claim. It is concurrency and blocking peripheral I/O.
- The rest of `host/src/serial_reader.rs`: `serial_reader_thread`, `init_serial_port` and the `TimedOut` retry loop of `read_serial_port_data`. These are serial I/O and an mpsc channel. Only the append step (`SerialReader.AppendRead`) is modelled. How repeated reads and drains compose is stated by `SerialReader.DrainChunked`.
- `host/src/main.rs`: a serial read loop. It reads 5 bytes with a 2-second timeout and calls an out-of-date `Reading::decode` signature. This is serial I/O.
- `host/src/websockets.rs`, `host/src/httpserver.rs`: threads, TCP/WebSocket, JSON and a file server.
- `host/src/types.rs`: `RealReading::from_reading` is an `f64` division. Floating point is not modelled.
- `api/src/messages.rs` uses a foreign serialisation library, and `api/src/error.rs` has no behaviour.
- `src/cdc.rs` descriptors and endpoints: `get_configuration_descriptors` is a series of calls into the USB stack. `SerialPort::new` allocates endpoints from the bus. The OUT and IN endpoints' `read` and `write`, and `try_lock` of the `AtomicMutex`, are not visible. What they return is a parameter of `Read` and `Write`.
- `src/stopwatch.rs`: the TIM3 register writes of `Stopwatch::new` are hardware. `raw_value` is `unimplemented!()`, so the raw 16-bit count is a parameter of `Now`.
- A capture ring buffer, and the frequency gating of a host session controller: no code for either appears in the source files. The tick-to-time conversion does exist, as `RealReading::from_reading` (`host/src/types.rs:10-15`), and is left out as floating point (see above).
- The `println!` of the dropped byte in the resynchronising arm (`host/src/serial_reader.rs:80`): it is logging only and changes no state.
- The context strings of `UnexpectedByte` carry no meaning and are dropped. The one at `api/src/data.rs:101` even states the opposite of its check.
- `Cdc.Request`: only the request type, recipient and request code are modelled, the fields `control_out` reads. Direction, value, index and length are left out.
- `Cdc.SerialPort.Read`: requires the endpoint's packet to be at most 64 bytes. The endpoint reads into the 64-byte buffer and cannot return more.
- `Stopwatch.Stopwatch.OnOverflow`: does not model the release-build wrap-around of the `u16` increment. It requires the counter to be below 0xFFFF, where a debug build would panic.
- `Util.EncodeU32`: requires at least 4 bytes of buffer. A shorter slice makes the Rust indexing panic, and the panic is not modelled.
