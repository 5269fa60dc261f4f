/** The USB CDC serial port of src/cdc.rs: the 64-byte read buffer that
    `SerialPort::read` refills from the OUT endpoint and hands out to the
    caller, the `Busy` mapping of `write`, and the class-request filter of
    `control_out`. The endpoints themselves are outside the model: what an
    endpoint call returns is a parameter. */
module Cdc {
  import opened Bytes

  /** Class-specific requests of section 6.2 of the USB CDC 1.1
      specification. */
  const REQ_SET_LINE_CODING: u8 := 0x20
  const REQ_SET_CONTROL_LINE_STATE: u8 := 0x22

  /** Size of `Buf.buf`, and the endpoint's packet size. */
  const BUF_SIZE: nat := 64

  /** `Busy` and `NoData` are the errors this class reacts to; `OtherError`
      stands for the other error kinds of the USB stack, which it only
      passes on. */
  datatype UsbError = Busy | NoData | OtherError(code: nat)

  datatype RequestType = Standard | Class | Vendor | Reserved

  datatype Recipient = Device | Interface | Endpoint | OtherRecipient

  /** The parts of a control request `control_out` looks at. */
  datatype Request = Request(requestType: RequestType, recipient: Recipient, request: u8)

  datatype ControlOutResult = Ignore | Ok | Err(error: UsbError)

  /** `control_out`: accept SET_LINE_CODING and SET_CONTROL_LINE_STATE when
      they are class requests to an interface; leave everything else, and
      the data stage, to other handlers. */
  function ControlOut(req: Request, data: seq<u8>): (r: ControlOutResult)
    ensures r == ControlOutResult.Ok <==>
              req.requestType == Class && req.recipient == Interface &&
              (req.request == REQ_SET_LINE_CODING || req.request == REQ_SET_CONTROL_LINE_STATE)
    ensures r != ControlOutResult.Ok ==> r == Ignore
  {
    if req.requestType == Class && req.recipient == Interface then
      match req.request
      case 0x20 => ControlOutResult.Ok
      case 0x22 => ControlOutResult.Ok
      case _ => Ignore
    else
      Ignore
  }

  /** `write`, given what the IN endpoint's `write` returned: a busy
      endpoint reads as zero bytes written, so `Busy` never reaches the
      caller; every other outcome is passed on as it is. */
  function Write(endpoint: Result<nat, UsbError>): (r: Result<nat, UsbError>)
    ensures r != Result.Err(Busy)
    ensures endpoint != Result.Err(Busy) ==> r == endpoint
    ensures endpoint == Result.Err(Busy) ==> r == Result.Ok(0)
  {
    match endpoint
    case Ok(count) => Result.Ok(count)
    case Err(Busy) => Result.Ok(0)
    case Err(e) => Result.Err(e)
  }

  // ---------------------------------------------------------------------------
  // The read buffer, as a value
  // ---------------------------------------------------------------------------

  /** `Buf`: the 64 bytes and how many of them, from the front, are
      waiting to be read. */
  datatype Buf = Buf(bytes: seq<u8>, len: nat)

  ghost predicate ValidBuf(b: Buf) {
    |b.bytes| == BUF_SIZE && b.len <= BUF_SIZE
  }

  /** The bytes received and not yet handed out. */
  function Pending(b: Buf): seq<u8>
    requires ValidBuf(b)
  {
    b.bytes[..b.len]
  }

  /** `rotate_left(k)` */
  function RotateLeft(s: seq<u8>, k: nat): (r: seq<u8>)
    requires k <= |s|
    ensures |r| == |s|
  {
    s[k..] + s[..k]
  }

  /** After `rotate_left(count)`, the front `len - count` bytes are the
      pending bytes that were not copied out, still in order. */
  lemma RotatedPending(s: seq<u8>, len: nat, count: nat)
    requires count <= len <= |s|
    ensures RotateLeft(s, count)[..len - count] == s[count..len]
  {
  }

  /** The endpoint's `read` into the buffer: the packet lands at the front
      and becomes the pending bytes. */
  function Refill(b: Buf, packet: seq<u8>): (r: Buf)
    requires ValidBuf(b) && |packet| <= BUF_SIZE
    ensures ValidBuf(r) && Pending(r) == packet
  {
    Buf(packet + b.bytes[|packet|..], |packet|)
  }

  /** What `read` returns, leaves in the buffer and copies out. */
  datatype ReadOutcome = ReadOutcome(result: Result<nat, UsbError>, buf: Buf, copied: seq<u8>)

  /** The specification of `read` into a destination of `room` bytes, with
      `locked` the outcome of `try_lock` and `endpoint` what the OUT
      endpoint's `read` would return. The endpoint is consulted only when
      nothing is pending. Whatever is copied out is the front of the
      pending bytes (after a refill, of the packet), and what stays pending
      is the rest of them, in order. */
  function ReadSpec(b: Buf, locked: bool, endpoint: Result<seq<u8>, UsbError>, room: nat): (o: ReadOutcome)
    requires ValidBuf(b)
    requires endpoint.Ok? ==> |endpoint.value| <= BUF_SIZE
    ensures ValidBuf(o.buf)
    ensures o.result.Ok? ==> o.result.value == |o.copied| <= room && |o.copied| <= BUF_SIZE
    ensures o.result.Err? ==> o.copied == [] && o.buf == b
    ensures o.result.Err? <==> locked && b.len == 0 && endpoint.Err? && endpoint.error != NoData
    ensures o.result.Err? ==> o.result.error == endpoint.error
    ensures !locked ==> o == ReadOutcome(Result.Ok(0), b, [])
    ensures locked && b.len > 0 ==>
              o.copied + Pending(o.buf) == Pending(b) && |o.copied| == Min(room, b.len)
    ensures locked && b.len == 0 && endpoint.Ok? ==>
              o.copied + Pending(o.buf) == endpoint.value && |o.copied| == Min(room, |endpoint.value|)
    ensures locked && b.len == 0 && endpoint == Result.Err(NoData) ==> o == ReadOutcome(Result.Ok(0), b, [])
  {
    if !locked then ReadOutcome(Result.Ok(0), b, [])
    else if b.len == 0 && endpoint.Err? then
      if endpoint.error == NoData then ReadOutcome(Result.Ok(0), b, [])
      else ReadOutcome(Result.Err(endpoint.error), b, [])
    else
      var b1 := if b.len == 0 then Refill(b, endpoint.value) else b;
      if b1.len == 0 then ReadOutcome(Result.Ok(0), b1, [])
      else
        var count := Min(room, b1.len);
        var after := Buf(RotateLeft(b1.bytes, count), b1.len - count);
        RotatedPending(b1.bytes, b1.len, count);
        ReadOutcome(Result.Ok(count), after, b1.bytes[..count])
  }

  /** An empty packet refills nothing: the buffer is as it was. */
  lemma EmptyRefill(b: Buf)
    requires ValidBuf(b) && b.len == 0
    ensures forall room: nat :: ReadSpec(b, true, Result.Ok([]), room) == ReadOutcome(Result.Ok(0), b, [])
  {
    forall room: nat ensures ReadSpec(b, true, Result.Ok([]), room) == ReadOutcome(Result.Ok(0), b, []) {
      assert Refill(b, []) == b;
    }
  }

  // ---------------------------------------------------------------------------
  // The port
  // ---------------------------------------------------------------------------

  /** `slice::rotate_left` on the whole buffer. */
  method RotateLeftInPlace(a: array<u8>, k: nat)
    requires k <= a.Length
    modifies a
    ensures a[..] == RotateLeft(old(a[..]), k)
  {
    var was := a[..];
    var n := a.Length;
    forall i | 0 <= i < n {
      a[i] := if i + k < n then was[i + k] else was[i + k - n];
    }
  }

  /** `data[..count].copy_from_slice(&buf[0..count])` */
  method CopyFront(src: array<u8>, dst: array<u8>, count: nat)
    requires count <= src.Length && count <= dst.Length && src != dst
    modifies dst
    ensures dst[..] == src[..count] + old(dst[count..])
  {
    forall i | 0 <= i < count {
      dst[i] := src[i];
    }
    assert dst[..] == src[..count] + old(dst[count..]);
  }

  class SerialPort {
    var readBuf: array<u8>
    var len: nat

    ghost predicate Valid()
      reads this
    {
      readBuf.Length == BUF_SIZE && len <= BUF_SIZE
    }

    /** The buffer as a value. */
    ghost function Contents(): (b: Buf)
      reads this, readBuf
      requires Valid()
      ensures ValidBuf(b)
    {
      Buf(readBuf[..], len)
    }

    /** `SerialPort::new`, without the endpoint allocation: an empty,
        zeroed buffer. */
    constructor ()
      ensures Valid() && fresh(readBuf)
      ensures Contents() == Buf(seq(BUF_SIZE, _ => 0), 0)
    {
      readBuf := new u8[BUF_SIZE](_ => 0);
      len := 0;
    }

    /** The endpoint's `read` into the empty buffer. */
    method FillFromEndpoint(packet: seq<u8>)
      requires Valid() && len == 0 && |packet| <= BUF_SIZE
      modifies this`len, readBuf
      ensures Valid() && Contents() == Refill(old(Contents()), packet)
    {
      forall i | 0 <= i < |packet| {
        readBuf[i] := packet[i];
      }
      len := |packet|;
    }

    /** The copy into `data`, the rotation and the decrement of `len`. */
    method HandOut(data: array<u8>) returns (count: nat)
      requires Valid() && len > 0 && data != readBuf
      modifies this`len, readBuf, data
      ensures Valid()
      ensures count == Min(data.Length, old(len))
      ensures Contents() == Buf(RotateLeft(old(readBuf[..]), count), old(len) - count)
      ensures data[..] == old(readBuf[..count]) + old(data[count..])
    {
      count := Min(data.Length, len);
      CopyFront(readBuf, data, count);
      RotateLeftInPlace(readBuf, count);
      len := len - count;
    }

    /** `read` into `data`, with `locked` the outcome of `try_lock` and
        `endpoint` what the OUT endpoint's `read` returns if it is called.
        The first `result` bytes of `data` are the bytes copied out; the
        rest of `data` is untouched. */
    method Read(locked: bool, endpoint: Result<seq<u8>, UsbError>, data: array<u8>)
      returns (r: Result<nat, UsbError>)
      requires Valid() && data != readBuf
      requires endpoint.Ok? ==> |endpoint.value| <= BUF_SIZE
      modifies this`len, readBuf, data
      ensures Valid()
      ensures var o := ReadSpec(old(Contents()), locked, endpoint, data.Length);
              r == o.result && Contents() == o.buf &&
              data[..] == o.copied + old(data[|o.copied|..])
    {
      if !locked {
        return Result.Ok(0);
      }
      if len == 0 {
        match endpoint {
          case Err(e) =>
            if e == NoData {
              return Result.Ok(0);
            }
            return Result.Err(e);
          case Ok(packet) =>
            FillFromEndpoint(packet);
        }
      }
      if len == 0 {
        return Result.Ok(0);
      }
      var count := HandOut(data);
      r := Result.Ok(count);
    }
  }
}
