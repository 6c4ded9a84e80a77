/**
 * The V4L2 memory-to-memory device behind the driver, as a record: every
 * ioctl is an operation appended to a log, with the few effects the core
 * relies on (format, requested buffers, streaming state). Whether a fallible
 * operation succeeded is part of its log entry.
 *
 * In V4L2 terms the OUTPUT queue carries the compressed bitstream into the
 * device and the CAPTURE queue carries decoded pictures out of it.
 */
module V4l2Device {
  import opened VaTypes

  datatype Queue = OutputQueue | CaptureQueue

  datatype PixelFormat = Mpeg2Frame

  /** The multi-planar format set on the OUTPUT queue. */
  datatype Format = Format(width: int, height: int, pixelFormat: PixelFormat, sizeImage: int, numPlanes: nat)

  datatype DeviceOp =
    | SetFormat(fmt: Format)                          // VIDIOC_S_FMT
    | GetFormat(queue: Queue)                         // VIDIOC_G_FMT
    | CreateBufs(count: nat)                          // VIDIOC_CREATE_BUFS
    | StreamOn(queue: Queue)                          // VIDIOC_STREAMON
    | StreamOff(queue: Queue, ok: bool)               // VIDIOC_STREAMOFF
    | NewRequest(fd: nat)                             // VIDIOC_NEW_REQUEST
    | SetControls(controlRequest: int, hdr: Option<FrameHeader>)  // VIDIOC_S_EXT_CTRLS
    | QueueBuf(queue: Queue, index: int, request: Option<int>, bytesUsed: int, ok: bool)  // VIDIOC_QBUF
    | DequeueBuf(queue: Queue, index: int)            // VIDIOC_DQBUF

  datatype Device = Device(
    format: Option<Format>,
    bufferCount: nat,
    outputStreaming: bool,
    captureStreaming: bool,
    log: seq<DeviceOp>)

  function Streaming(d: Device, q: Queue): bool {
    if q == OutputQueue then d.outputStreaming else d.captureStreaming
  }

  /** Issuing one operation: it is logged last, and only a format, a buffer
      request or a successful stream toggle changes the device's state. */
  function Issue(d: Device, op: DeviceOp): (r: Device)
    ensures r.log == d.log + [op]
    ensures r.format == (if op.SetFormat? then Some(op.fmt) else d.format)
    ensures r.bufferCount == (if op.CreateBufs? then op.count else d.bufferCount)
    ensures forall q :: (Streaming(r, q) ==
                         if op.StreamOn? && op.queue == q then true
                         else if op.StreamOff? && op.queue == q && op.ok then false
                         else Streaming(d, q))
  {
    var d1 := d.(log := d.log + [op]);
    match op
    case SetFormat(fmt) => d1.(format := Some(fmt))
    case CreateBufs(count) => d1.(bufferCount := count)
    case StreamOn(q) =>
      if q == OutputQueue then d1.(outputStreaming := true) else d1.(captureStreaming := true)
    case StreamOff(q, ok) =>
      if !ok then d1
      else if q == OutputQueue then d1.(outputStreaming := false) else d1.(captureStreaming := false)
    case _ => d1
  }

  /** The operations issued between two states of the device. */
  function Issued(before: Device, after: Device): seq<DeviceOp>
    requires |before.log| <= |after.log|
  {
    after.log[|before.log|..]
  }
}
