/**
 * The driver's private data (sunxi_cedrus_driver_data): the object tables,
 * the per-slot request handles and bitstream offsets of the input-slot ring,
 * and the device. `DriverData` is the object the VA entry points update in
 * place; `Sys` is its value, on which the entry points are specified.
 */
module DriverState {
  import opened VaTypes
  import opened ObjectHeap
  import opened V4l2Device

  datatype Sys = Sys(
    nb: nat,                                // INPUT_BUFFERS_NB, the number of input slots
    maxSize: nat,                           // INPUT_BUFFER_MAX_SIZE
    configs: map<Id, ConfigObject>,
    surfaces: map<Id, SurfaceObject>,
    buffers: map<Id, BufferObject>,
    contexts: Heap<ContextObject>,
    requestFds: seq<int>,                   // request_fds[], negative while a slot has no request
    sliceOffset: seq<int>,                  // slice_offset[], bytes written into each slot
    device: Device,
    syncs: seq<Id>)                         // surfaces handed to the synchronisation routine
  {
    ghost predicate Valid() {
      nb > 0 && |requestFds| == nb && |sliceOffset| == nb && contexts.Valid() &&
      InvalidId !in surfaces
    }

    /** The context behind a live id: the CONTEXT(id) lookup, which succeeds. */
    function Ctx(id: Id): ContextObject
      requires Valid() && id in contexts.live
    {
      Lookup(contexts, id).value
    }
  }

  class DriverData {
    const nb: nat
    const maxSize: nat
    var configs: map<Id, ConfigObject>
    var surfaces: map<Id, SurfaceObject>
    var buffers: map<Id, BufferObject>
    var contextHeap: Heap<ContextObject>
    const requestFds: array<int>
    const sliceOffset: array<int>
    var device: Device
    ghost var syncs: seq<Id>

    ghost predicate Valid()
      reads this
    {
      nb > 0 &&
      requestFds.Length == nb && sliceOffset.Length == nb &&
      requestFds != sliceOffset &&
      contextHeap.Valid() &&
      InvalidId !in surfaces
    }

    ghost function Abs(): (s: Sys)
      reads this, requestFds, sliceOffset
      requires Valid()
      ensures s.Valid()
    {
      Sys(nb, maxSize, configs, surfaces, buffers, contextHeap,
          requestFds[..], sliceOffset[..], device, syncs)
    }
  }
}
