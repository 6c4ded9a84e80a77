/**
 * The decode-context lifecycle of src/context.c: CreateContext allocates and
 * fills a context, checks the surfaces it is given, programs the device's
 * bitstream format for the profile, requests the input buffers and starts
 * both queues; DestroyContext stops the queues, clears the context and frees
 * it.
 *
 * As in the source, an unsupported profile is detected only after the
 * context was allocated: when every surface resolved it is returned with the
 * context still live, and when one did not the rollback has already freed
 * it; either way no device call is made. For an MPEG-2 profile a
 * surface-validation failure rolls the context back and then still goes on
 * to program the device. CreateProgramsDevice and
 * CreateRollsBackOnInvalidSurface state both.
 */
module Context {
  import opened VaTypes
  import opened ObjectHeap
  import opened V4l2Device
  import opened DriverState

  /** The index of the first id that does not name a surface (|ids| if all do). */
  function FirstUnresolved(ids: seq<Id>, surfaces: map<Id, SurfaceObject>): (k: nat)
    ensures k <= |ids|
    ensures forall i :: 0 <= i < k ==> ids[i] in surfaces
    ensures k < |ids| ==> ids[k] !in surfaces
    decreases |ids|
  {
    if ids == [] || ids[0] !in surfaces then 0
    else 1 + FirstUnresolved(ids[1..], surfaces)
  }

  /** The surface-id copy loop: ids are copied in order up to the first one
      that does not name a surface, which makes the result InvalidSurface. */
  method CopySurfaceIds(surfaces: map<Id, SurfaceObject>, ids: seq<Id>)
    returns (copied: seq<Id>, st: Status)
    ensures copied == ids[..FirstUnresolved(ids, surfaces)]
    ensures st == (if |copied| < |ids| then InvalidSurface else Success)
  {
    st := Success;
    copied := [];
    var i := 0;
    while i < |ids|
      invariant 0 <= i <= |ids|
      invariant copied == ids[..i]
      invariant forall j :: 0 <= j < i ==> ids[j] in surfaces
      invariant st == Success
    {
      if ids[i] !in surfaces {
        st := InvalidSurface;
        break;
      }
      copied := copied + [ids[i]];
      i := i + 1;
    }
  }

  /** The device programming done by CreateContext, every ioctl of which is
      asserted to succeed: the MPEG-2 frame format of the picture's size with
      one plane of `nb` slots of `maxSize` bytes, a read-back of that format,
      `nb` buffers, then streaming on the output and on the capture queue. */
  function SetUpDevice(dev: Device, width: int, height: int, nb: nat, maxSize: nat): (r: Device)
    ensures r.format == Some(Format(width, height, Mpeg2Frame, maxSize * nb, 1))
    ensures r.bufferCount == nb && r.outputStreaming && r.captureStreaming
    ensures r.log == dev.log + [SetFormat(Format(width, height, Mpeg2Frame, maxSize * nb, 1)),
                                GetFormat(OutputQueue), CreateBufs(nb),
                                StreamOn(OutputQueue), StreamOn(CaptureQueue)]
  {
    var dev1 := Issue(dev, SetFormat(Format(width, height, Mpeg2Frame, maxSize * nb, 1)));
    var dev2 := Issue(dev1, GetFormat(OutputQueue));
    var dev3 := Issue(dev2, CreateBufs(nb));
    var dev4 := Issue(dev3, StreamOn(OutputQueue));
    Issue(dev4, StreamOn(CaptureQueue))
  }

  datatype CreateResult = CreateResult(sys: Sys, status: Status, contextId: Option<Id>)

  /** The context-table part of CreateContext: a fresh context holding the
      config, size, surface count and flags and the surface ids up to the
      first one that does not resolve. If one does not resolve, the status is
      InvalidSurface and the context is cleared and freed again. */
  function NewContext(contexts: Heap<ContextObject>, surfaces: map<Id, SurfaceObject>, configId: Id,
                      width: int, height: int, flag: int, ids: seq<Id>): (r: (Heap<ContextObject>, Id, Status))
    requires contexts.Valid()
    ensures r.0.Valid()
    ensures r.1 !in contexts.objects && r.1 in r.0.objects
    ensures r.2 == Success || r.2 == InvalidSurface
    ensures r.0.live == (if r.2 == Success then contexts.live + {r.1} else contexts.live)
  {
    var (heap, id) := Allocate(contexts, EmptyContext);
    var k := FirstUnresolved(ids, surfaces);
    var status := if k < |ids| then InvalidSurface else Success;
    var ctx := EmptyContext.(configId := configId, renderSurfaceId := InvalidId,
                             surfacesIds := ids[..k], surfacesCount := |ids|,
                             pictureWidth := width, pictureHeight := height,
                             numRenderedSurfaces := 0, flags := flag);
    var heap' := if status == Success then Store(heap, id, ctx)
                 else Free(Store(heap, id, ctx.(configId := InvalidId, surfacesIds := [],
                                                 surfacesCount := 0, flags := 0)), id);
    (heap', id, status)
  }

  /** The new context records all the ids when each resolves, and none
      (it was rolled back) otherwise. */
  lemma NewContextRecordsResolvedPrefix(contexts: Heap<ContextObject>, surfaces: map<Id, SurfaceObject>,
                                        configId: Id, width: int, height: int, flag: int, ids: seq<Id>)
    requires contexts.Valid()
    ensures var (heap, id, st) := NewContext(contexts, surfaces, configId, width, height, flag, ids);
            var k := FirstUnresolved(ids, surfaces);
            && id in heap.objects
            && heap.objects[id].surfacesIds == (if k == |ids| then ids else [])
            && (st == Success <==> k == |ids|)
  {
    assert ids[..|ids|] == ids;
  }

  /** CreateContext. `heapFull` says whether the context table can hand out
      an object; `contextId` is the id written back to the caller, if any. */
  function CreateStep(s: Sys, configId: Id, width: int, height: int, flag: int,
                      ids: seq<Id>, heapFull: bool): (r: CreateResult)
    requires s.Valid()
    ensures r.sys.Valid()
    ensures r.sys.surfaces == s.surfaces && r.sys.requestFds == s.requestFds && r.sys.sliceOffset == s.sliceOffset
    ensures r.status == Success ==> r.contextId.Some? && r.contextId.value in r.sys.contexts.live
  {
    if configId !in s.configs then CreateResult(s, InvalidConfig, None)
    else if heapFull then CreateResult(s, AllocationFailed, None)
    else
      var (heap', id, status) := NewContext(s.contexts, s.surfaces, configId, width, height, flag, ids);
      if !IsMpeg2(s.configs[configId].profile) then
        CreateResult(s.(contexts := heap'), UnsupportedProfile, Some(id))
      else
        CreateResult(s.(contexts := heap', device := SetUpDevice(s.device, width, height, s.nb, s.maxSize)),
                     status, Some(id))
  }

  /** An unknown config is refused before anything is allocated, and a full
      context table is refused without any other change. */
  lemma CreateRefusals(s: Sys, configId: Id, width: int, height: int, flag: int, ids: seq<Id>, heapFull: bool)
    requires s.Valid()
    ensures configId !in s.configs ==>
              CreateStep(s, configId, width, height, flag, ids, heapFull) == CreateResult(s, InvalidConfig, None)
    ensures configId in s.configs && heapFull ==>
              CreateStep(s, configId, width, height, flag, ids, heapFull) == CreateResult(s, AllocationFailed, None)
  {
  }

  /** A successful CreateContext returns a fresh context id holding the config,
      no render target, all the given surfaces in order, the picture size and
      flags, and a zero frame counter; no other context changes. */
  lemma CreateInitialisesContext(s: Sys, configId: Id, width: int, height: int, flag: int, ids: seq<Id>)
    requires s.Valid() && configId in s.configs && IsMpeg2(s.configs[configId].profile)
    requires forall i :: 0 <= i < |ids| ==> ids[i] in s.surfaces
    ensures var r := CreateStep(s, configId, width, height, flag, ids, false);
            && r.status == Success && r.contextId.Some?
            && var id := r.contextId.value;
            && id !in s.contexts.objects
            && r.sys.contexts.live == s.contexts.live + {id}
            && r.sys.Ctx(id).configId == configId
            && r.sys.Ctx(id).renderSurfaceId == InvalidId
            && r.sys.Ctx(id).surfacesIds == ids
            && r.sys.Ctx(id).surfacesCount == |ids|
            && r.sys.Ctx(id).pictureWidth == width && r.sys.Ctx(id).pictureHeight == height
            && r.sys.Ctx(id).numRenderedSurfaces == 0
            && r.sys.Ctx(id).flags == flag
            && (forall c :: c in s.contexts.live ==> r.sys.Ctx(c) == s.Ctx(c))
            && r.sys == s.(contexts := r.sys.contexts, device := r.sys.device)
  {
    assert FirstUnresolved(ids, s.surfaces) == |ids|;
    assert ids[..|ids|] == ids;
  }

  /** When a surface id does not resolve, the ids before it are the ones that
      were copied, and the context is rolled back: config, surface list, count
      and flags cleared, and its id no longer live. The result is InvalidSurface
      (UnsupportedProfile if the profile is not MPEG-2), yet the device is still
      programmed and streaming for an MPEG-2 profile. */
  lemma CreateRollsBackOnInvalidSurface(s: Sys, configId: Id, width: int, height: int, flag: int,
                                        ids: seq<Id>, k: nat)
    requires s.Valid() && configId in s.configs
    requires k < |ids| && ids[k] !in s.surfaces
    requires forall i :: 0 <= i < k ==> ids[i] in s.surfaces
    ensures var r := CreateStep(s, configId, width, height, flag, ids, false);
            var mpeg2 := IsMpeg2(s.configs[configId].profile);
            && r.contextId.Some?
            && var id := r.contextId.value;
            && r.status == (if mpeg2 then InvalidSurface else UnsupportedProfile)
            && r.sys.contexts.live == s.contexts.live
            && id in r.sys.contexts.objects
            && r.sys.contexts.objects[id].configId == InvalidId
            && r.sys.contexts.objects[id].surfacesIds == []
            && r.sys.contexts.objects[id].surfacesCount == 0
            && r.sys.contexts.objects[id].flags == 0
            && (mpeg2 ==> r.sys.device.outputStreaming && r.sys.device.captureStreaming
                          && r.sys.device.format.Some?)
            && (!mpeg2 ==> r.sys.device == s.device)
  {
    assert FirstUnresolved(ids, s.surfaces) <= k;
  }

  /** The surfaces a context records are the given ids up to the first one
      that does not resolve. */
  lemma CreateCopiesResolvedPrefix(s: Sys, configId: Id, width: int, height: int, flag: int, ids: seq<Id>)
    requires s.Valid() && configId in s.configs
    ensures var r := CreateStep(s, configId, width, height, flag, ids, false);
            var k := FirstUnresolved(ids, s.surfaces);
            && r.contextId.Some?
            && r.contextId.value in r.sys.contexts.objects
            && r.sys.contexts.objects[r.contextId.value].surfacesIds == (if k == |ids| then ids else [])
  {
    NewContextRecordsResolvedPrefix(s.contexts, s.surfaces, configId, width, height, flag, ids);
  }

  /** Only the two MPEG-2 profiles select the MPEG-2 frame format; for them the
      device gets the picture size, nb slots of maxSize bytes in one plane,
      exactly nb buffers and both queues streaming. Any other profile returns
      UnsupportedProfile before any device call, and the context allocated for
      it stays live (and is handed back) when its surfaces were all valid. */
  lemma CreateProgramsDevice(s: Sys, configId: Id, width: int, height: int, flag: int, ids: seq<Id>)
    requires s.Valid() && configId in s.configs
    ensures var r := CreateStep(s, configId, width, height, flag, ids, false);
            var fmt := Format(width, height, Mpeg2Frame, s.maxSize * s.nb, 1);
            && (IsMpeg2(s.configs[configId].profile) ==>
                  && r.status != UnsupportedProfile
                  && r.sys.device.format == Some(fmt)
                  && r.sys.device.bufferCount == s.nb
                  && r.sys.device.outputStreaming && r.sys.device.captureStreaming
                  && r.sys.device.log == s.device.log + [SetFormat(fmt), GetFormat(OutputQueue), CreateBufs(s.nb),
                                                         StreamOn(OutputQueue), StreamOn(CaptureQueue)])
            && (!IsMpeg2(s.configs[configId].profile) ==>
                  && r.status == UnsupportedProfile
                  && r.sys.device == s.device
                  && r.contextId.Some?
                  && (FirstUnresolved(ids, s.surfaces) == |ids| ==> r.contextId.value in r.sys.contexts.live))
  {
  }

  /** The context-table part of CreateContext, in place. */
  method AllocateContext(d: DriverData, configId: Id, width: int, height: int, flag: int, ids: seq<Id>)
    returns (id: Id, st: Status)
    requires d.Valid()
    modifies d
    ensures d.Valid()
    ensures (d.contextHeap, id, st) == NewContext(old(d.contextHeap), d.surfaces, configId, width, height, flag, ids)
    ensures d.Abs() == old(d.Abs()).(contexts := d.contextHeap)
  {
    var (heap, newId) := Allocate(d.contextHeap, EmptyContext);
    id := newId;
    d.contextHeap := heap;
    var ctx := EmptyContext.(configId := configId, renderSurfaceId := InvalidId,
                             surfacesCount := |ids|, pictureWidth := width, pictureHeight := height,
                             numRenderedSurfaces := 0);

    var copied;
    copied, st := CopySurfaceIds(d.surfaces, ids);
    ctx := ctx.(surfacesIds := copied, flags := flag);
    d.contextHeap := Store(d.contextHeap, id, ctx);

    if st != Success {
      ctx := ctx.(configId := InvalidId, surfacesIds := [], surfacesCount := 0, flags := 0);
      StoreTwice(heap, id, ctx.(configId := configId, surfacesIds := copied, surfacesCount := |ids|, flags := flag), ctx);
      d.contextHeap := Store(d.contextHeap, id, ctx);
      d.contextHeap := Free(d.contextHeap, id);
    }
  }

  method CreateContext(d: DriverData, configId: Id, width: int, height: int, flag: int,
                       ids: seq<Id>, heapFull: bool)
    returns (st: Status, contextId: Option<Id>)
    requires d.Valid()
    modifies d
    ensures d.Valid()
    ensures CreateResult(d.Abs(), st, contextId) == CreateStep(old(d.Abs()), configId, width, height, flag, ids, heapFull)
  {
    contextId := None;
    if configId !in d.configs {
      return InvalidConfig, contextId;
    }
    var config := d.configs[configId];
    if heapFull {
      return AllocationFailed, contextId;
    }
    var id;
    id, st := AllocateContext(d, configId, width, height, flag, ids);
    contextId := Some(id);

    if !IsMpeg2(config.profile) {
      return UnsupportedProfile, contextId;
    }
    d.device := Issue(d.device, SetFormat(Format(width, height, Mpeg2Frame, d.maxSize * d.nb, 1)));
    d.device := Issue(d.device, GetFormat(OutputQueue));
    d.device := Issue(d.device, CreateBufs(d.nb));
    d.device := Issue(d.device, StreamOn(OutputQueue));
    d.device := Issue(d.device, StreamOn(CaptureQueue));
  }

  /** DestroyContext. `outputOffOk` and `captureOffOk` are the results of
      stopping the two queues, which the source ignores. */
  function DestroyStep(s: Sys, contextId: Id, outputOffOk: bool, captureOffOk: bool): (r: (Sys, Status))
    requires s.Valid() && contextId in s.contexts.live
    ensures r.0.Valid()
    ensures r.1 == Success && r.0.contexts.live == s.contexts.live - {contextId}
  {
    var dev := Issue(Issue(s.device, StreamOff(OutputQueue, outputOffOk)), StreamOff(CaptureQueue, captureOffOk));
    var ctx := s.Ctx(contextId).(configId := InvalidId, pictureWidth := 0, pictureHeight := 0,
                                 surfacesIds := [], surfacesCount := 0, flags := 0,
                                 renderSurfaceId := InvalidId);
    (s.(device := dev, contexts := Free(Store(s.contexts, contextId, ctx), contextId)), Success)
  }

  /** DestroyContext always succeeds: it tries to stop the output and then the
      capture queue whatever either reports, clears the context's fields and
      frees its id; the other contexts and the slots are untouched. */
  lemma DestroyClearsAndFrees(s: Sys, contextId: Id, outputOffOk: bool, captureOffOk: bool)
    requires s.Valid() && contextId in s.contexts.live
    ensures var (s', st) := DestroyStep(s, contextId, outputOffOk, captureOffOk);
            var c := s'.contexts.objects[contextId];
            && st == Success
            && s'.device.log == s.device.log + [StreamOff(OutputQueue, outputOffOk), StreamOff(CaptureQueue, captureOffOk)]
            && (outputOffOk ==> !s'.device.outputStreaming)
            && (captureOffOk ==> !s'.device.captureStreaming)
            && s'.contexts.live == s.contexts.live - {contextId}
            && c.configId == InvalidId && c.renderSurfaceId == InvalidId
            && c.pictureWidth == 0 && c.pictureHeight == 0
            && c.surfacesIds == [] && c.surfacesCount == 0 && c.flags == 0
            && c.numRenderedSurfaces == s.Ctx(contextId).numRenderedSurfaces
            && c.frameHdr == s.Ctx(contextId).frameHdr
            && (forall id :: id in s'.contexts.live ==> s'.Ctx(id) == s.Ctx(id))
            && s'.requestFds == s.requestFds && s'.sliceOffset == s.sliceOffset
            && s'.surfaces == s.surfaces && s'.configs == s.configs && s'.buffers == s.buffers
            && s'.syncs == s.syncs
  {
  }

  /** Creating a context and destroying it again leaves the same contexts live:
      the context table does not leak. */
  lemma CreateDestroyNoLeak(s: Sys, configId: Id, width: int, height: int, flag: int, ids: seq<Id>,
                            outputOffOk: bool, captureOffOk: bool)
    requires s.Valid()
    ensures var r := CreateStep(s, configId, width, height, flag, ids, false);
            r.status == Success ==>
              && r.contextId.Some? && r.contextId.value in r.sys.contexts.live
              && DestroyStep(r.sys, r.contextId.value, outputOffOk, captureOffOk).0.contexts.live == s.contexts.live
  {
    var r := CreateStep(s, configId, width, height, flag, ids, false);
    if r.status == Success {
      var (h1, id) := Allocate(s.contexts, EmptyContext);
      var c := r.sys.Ctx(id);
      var cleared := c.(configId := InvalidId, pictureWidth := 0, pictureHeight := 0,
                        surfacesIds := [], surfacesCount := 0, flags := 0,
                        renderSurfaceId := InvalidId);
      assert r.sys.contexts == Store(h1, id, c);
      StoreTwice(h1, id, c, cleared);
      AllocateFreeRestoresLive(s.contexts, EmptyContext, cleared);
    }
  }

  method DestroyContext(d: DriverData, contextId: Id, outputOffOk: bool, captureOffOk: bool)
    returns (st: Status)
    requires d.Valid() && contextId in d.contextHeap.live
    modifies d
    ensures d.Valid()
    ensures (d.Abs(), st) == DestroyStep(old(d.Abs()), contextId, outputOffOk, captureOffOk)
  {
    d.device := Issue(d.device, StreamOff(OutputQueue, outputOffOk));
    d.device := Issue(d.device, StreamOff(CaptureQueue, captureOffOk));

    var ctx := d.contextHeap.objects[contextId];
    ctx := ctx.(configId := InvalidId, pictureWidth := 0, pictureHeight := 0);
    ctx := ctx.(surfacesIds := [], surfacesCount := 0, flags := 0);
    ctx := ctx.(renderSurfaceId := InvalidId);
    d.contextHeap := Store(d.contextHeap, contextId, ctx);
    d.contextHeap := Free(d.contextHeap, contextId);
    st := Success;
  }
}
