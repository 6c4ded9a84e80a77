/**
 * The per-frame submission pipeline of src/picture.c: BeginPicture binds a
 * surface to a rotating input slot, RenderPicture hands each buffer to the
 * profile's renderer, EndPicture turns the slot's accumulated data into one
 * request and queues the capture and output buffers for it.
 *
 * Each entry point is a step function on the driver's value (`Sys`), about
 * which the lemmas below are proved, and a method on `DriverData` that does
 * the same in place and is proved to compute that step.
 */
module Picture {
  import opened VaTypes
  import opened ObjectHeap
  import opened V4l2Device
  import opened DriverState

  // ---------------------------------------------------------------------------
  // Slot rotation
  // ---------------------------------------------------------------------------

  /** The input slot used by the frame begun when `counter` frames had been
      begun: the counter reduced modulo nb (SlotIsRemainder), written as
      repeated subtraction so that the solver unfolds it only on demand. */
  function Slot(counter: nat, nb: nat): (idx: nat)
    requires nb > 0
    ensures idx < nb
    decreases counter
  {
    if counter < nb then counter else Slot(counter - nb, nb)
  }

  /** Slot is `counter % nb`, the index BeginPicture computes. */
  lemma {:induction false} SlotIsRemainder(counter: nat, nb: nat)
    requires nb > 0
    ensures Slot(counter, nb) == counter % nb
    decreases counter
  {
    if counter < nb {
      DivModUnique(counter, nb, 0, counter);
    } else {
      SlotIsRemainder(counter - nb, nb);
      var q := (counter - nb) / nb;
      assert counter == nb * (q + 1) + (counter - nb) % nb;
      DivModUnique(counter, nb, q + 1, (counter - nb) % nb);
    }
  }

  /** A frame begun any whole number of rounds of nb frames later reuses the slot. */
  lemma {:induction false} SlotRepeats(c: nat, rounds: nat, nb: nat)
    requires nb > 0
    ensures Slot(c + rounds * nb, nb) == Slot(c, nb)
    decreases rounds
  {
    if rounds > 0 {
      assert c + rounds * nb == (c + (rounds - 1) * nb) + nb;
      SlotRepeats(c, rounds - 1, nb);
    }
  }

  /** Frames begun fewer than nb frames apart occupy different slots. */
  lemma {:induction false} SlotsDistinct(a: nat, b: nat, nb: nat)
    requires a < b < a + nb
    ensures Slot(a, nb) != Slot(b, nb)
    decreases a
  {
    if a >= nb {
      SlotsDistinct(a - nb, b - nb, nb);
    } else if b >= nb {
      assert Slot(b, nb) == Slot(b - nb, nb) == b - nb;
    }
  }

  /** Quotient and remainder are unique. */
  lemma DivModUnique(a: int, n: int, q: int, r: int)
    requires n > 0 && 0 <= r < n && a == n * q + r
    ensures a % n == r && a / n == q
  {
    var q', r' := a / n, a % n;
    assert n * (q - q') == r' - r;
    if q > q' {
      MulAtLeast(n, q - q');
    } else if q < q' {
      MulAtLeast(n, q' - q);
    }
  }

  lemma MulAtLeast(n: int, k: int)
    requires n > 0 && k >= 1
    ensures n * k >= n
  {
  }

  // ---------------------------------------------------------------------------
  // BeginPicture
  // ---------------------------------------------------------------------------

  /** BeginPicture. `syncStatus` is what the surface synchronisation
      (SunxiCedrusSyncSurface) reports when it is called. */
  function BeginStep(s: Sys, context: Id, target: Id, syncStatus: Status): (r: (Sys, Status))
    requires s.Valid() && context in s.contexts.live && target in s.surfaces
    ensures r.0.Valid()
    ensures r.0.contexts.live == s.contexts.live && r.0.surfaces.Keys == s.surfaces.Keys
    ensures r.0.device == s.device && r.0.requestFds == s.requestFds && r.0.sliceOffset == s.sliceOffset
  {
    var surface := s.surfaces[target];
    var synced := if surface.status == Rendering then s.syncs + [target] else s.syncs;
    if surface.status == Rendering && syncStatus != Success then
      (s.(syncs := synced), syncStatus)
    else
      var ctx := s.Ctx(context);
      var idx := Slot(ctx.numRenderedSurfaces, s.nb);
      var surface' := surface.(status := Rendering, request := idx + 1, inputBufIndex := idx);
      var ctx' := ctx.(numRenderedSurfaces := ctx.numRenderedSurfaces + 1, renderSurfaceId := target);
      (s.(surfaces := s.surfaces[target := surface'],
          contexts := Store(s.contexts, context, ctx'),
          syncs := synced),
       Success)
  }

  /** A successful BeginPicture gives the surface the slot `Slot(counter, nb)`
      (which is `counter % nb`, SlotIsRemainder) and
      the request number one above it, advances the counter by one, makes the
      surface Rendering and the context's render target; nothing else changes. */
  lemma BeginAssignsSlot(s: Sys, context: Id, target: Id, syncStatus: Status)
    requires s.Valid() && context in s.contexts.live && target in s.surfaces
    requires s.surfaces[target].status != Rendering || syncStatus == Success
    ensures var (s', st) := BeginStep(s, context, target, syncStatus);
            var c := s.Ctx(context).numRenderedSurfaces;
            && st == Success
            && context in s'.contexts.live
            && s'.surfaces.Keys == s.surfaces.Keys
            && s'.surfaces[target].inputBufIndex == Slot(c, s.nb)
            && 0 <= s'.surfaces[target].inputBufIndex < s.nb
            && s'.surfaces[target].request == s'.surfaces[target].inputBufIndex + 1
            && 1 <= s'.surfaces[target].request <= s.nb
            && s'.surfaces[target].status == Rendering
            && s'.surfaces[target].outputBufIndex == s.surfaces[target].outputBufIndex
            && s'.Ctx(context).numRenderedSurfaces == c + 1
            && s'.Ctx(context).renderSurfaceId == target
            && s'.Ctx(context) == s.Ctx(context).(numRenderedSurfaces := c + 1, renderSurfaceId := target)
            && (forall id :: id in s.surfaces && id != target ==> s'.surfaces[id] == s.surfaces[id])
            && (forall id :: id in s.contexts.live && id != context ==> s'.Ctx(id) == s.Ctx(id))
            && s'.contexts.live == s.contexts.live
            && s'.requestFds == s.requestFds && s'.sliceOffset == s.sliceOffset
            && s'.configs == s.configs && s'.buffers == s.buffers
            && s'.device == s.device
  {
  }

  /** The synchronisation is called exactly when the surface is still Rendering;
      when it fails, its status is returned and nothing but the call is recorded. */
  lemma BeginSyncsOnlyRendering(s: Sys, context: Id, target: Id, syncStatus: Status)
    requires s.Valid() && context in s.contexts.live && target in s.surfaces
    ensures var (s', st) := BeginStep(s, context, target, syncStatus);
            && (s.surfaces[target].status == Rendering ==> s'.syncs == s.syncs + [target])
            && (s.surfaces[target].status != Rendering ==> s'.syncs == s.syncs)
            && (s.surfaces[target].status == Rendering && syncStatus != Success ==>
                  st == syncStatus && s' == s.(syncs := s.syncs + [target]))
            && (st == Success <==> (s.surfaces[target].status != Rendering || syncStatus == Success))
  {
  }

  /** The state RenderPicture and EndPicture need: a live context whose render
      target is a surface that BeginPicture has given a slot. */
  ghost predicate PictureReady(s: Sys, context: Id) {
    s.Valid() && context in s.contexts.live &&
    s.Ctx(context).renderSurfaceId in s.surfaces &&
    0 <= s.surfaces[s.Ctx(context).renderSurfaceId].inputBufIndex < s.nb
  }

  /** What RenderPicture needs: a live context, and a render target with a
      slot once the config is found (the config is looked up, and a missing
      one reported, before the render target is). */
  ghost predicate RenderReady(s: Sys, context: Id) {
    s.Valid() && context in s.contexts.live &&
    (s.Ctx(context).configId in s.configs ==> PictureReady(s, context))
  }

  /** A successful BeginPicture makes the context ready for Render and End. */
  lemma BeginMakesReady(s: Sys, context: Id, target: Id, syncStatus: Status)
    requires s.Valid() && context in s.contexts.live && target in s.surfaces
    ensures BeginStep(s, context, target, syncStatus).1 == Success ==>
            PictureReady(BeginStep(s, context, target, syncStatus).0, context)
  {
  }

  method BeginPicture(d: DriverData, context: Id, renderTarget: Id, syncStatus: Status)
    returns (st: Status)
    requires d.Valid() && context in d.contextHeap.live && renderTarget in d.surfaces
    modifies d
    ensures d.Valid()
    ensures (d.Abs(), st) == BeginStep(old(d.Abs()), context, renderTarget, syncStatus)
  {
    st := Success;
    var surface := d.surfaces[renderTarget];
    if surface.status == Rendering {
      d.syncs := d.syncs + [renderTarget];
      st := syncStatus;
      if st != Success {
        return;
      }
    }
    var ctx := d.contextHeap.objects[context];
    SlotIsRemainder(ctx.numRenderedSurfaces, d.nb);
    surface := surface.(status := Rendering,
                        request := ctx.numRenderedSurfaces % d.nb + 1,
                        inputBufIndex := ctx.numRenderedSurfaces % d.nb);
    d.surfaces := d.surfaces[renderTarget := surface];
    ctx := ctx.(numRenderedSurfaces := ctx.numRenderedSurfaces + 1);
    ctx := ctx.(renderSurfaceId := renderTarget);
    d.contextHeap := Store(d.contextHeap, context, ctx);
  }

  // ---------------------------------------------------------------------------
  // RenderPicture
  // ---------------------------------------------------------------------------

  /** What the render loop carries: the overwritten status, the current slot's
      byte offset and the context's frame header. */
  datatype RenderAcc = RenderAcc(status: Status, offset: int, hdr: FrameHeader)

  /** Whether a buffer of this kind is handed to a renderer under this profile. */
  predicate Dispatched(profile: Profile, kind: BufferKind) {
    IsMpeg2(profile) && (kind == SliceData || kind == PictureParameter)
  }

  /** One buffer of the render loop. The renderer's status replaces the loop's;
      `outcome` is what the MPEG-2 slice-data or picture-parameter renderer
      reports. When it succeeds, slice data is appended at the slot's offset
      and a picture-parameter buffer is decoded into the frame header. */
  function Dispatch(profile: Profile, id: Id, buf: BufferObject, outcome: Status, acc: RenderAcc): (r: RenderAcc)
    ensures !Dispatched(profile, buf.kind) ==> r == acc
    ensures Dispatched(profile, buf.kind) ==> r.status == outcome
  {
    if !IsMpeg2(profile) then acc
    else match buf.kind
      case SliceData =>
        acc.(status := outcome,
             offset := if outcome == Success then acc.offset + buf.size else acc.offset)
      case PictureParameter =>
        acc.(status := outcome,
             hdr := if outcome == Success then acc.hdr.(pictureParams := Some(id)) else acc.hdr)
      case OtherKind(_) => acc
  }

  /** The render loop over `ids`; `outcomes[i]` is the renderer's report for `ids[i]`. */
  function RenderBuffers(profile: Profile, table: map<Id, BufferObject>, ids: seq<Id>,
                         outcomes: seq<Status>, acc: RenderAcc): (r: RenderAcc)
    requires |outcomes| == |ids|
    ensures r.offset >= acc.offset
    decreases |ids|
  {
    if ids == [] then acc
    else if ids[0] !in table then acc.(status := InvalidBuffer)
    else RenderBuffers(profile, table, ids[1..], outcomes[1..],
                       Dispatch(profile, ids[0], table[ids[0]], outcomes[0], acc))
  }

  /** RenderPicture. */
  function RenderStep(s: Sys, context: Id, bufferIds: seq<Id>, outcomes: seq<Status>): (r: (Sys, Status))
    requires RenderReady(s, context) && |outcomes| == |bufferIds|
    ensures r.0.Valid()
    ensures r.0.device == s.device && r.0.surfaces == s.surfaces && r.0.requestFds == s.requestFds
    ensures r.0.contexts.live == s.contexts.live
    ensures forall j :: 0 <= j < s.nb ==> r.0.sliceOffset[j] >= s.sliceOffset[j]
  {
    var ctx := s.Ctx(context);
    if ctx.configId !in s.configs then (s, InvalidConfig)
    else
      var idx := s.surfaces[ctx.renderSurfaceId].inputBufIndex;
      var acc := RenderBuffers(s.configs[ctx.configId].profile, s.buffers, bufferIds, outcomes,
                               RenderAcc(Success, s.sliceOffset[idx], ctx.frameHdr));
      (s.(sliceOffset := s.sliceOffset[idx := acc.offset],
          contexts := Store(s.contexts, context, ctx.(frameHdr := acc.hdr))),
       acc.status)
  }

  /** The slice-data bytes the renderer accepted, over buffers that all resolve. */
  function AcceptedSliceBytes(table: map<Id, BufferObject>, ids: seq<Id>, outcomes: seq<Status>): nat
    requires |outcomes| == |ids|
    requires forall i :: 0 <= i < |ids| ==> ids[i] in table
  {
    if ids == [] then 0
    else (if table[ids[0]].kind == SliceData && outcomes[0] == Success then table[ids[0]].size else 0)
         + AcceptedSliceBytes(table, ids[1..], outcomes[1..])
  }

  /** The status of the last buffer handed to a renderer, or `initial` if none was. */
  function LastDispatchedStatus(profile: Profile, table: map<Id, BufferObject>, ids: seq<Id>,
                                outcomes: seq<Status>, initial: Status): Status
    requires |outcomes| == |ids|
    requires forall i :: 0 <= i < |ids| ==> ids[i] in table
  {
    if ids == [] then initial
    else if Dispatched(profile, table[ids[|ids| - 1]].kind) then outcomes[|ids| - 1]
    else LastDispatchedStatus(profile, table, ids[..|ids| - 1], outcomes[..|ids| - 1], initial)
  }

  /** The last picture-parameter buffer a renderer accepted, or `initial` if
      none was. */
  function LastAcceptedParams(profile: Profile, table: map<Id, BufferObject>, ids: seq<Id>,
                              outcomes: seq<Status>, initial: Option<Id>): Option<Id>
    requires |outcomes| == |ids|
    requires forall i :: 0 <= i < |ids| ==> ids[i] in table
  {
    if ids == [] then initial
    else if Dispatched(profile, table[ids[|ids| - 1]].kind) && table[ids[|ids| - 1]].kind == PictureParameter
            && outcomes[|ids| - 1] == Success
    then Some(ids[|ids| - 1])
    else LastAcceptedParams(profile, table, ids[..|ids| - 1], outcomes[..|ids| - 1], initial)
  }

  /** The loop stops at the first buffer that does not resolve: the result is
      that of the buffers before it, with status InvalidBuffer, whatever follows. */
  lemma {:induction false} RenderStopsAtFirstUnresolved(profile: Profile, table: map<Id, BufferObject>,
                                                        ids: seq<Id>, outcomes: seq<Status>, acc: RenderAcc, k: nat)
    requires |outcomes| == |ids|
    requires k < |ids| && ids[k] !in table
    requires forall i :: 0 <= i < k ==> ids[i] in table
    ensures RenderBuffers(profile, table, ids, outcomes, acc)
         == RenderBuffers(profile, table, ids[..k], outcomes[..k], acc).(status := InvalidBuffer)
  {
    if k > 0 {
      var next := Dispatch(profile, ids[0], table[ids[0]], outcomes[0], acc);
      RenderStopsAtFirstUnresolved(profile, table, ids[1..], outcomes[1..], next, k - 1);
      assert ids[..k][1..] == ids[1..][..k - 1];
      assert outcomes[..k][1..] == outcomes[1..][..k - 1];
    }
  }

  /** Appending one resolved buffer to the list runs the loop one step further. */
  lemma {:induction false} RenderSnoc(profile: Profile, table: map<Id, BufferObject>,
                                      ids: seq<Id>, outcomes: seq<Status>, acc: RenderAcc, id: Id, outcome: Status)
    requires |outcomes| == |ids| && id in table
    requires forall i :: 0 <= i < |ids| ==> ids[i] in table
    ensures RenderBuffers(profile, table, ids + [id], outcomes + [outcome], acc)
         == Dispatch(profile, id, table[id], outcome, RenderBuffers(profile, table, ids, outcomes, acc))
  {
    if ids != [] {
      assert (ids + [id])[1..] == ids[1..] + [id];
      assert (outcomes + [outcome])[1..] == outcomes[1..] + [outcome];
      RenderSnoc(profile, table, ids[1..], outcomes[1..],
                 Dispatch(profile, ids[0], table[ids[0]], outcomes[0], acc), id, outcome);
    }
  }

  /** When every buffer resolves, the loop's status is that of the last buffer
      a renderer saw (earlier statuses are overwritten), or the initial one. */
  lemma {:induction false} RenderStatusIsLastDispatched(profile: Profile, table: map<Id, BufferObject>,
                                                        ids: seq<Id>, outcomes: seq<Status>, acc: RenderAcc)
    requires |outcomes| == |ids|
    requires forall i :: 0 <= i < |ids| ==> ids[i] in table
    ensures RenderBuffers(profile, table, ids, outcomes, acc).status
         == LastDispatchedStatus(profile, table, ids, outcomes, acc.status)
  {
    if ids != [] {
      var n := |ids| - 1;
      RenderStatusIsLastDispatched(profile, table, ids[..n], outcomes[..n], acc);
      RenderSnoc(profile, table, ids[..n], outcomes[..n], acc, ids[n], outcomes[n]);
      assert ids[..n] + [ids[n]] == ids;
      assert outcomes[..n] + [outcomes[n]] == outcomes;
    }
  }

  /** When every buffer resolves, the frame header the loop leaves names the
      last picture-parameter buffer a renderer accepted (or keeps the one it
      had), and its other fields are those it started with. */
  lemma {:induction false} RenderRecordsLastParams(profile: Profile, table: map<Id, BufferObject>,
                                                   ids: seq<Id>, outcomes: seq<Status>, acc: RenderAcc)
    requires |outcomes| == |ids|
    requires forall i :: 0 <= i < |ids| ==> ids[i] in table
    ensures RenderBuffers(profile, table, ids, outcomes, acc).hdr
         == acc.hdr.(pictureParams := LastAcceptedParams(profile, table, ids, outcomes, acc.hdr.pictureParams))
  {
    if ids != [] {
      var n := |ids| - 1;
      RenderRecordsLastParams(profile, table, ids[..n], outcomes[..n], acc);
      RenderSnoc(profile, table, ids[..n], outcomes[..n], acc, ids[n], outcomes[n]);
      assert ids[..n] + [ids[n]] == ids;
      assert outcomes[..n] + [outcomes[n]] == outcomes;
    }
  }

  /** Under an MPEG-2 profile, with every buffer resolving, the slot's offset
      grows by exactly the slice-data bytes the renderer accepted. */
  lemma {:induction false} RenderAccumulatesSliceData(profile: Profile, table: map<Id, BufferObject>,
                                                      ids: seq<Id>, outcomes: seq<Status>, acc: RenderAcc)
    requires IsMpeg2(profile) && |outcomes| == |ids|
    requires forall i :: 0 <= i < |ids| ==> ids[i] in table
    ensures RenderBuffers(profile, table, ids, outcomes, acc).offset
         == acc.offset + AcceptedSliceBytes(table, ids, outcomes)
  {
    if ids != [] {
      RenderAccumulatesSliceData(profile, table, ids[1..], outcomes[1..],
                                 Dispatch(profile, ids[0], table[ids[0]], outcomes[0], acc));
    }
  }

  /** Under any other profile no buffer has an effect: only an unresolved buffer
      changes the status, to InvalidBuffer. */
  lemma {:induction false} RenderIgnoresOtherProfiles(profile: Profile, table: map<Id, BufferObject>,
                                                      ids: seq<Id>, outcomes: seq<Status>, acc: RenderAcc)
    requires !IsMpeg2(profile) && |outcomes| == |ids|
    ensures var r := RenderBuffers(profile, table, ids, outcomes, acc);
            && r.offset == acc.offset && r.hdr == acc.hdr
            && r.status == (if exists i :: 0 <= i < |ids| && ids[i] !in table then InvalidBuffer else acc.status)
  {
    if ids != [] {
      if ids[0] in table {
        RenderIgnoresOtherProfiles(profile, table, ids[1..], outcomes[1..],
                                   Dispatch(profile, ids[0], table[ids[0]], outcomes[0], acc));
        if exists i :: 0 <= i < |ids[1..]| && ids[1..][i] !in table {
          var i :| 0 <= i < |ids[1..]| && ids[1..][i] !in table;
          assert ids[i + 1] !in table;
        }
        if exists i :: 0 <= i < |ids| && ids[i] !in table {
          var i :| 0 <= i < |ids| && ids[i] !in table;
          assert ids[1..][i - 1] !in table;
        }
      }
    }
  }

  /** RenderPicture with a vanished config changes nothing; otherwise it only
      touches the render target's slot offset and the context's frame header. */
  lemma RenderFrame(s: Sys, context: Id, bufferIds: seq<Id>, outcomes: seq<Status>)
    requires RenderReady(s, context) && |outcomes| == |bufferIds|
    ensures var (s', st) := RenderStep(s, context, bufferIds, outcomes);
            var ctx := s.Ctx(context);
            && (ctx.configId !in s.configs ==> s' == s && st == InvalidConfig)
            && (ctx.configId in s.configs ==>
                  var idx := s.surfaces[ctx.renderSurfaceId].inputBufIndex;
                  && (forall j :: 0 <= j < s.nb && j != idx ==> s'.sliceOffset[j] == s.sliceOffset[j])
                  && s'.Ctx(context) == ctx.(frameHdr := s'.Ctx(context).frameHdr)
                  && (forall id :: id in s.contexts.live && id != context ==> s'.Ctx(id) == s.Ctx(id))
                  && s'.contexts.live == s.contexts.live
                  && s'.surfaces == s.surfaces && s'.requestFds == s.requestFds
                  && s'.configs == s.configs && s'.buffers == s.buffers
                  && s'.device == s.device && s'.syncs == s.syncs
                  && PictureReady(s', context))
            && (PictureReady(s, context) ==> PictureReady(s', context))
  {
  }

  method RenderPicture(d: DriverData, context: Id, bufferIds: seq<Id>, outcomes: seq<Status>)
    returns (st: Status)
    requires d.Valid() && RenderReady(d.Abs(), context) && |outcomes| == |bufferIds|
    modifies d, d.sliceOffset
    ensures d.Valid()
    ensures (d.Abs(), st) == RenderStep(old(d.Abs()), context, bufferIds, outcomes)
  {
    var ctx := d.contextHeap.objects[context];
    if ctx.configId !in d.configs {
      return InvalidConfig;
    }
    var profile := d.configs[ctx.configId].profile;
    var idx := d.surfaces[ctx.renderSurfaceId].inputBufIndex;
    ghost var final := RenderBuffers(profile, d.buffers, bufferIds, outcomes,
                                     RenderAcc(Success, d.sliceOffset[idx], ctx.frameHdr));
    st := Success;
    var i := 0;
    while i < |bufferIds|
      invariant 0 <= i <= |bufferIds|
      invariant d.Valid()
      invariant d.configs == old(d.configs) && d.surfaces == old(d.surfaces) && d.buffers == old(d.buffers)
      invariant d.device == old(d.device) && d.syncs == old(d.syncs)
      invariant context in d.contextHeap.live && context in d.contextHeap.objects
      invariant d.contextHeap == Store(old(d.contextHeap), context, ctx.(frameHdr := d.contextHeap.objects[context].frameHdr))
      invariant d.sliceOffset[..] == old(d.sliceOffset[..])[idx := d.sliceOffset[idx]]
      invariant RenderBuffers(profile, d.buffers, bufferIds[i..], outcomes[i..],
                              RenderAcc(st, d.sliceOffset[idx], d.contextHeap.objects[context].frameHdr)) == final
    {
      var id := bufferIds[i];
      if id !in d.buffers {
        st := InvalidBuffer;
        break;
      }
      var buffer := d.buffers[id];
      if IsMpeg2(profile) {
        if buffer.kind == SliceData {
          st := outcomes[i];
          if st == Success {
            d.sliceOffset[idx] := d.sliceOffset[idx] + buffer.size;
          }
        } else if buffer.kind == PictureParameter {
          st := outcomes[i];
          if st == Success {
            var hdr := d.contextHeap.objects[context].frameHdr;
            d.contextHeap := Store(d.contextHeap, context, ctx.(frameHdr := hdr.(pictureParams := Some(id))));
          }
        }
      }
      i := i + 1;
    }
  }

  // ---------------------------------------------------------------------------
  // EndPicture
  // ---------------------------------------------------------------------------

  /** The bytes of bitstream EndPicture submits from the render target's slot:
      the slot's offset under MPEG-2, none under any other profile. */
  function SubmittedBytes(s: Sys, context: Id): int
    requires PictureReady(s, context) && s.Ctx(context).configId in s.configs
  {
    var ctx := s.Ctx(context);
    if IsMpeg2(s.configs[ctx.configId].profile)
    then s.sliceOffset[s.surfaces[ctx.renderSurfaceId].inputBufIndex]
    else 0
  }

  /** The first half of EndPicture: the slot's request is created if it has
      none, the MPEG-2 header gets the slot's bitstream length in bits, the
      slot's offset is reset and the header is attached to the request. The
      request creation and the control-setting ioctl are asserted to succeed;
      `newRequest` is the handle the creation returns. */
  function Submit(s: Sys, context: Id, newRequest: nat): (r: Sys)
    requires PictureReady(s, context) && s.Ctx(context).configId in s.configs
    ensures PictureReady(r, context) && r.Ctx(context).configId in r.configs
    ensures r.surfaces == s.surfaces && r.contexts.live == s.contexts.live
    ensures |s.device.log| < |r.device.log| && r.device.log[..|s.device.log|] == s.device.log
  {
    var ctx := s.Ctx(context);
    var idx := s.surfaces[ctx.renderSurfaceId].inputBufIndex;
    var mpeg2 := IsMpeg2(s.configs[ctx.configId].profile);
    var fd := if s.requestFds[idx] < 0 then newRequest else s.requestFds[idx];
    var dev := if s.requestFds[idx] < 0 then Issue(s.device, NewRequest(newRequest)) else s.device;
    var hdr := ctx.frameHdr.(slicePos := 0, sliceLen := s.sliceOffset[idx] * 8);
    s.(requestFds := s.requestFds[idx := fd],
       sliceOffset := s.sliceOffset[idx := 0],
       contexts := if mpeg2 then Store(s.contexts, context, ctx.(frameHdr := hdr)) else s.contexts,
       device := Issue(dev, SetControls(fd, if mpeg2 then Some(hdr) else None)))
  }

  /** The second half of EndPicture: queue the capture buffer, then the output
      buffer carrying `bytesUsed` bytes under the slot's request; `captureOk`
      and `outputOk` are the results of those two ioctls. */
  function Enqueue(s: Sys, context: Id, bytesUsed: int, captureOk: bool, outputOk: bool): (r: (Sys, Status))
    requires PictureReady(s, context)
    ensures r.0.Valid() && r.0.contexts.live == s.contexts.live
    ensures r.0.requestFds == s.requestFds && r.0.sliceOffset == s.sliceOffset
    ensures |s.device.log| < |r.0.device.log| && r.0.device.log[..|s.device.log|] == s.device.log
  {
    var ctx := s.Ctx(context);
    var target := ctx.renderSurfaceId;
    var surface := s.surfaces[target];
    var idx := surface.inputBufIndex;
    var dev := Issue(s.device, QueueBuf(CaptureQueue, surface.outputBufIndex, None, 0, captureOk));
    var skipped := s.surfaces[target := surface.(status := Skipped)];
    if !captureOk then
      (s.(device := dev, surfaces := skipped), Unknown)
    else
      var dev' := Issue(dev, QueueBuf(OutputQueue, idx, Some(s.requestFds[idx]), bytesUsed, outputOk));
      if !outputOk then
        (s.(device := Issue(dev', DequeueBuf(CaptureQueue, surface.outputBufIndex)), surfaces := skipped), Unknown)
      else
        (s.(device := dev', contexts := Store(s.contexts, context, ctx.(renderSurfaceId := InvalidId))), Success)
  }

  /** EndPicture. */
  function EndStep(s: Sys, context: Id, newRequest: nat, captureOk: bool, outputOk: bool): (r: (Sys, Status))
    requires PictureReady(s, context)
    ensures r.0.Valid() && r.0.nb == s.nb && r.0.contexts.live == s.contexts.live
    ensures |s.device.log| <= |r.0.device.log| && r.0.device.log[..|s.device.log|] == s.device.log
  {
    if s.Ctx(context).configId !in s.configs then (s, InvalidConfig)
    else Enqueue(Submit(s, context, newRequest), context, SubmittedBytes(s, context), captureOk, outputOk)
  }

  /** EndPicture with a vanished config returns InvalidConfig and changes nothing. */
  lemma EndWithoutConfig(s: Sys, context: Id, newRequest: nat, captureOk: bool, outputOk: bool)
    requires PictureReady(s, context) && s.Ctx(context).configId !in s.configs
    ensures EndStep(s, context, newRequest, captureOk, outputOk) == (s, InvalidConfig)
  {
  }

  /** The slot's request is created only when the slot has none yet, and is
      reused otherwise; either way the slot then holds a valid request and no
      other slot's request changes. */
  lemma EndRequestHandle(s: Sys, context: Id, newRequest: nat, captureOk: bool, outputOk: bool)
    requires PictureReady(s, context) && s.Ctx(context).configId in s.configs
    ensures var (s', _) := EndStep(s, context, newRequest, captureOk, outputOk);
            var idx := s.surfaces[s.Ctx(context).renderSurfaceId].inputBufIndex;
            var ops := Issued(s.device, s'.device);
            && s'.requestFds[idx] == (if s.requestFds[idx] < 0 then newRequest else s.requestFds[idx])
            && s'.requestFds[idx] >= 0
            && (forall j :: 0 <= j < s.nb && j != idx ==> s'.requestFds[j] == s.requestFds[j])
            && (s.requestFds[idx] < 0 ==> ops[0] == NewRequest(newRequest))
            && (s.requestFds[idx] >= 0 ==> forall i :: 0 <= i < |ops| ==> !ops[i].NewRequest?)
  {
  }

  /** The bitstream length: under MPEG-2 the header sent is the context's
      accumulated one, its slice length the slot's offset in bits, and the
      output buffer carries that many bytes; under any other profile no header
      is sent, the context's is kept and the output buffer carries none. The
      slot's offset is then zero whatever the enqueues do, and the other slots
      keep theirs. */
  lemma EndSliceLength(s: Sys, context: Id, newRequest: nat, captureOk: bool, outputOk: bool)
    requires PictureReady(s, context) && s.Ctx(context).configId in s.configs
    ensures var (s', _) := EndStep(s, context, newRequest, captureOk, outputOk);
            var ctx := s.Ctx(context);
            var idx := s.surfaces[ctx.renderSurfaceId].inputBufIndex;
            var length := s.sliceOffset[idx];
            var mpeg2 := IsMpeg2(s.configs[ctx.configId].profile);
            var ops := Issued(s.device, s'.device);
            var b := if s.requestFds[idx] < 0 then 1 else 0;
            && s'.sliceOffset[idx] == 0
            && (forall j :: 0 <= j < s.nb && j != idx ==> s'.sliceOffset[j] == s.sliceOffset[j])
            && ops[b].SetControls?
            && (mpeg2 ==> ops[b].hdr == Some(ctx.frameHdr.(slicePos := 0, sliceLen := 8 * length))
                          && s'.Ctx(context).frameHdr == ops[b].hdr.value)
            && (!mpeg2 ==> ops[b].hdr.None? && s'.Ctx(context).frameHdr == ctx.frameHdr)
            && (captureOk ==> ops[b + 2].QueueBuf? && ops[b + 2].bytesUsed == (if mpeg2 then length else 0))
  {
  }

  /** The enqueues: first the capture buffer, then (only if that succeeded) the
      output buffer tagged with the slot's request; if the output enqueue
      fails the capture buffer is dequeued again. */
  lemma EndQueueOrder(s: Sys, context: Id, newRequest: nat, captureOk: bool, outputOk: bool)
    requires PictureReady(s, context) && s.Ctx(context).configId in s.configs
    ensures var (s', _) := EndStep(s, context, newRequest, captureOk, outputOk);
            var surface := s.surfaces[s.Ctx(context).renderSurfaceId];
            var idx := surface.inputBufIndex;
            var ops := Issued(s.device, s'.device);
            var b := if s.requestFds[idx] < 0 then 1 else 0;
            && |s.device.log| <= |s'.device.log|
            && |ops| == b + (if !captureOk then 2 else if outputOk then 3 else 4)
            && ops[b] == SetControls(s'.requestFds[idx], ops[b].hdr)
            && ops[b + 1] == QueueBuf(CaptureQueue, surface.outputBufIndex, None, 0, captureOk)
            && (captureOk ==> ops[b + 2] == QueueBuf(OutputQueue, idx, Some(s'.requestFds[idx]),
                                                      ops[b + 2].bytesUsed, outputOk))
            && (captureOk && !outputOk ==> ops[b + 3] == DequeueBuf(CaptureQueue, surface.outputBufIndex))
  {
  }

  /** Only when both enqueues succeed does EndPicture succeed, and only then is
      the context's render target cleared; a failed enqueue marks the surface
      Skipped and returns Unknown. */
  lemma EndOutcome(s: Sys, context: Id, newRequest: nat, captureOk: bool, outputOk: bool)
    requires PictureReady(s, context) && s.Ctx(context).configId in s.configs
    ensures var (s', st) := EndStep(s, context, newRequest, captureOk, outputOk);
            var target := s.Ctx(context).renderSurfaceId;
            && (st == Success <==> captureOk && outputOk)
            && (st != Success ==> st == Unknown)
            && (s'.Ctx(context).renderSurfaceId == InvalidId <==> st == Success)
            && (st == Success ==> s'.surfaces == s.surfaces)
            && (st != Success ==> s'.surfaces == s.surfaces[target := s.surfaces[target].(status := Skipped)])
            && s'.contexts.live == s.contexts.live
            && (forall id :: id in s.contexts.live && id != context ==> s'.Ctx(id) == s.Ctx(id))
            && s'.Ctx(context) == s.Ctx(context).(renderSurfaceId := s'.Ctx(context).renderSurfaceId,
                                                  frameHdr := s'.Ctx(context).frameHdr)
            && s'.configs == s.configs && s'.buffers == s.buffers && s'.syncs == s.syncs
  {
  }

  /** The render target's slot. */
  function TargetSlot(s: Sys, context: Id): nat
    requires PictureReady(s, context)
  {
    s.surfaces[s.Ctx(context).renderSurfaceId].inputBufIndex
  }

  /** The state EndPicture leaves when the capture enqueue succeeds. */
  function Ended(s: Sys, context: Id, newRequest: nat, outputOk: bool): Sys
    requires PictureReady(s, context) && s.Ctx(context).configId in s.configs
  {
    EndStep(s, context, newRequest, true, outputOk).0
  }

  /** The ioctls that EndPicture issues. */
  function EndOps(s: Sys, context: Id, newRequest: nat, outputOk: bool): seq<DeviceOp>
    requires PictureReady(s, context) && s.Ctx(context).configId in s.configs
  {
    Issued(s.device, Ended(s, context, newRequest, outputOk).device)
  }

  /** Where the control ioctl sits among them: after the request creation, if
      the slot had no request. */
  function ControlsAt(s: Sys, context: Id): nat
    requires PictureReady(s, context)
  {
    if s.requestFds[TargetSlot(s, context)] < 0 then 1 else 0
  }

  /** What EndPicture, with the capture enqueue succeeding, sends for the
      frame in `s`: a control payload on the slot's request carrying `hdr` with its slice fields set
      to `bytes` bytes from position 0, then the output buffer carrying
      `bytes` bytes; the slot is empty afterwards. */
  ghost predicate Sends(s: Sys, context: Id, newRequest: nat, outputOk: bool, hdr: FrameHeader, bytes: int)
    requires PictureReady(s, context) && s.Ctx(context).configId in s.configs
  {
    && |EndOps(s, context, newRequest, outputOk)| > ControlsAt(s, context) + 2
    && EndOps(s, context, newRequest, outputOk)[ControlsAt(s, context)]
       == SetControls(Ended(s, context, newRequest, outputOk).requestFds[TargetSlot(s, context)],
                      Some(hdr.(slicePos := 0, sliceLen := 8 * bytes)))
    && EndOps(s, context, newRequest, outputOk)[ControlsAt(s, context) + 2].QueueBuf?
    && EndOps(s, context, newRequest, outputOk)[ControlsAt(s, context) + 2].queue == OutputQueue
    && EndOps(s, context, newRequest, outputOk)[ControlsAt(s, context) + 2].bytesUsed == bytes
    && Ended(s, context, newRequest, outputOk).sliceOffset[TargetSlot(s, context)] == 0
  }

  /** Under MPEG-2, EndPicture sends the context's frame header and queues
      the bytes the slot holds. */
  lemma EndSendsSlot(s: Sys, context: Id, newRequest: nat, outputOk: bool, hdr: FrameHeader, bytes: int)
    requires PictureReady(s, context)
    requires s.Ctx(context).configId in s.configs && IsMpeg2(s.configs[s.Ctx(context).configId].profile)
    requires hdr == s.Ctx(context).frameHdr && bytes == s.sliceOffset[TargetSlot(s, context)]
    ensures Sends(s, context, newRequest, outputOk, hdr, bytes)
  {
    EndSliceLength(s, context, newRequest, true, outputOk);
    EndQueueOrder(s, context, newRequest, true, outputOk);
  }

  /** The first half of EndPicture in place: create the slot's request if
      needed, set the frame header's slice fields, reset the slot's offset and
      attach the controls to the request; returns the bytes to queue. */
  method SubmitFrame(d: DriverData, context: Id, newRequest: nat) returns (bytesUsed: int)
    requires d.Valid() && PictureReady(d.Abs(), context)
    requires d.contextHeap.objects[context].configId in d.configs
    modifies d, d.requestFds, d.sliceOffset
    ensures d.Valid()
    ensures d.Abs() == Submit(old(d.Abs()), context, newRequest)
    ensures bytesUsed == SubmittedBytes(old(d.Abs()), context)
  {
    var ctx := d.contextHeap.objects[context];
    var profile := d.configs[ctx.configId].profile;
    var idx := d.surfaces[ctx.renderSurfaceId].inputBufIndex;

    var requestFd := d.requestFds[idx];
    if requestFd < 0 {
      d.device := Issue(d.device, NewRequest(newRequest));
      d.requestFds[idx] := newRequest;
      requestFd := newRequest;
    }

    bytesUsed := 0;
    var control: Option<FrameHeader> := None;
    if IsMpeg2(profile) {
      ctx := ctx.(frameHdr := ctx.frameHdr.(slicePos := 0));
      ctx := ctx.(frameHdr := ctx.frameHdr.(sliceLen := d.sliceOffset[idx] * 8));
      d.contextHeap := Store(d.contextHeap, context, ctx);
      bytesUsed := d.sliceOffset[idx];
      control := Some(ctx.frameHdr);
    }
    d.sliceOffset[idx] := 0;

    d.device := Issue(d.device, SetControls(requestFd, control));
  }

  method EndPicture(d: DriverData, context: Id, newRequest: nat, captureOk: bool, outputOk: bool)
    returns (st: Status)
    requires d.Valid() && PictureReady(d.Abs(), context)
    modifies d, d.requestFds, d.sliceOffset
    ensures d.Valid()
    ensures (d.Abs(), st) == EndStep(old(d.Abs()), context, newRequest, captureOk, outputOk)
  {
    var ctx := d.contextHeap.objects[context];
    if ctx.configId !in d.configs {
      return InvalidConfig;
    }
    var bytesUsed := SubmitFrame(d, context, newRequest);

    ctx := d.contextHeap.objects[context];
    var target := ctx.renderSurfaceId;
    var surface := d.surfaces[target];
    var idx := surface.inputBufIndex;
    d.device := Issue(d.device, QueueBuf(CaptureQueue, surface.outputBufIndex, None, 0, captureOk));
    if !captureOk {
      d.surfaces := d.surfaces[target := surface.(status := Skipped)];
      return Unknown;
    }

    d.device := Issue(d.device, QueueBuf(OutputQueue, idx, Some(d.requestFds[idx]), bytesUsed, outputOk));
    if !outputOk {
      d.surfaces := d.surfaces[target := surface.(status := Skipped)];
      d.device := Issue(d.device, DequeueBuf(CaptureQueue, surface.outputBufIndex));
      return Unknown;
    }

    ctx := ctx.(renderSurfaceId := InvalidId);
    d.contextHeap := Store(d.contextHeap, context, ctx);
    st := Success;
  }
}
