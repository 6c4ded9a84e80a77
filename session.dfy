/**
 * Properties of whole call sequences: a frame's submitted length is what was
 * rendered into its slot, consecutive frames of a context rotate through the
 * slots, and a context can be opened, used for a frame and closed.
 */
module Session {
  import opened VaTypes
  import opened V4l2Device
  import opened DriverState
  import opened Picture
  import opened Context

  /** One RenderPicture call: the buffer ids and the renderer's report for each. */
  datatype RenderCall = RenderCall(ids: seq<Id>, outcomes: seq<Status>)

  predicate WellFormedCalls(calls: seq<RenderCall>) {
    forall i :: 0 <= i < |calls| ==> |calls[i].outcomes| == |calls[i].ids|
  }

  /** RenderPicture on each of `calls` in turn. */
  function RenderCalls(s: Sys, context: Id, calls: seq<RenderCall>): (r: Sys)
    requires PictureReady(s, context) && WellFormedCalls(calls)
    ensures PictureReady(r, context) && r.nb == s.nb
    ensures r.configs == s.configs && r.buffers == s.buffers && r.surfaces == s.surfaces
    ensures r.requestFds == s.requestFds && r.device == s.device
    ensures r.Ctx(context) == s.Ctx(context).(frameHdr := r.Ctx(context).frameHdr)
    decreases |calls|
  {
    if calls == [] then s
    else
      RenderFrame(s, context, calls[0].ids, calls[0].outcomes);
      RenderCalls(RenderStep(s, context, calls[0].ids, calls[0].outcomes).0, context, calls[1..])
  }

  /** All the calls' buffers, in order, as one list. */
  function Flatten(calls: seq<RenderCall>): (r: RenderCall)
    requires WellFormedCalls(calls)
    ensures |r.outcomes| == |r.ids|
    decreases |calls|
  {
    if calls == [] then RenderCall([], [])
    else
      var rest := Flatten(calls[1..]);
      RenderCall(calls[0].ids + rest.ids, calls[0].outcomes + rest.outcomes)
  }

  lemma {:induction false} AcceptedSliceBytesAppend(table: map<Id, BufferObject>, a: seq<Id>, oa: seq<Status>,
                                                    b: seq<Id>, ob: seq<Status>)
    requires |oa| == |a| && |ob| == |b|
    requires forall i :: 0 <= i < |a| ==> a[i] in table
    requires forall i :: 0 <= i < |b| ==> b[i] in table
    ensures AcceptedSliceBytes(table, a + b, oa + ob)
         == AcceptedSliceBytes(table, a, oa) + AcceptedSliceBytes(table, b, ob)
  {
    if a != [] {
      assert (a + b)[1..] == a[1..] + b;
      assert (oa + ob)[1..] == oa[1..] + ob;
      AcceptedSliceBytesAppend(table, a[1..], oa[1..], b, ob);
    } else {
      assert a + b == b && oa + ob == ob;
    }
  }

  lemma {:induction false} LastAcceptedParamsAppend(profile: Profile, table: map<Id, BufferObject>,
                                                    a: seq<Id>, oa: seq<Status>, b: seq<Id>, ob: seq<Status>,
                                                    initial: Option<Id>)
    requires |oa| == |a| && |ob| == |b|
    requires forall i :: 0 <= i < |a| ==> a[i] in table
    requires forall i :: 0 <= i < |b| ==> b[i] in table
    ensures LastAcceptedParams(profile, table, a + b, oa + ob, initial)
         == LastAcceptedParams(profile, table, b, ob, LastAcceptedParams(profile, table, a, oa, initial))
  {
    if b == [] {
      assert a + b == a && oa + ob == oa;
    } else {
      var n := |b| - 1;
      assert (a + b)[..|a + b| - 1] == a + b[..n];
      assert (oa + ob)[..|oa + ob| - 1] == oa + ob[..n];
      LastAcceptedParamsAppend(profile, table, a, oa, b[..n], ob[..n], initial);
    }
  }

  /** Under MPEG-2, when every buffer of every call resolves, a run of
      RenderPicture calls adds to the slot's offset exactly the slice data
      the renderer accepted over all of them, and leaves in the frame header
      the last picture-parameter buffer it accepted: the same as one call on
      all the buffers in order. */
  lemma {:induction false} RenderCallsAccumulate(s: Sys, context: Id, calls: seq<RenderCall>)
    requires PictureReady(s, context) && WellFormedCalls(calls)
    requires s.Ctx(context).configId in s.configs && IsMpeg2(s.configs[s.Ctx(context).configId].profile)
    requires forall i :: 0 <= i < |Flatten(calls).ids| ==> Flatten(calls).ids[i] in s.buffers
    ensures var r := RenderCalls(s, context, calls);
            var all := Flatten(calls);
            var slot := TargetSlot(s, context);
            var hdr := s.Ctx(context).frameHdr;
            && r.sliceOffset[slot] == s.sliceOffset[slot] + AcceptedSliceBytes(s.buffers, all.ids, all.outcomes)
            && r.Ctx(context).frameHdr
               == hdr.(pictureParams := LastAcceptedParams(s.configs[s.Ctx(context).configId].profile, s.buffers,
                                                           all.ids, all.outcomes, hdr.pictureParams))
    decreases |calls|
  {
    if calls != [] {
      var ctx := s.Ctx(context);
      var profile := s.configs[ctx.configId].profile;
      var c := calls[0];
      var rest := Flatten(calls[1..]);
      assert Flatten(calls).ids == c.ids + rest.ids;
      assert forall i :: 0 <= i < |c.ids| ==> c.ids[i] == Flatten(calls).ids[i];
      assert forall i :: 0 <= i < |rest.ids| ==> rest.ids[i] == Flatten(calls).ids[|c.ids| + i];
      var acc := RenderAcc(Success, s.sliceOffset[TargetSlot(s, context)], ctx.frameHdr);
      RenderAccumulatesSliceData(profile, s.buffers, c.ids, c.outcomes, acc);
      RenderRecordsLastParams(profile, s.buffers, c.ids, c.outcomes, acc);
      RenderFrame(s, context, c.ids, c.outcomes);
      var s1 := RenderStep(s, context, c.ids, c.outcomes).0;
      RenderCallsAccumulate(s1, context, calls[1..]);
      AcceptedSliceBytesAppend(s.buffers, c.ids, c.outcomes, rest.ids, rest.outcomes);
      LastAcceptedParamsAppend(profile, s.buffers, c.ids, c.outcomes, rest.ids, rest.outcomes, ctx.frameHdr.pictureParams);
    }
  }

  /** The bytes a run of RenderPicture calls leaves in the render target's
      slot: what the slot held before, plus the slice data accepted. */
  function RenderedBytes(s: Sys, context: Id, calls: seq<RenderCall>): int
    requires PictureReady(s, context) && WellFormedCalls(calls)
    requires forall i :: 0 <= i < |Flatten(calls).ids| ==> Flatten(calls).ids[i] in s.buffers
  {
    s.sliceOffset[TargetSlot(s, context)]
      + AcceptedSliceBytes(s.buffers, Flatten(calls).ids, Flatten(calls).outcomes)
  }

  /** The frame header a run of RenderPicture calls leaves: the context's,
      naming the last picture-parameter buffer accepted. */
  function RenderedHeader(s: Sys, context: Id, calls: seq<RenderCall>): FrameHeader
    requires PictureReady(s, context) && WellFormedCalls(calls) && s.Ctx(context).configId in s.configs
    requires forall i :: 0 <= i < |Flatten(calls).ids| ==> Flatten(calls).ids[i] in s.buffers
  {
    var hdr := s.Ctx(context).frameHdr;
    hdr.(pictureParams := LastAcceptedParams(s.configs[s.Ctx(context).configId].profile, s.buffers,
                                             Flatten(calls).ids, Flatten(calls).outcomes, hdr.pictureParams))
  }

  /** Under MPEG-2, when every buffer resolves, the bytes EndPicture queues
      (and the header's length in bits) are what the slot held when the frame
      began plus the slice data the renderer accepted over all the
      RenderPicture calls between BeginPicture and EndPicture, and the header
      sent names the last picture-parameter buffer accepted; stated for a
      capture enqueue that succeeds. The slot may hold bytes at BeginPicture:
      BeginPicture does not reset the offset, so they are left by an earlier
      frame in the slot that was never ended or whose EndPicture found the
      config gone, or rendered by another context whose frame in the same
      slot is still open (the slots are shared by all contexts). */
  lemma EndReportsRenderedBytes(s: Sys, context: Id, calls: seq<RenderCall>, newRequest: nat, outputOk: bool)
    requires PictureReady(s, context) && WellFormedCalls(calls)
    requires s.Ctx(context).configId in s.configs && IsMpeg2(s.configs[s.Ctx(context).configId].profile)
    requires forall i :: 0 <= i < |Flatten(calls).ids| ==> Flatten(calls).ids[i] in s.buffers
    ensures PictureReady(RenderCalls(s, context, calls), context)
    ensures RenderCalls(s, context, calls).Ctx(context).configId in RenderCalls(s, context, calls).configs
    ensures Sends(RenderCalls(s, context, calls), context, newRequest, outputOk,
                  RenderedHeader(s, context, calls), RenderedBytes(s, context, calls))
  {
    RenderCallsAccumulate(s, context, calls);
    var rendered := RenderCalls(s, context, calls);
    assert TargetSlot(rendered, context) == TargetSlot(s, context);
    EndSendsSlot(rendered, context, newRequest, outputOk, RenderedHeader(s, context, calls), RenderedBytes(s, context, calls));
  }

  /** BeginPicture on each of `targets` in turn, every synchronisation succeeding. */
  function BeginFrames(s: Sys, context: Id, targets: seq<Id>): (r: Sys)
    requires s.Valid() && context in s.contexts.live
    requires forall i :: 0 <= i < |targets| ==> targets[i] in s.surfaces
    ensures r.Valid() && context in r.contexts.live && r.surfaces.Keys == s.surfaces.Keys
    ensures r.Ctx(context).numRenderedSurfaces == s.Ctx(context).numRenderedSurfaces + |targets|
    decreases |targets|
  {
    if targets == [] then s
    else
      BeginAssignsSlot(s, context, targets[0], Success);
      BeginFrames(BeginStep(s, context, targets[0], Success).0, context, targets[1..])
  }

  /** The i-th of a run of BeginPicture calls on different surfaces gets the
      slot `(c + i) mod nb`, where c is the context's counter before the run. */
  lemma {:induction false} BeginFramesRotate(s: Sys, context: Id, targets: seq<Id>, i: nat)
    requires s.Valid() && context in s.contexts.live
    requires forall j :: 0 <= j < |targets| ==> targets[j] in s.surfaces
    requires forall j, k :: 0 <= j < k < |targets| ==> targets[j] != targets[k]
    requires i < |targets|
    ensures BeginFrames(s, context, targets).surfaces[targets[i]].inputBufIndex
         == Slot(s.Ctx(context).numRenderedSurfaces + i, s.nb)
    ensures BeginFrames(s, context, targets).surfaces[targets[i]].status == Rendering
    decreases |targets|
  {
    var c := s.Ctx(context).numRenderedSurfaces;
    BeginAssignsSlot(s, context, targets[0], Success);
    var s1 := BeginStep(s, context, targets[0], Success).0;
    if i == 0 {
      BeginFramesKeepsOthers(s1, context, targets[1..], targets[0]);
    } else {
      BeginFramesRotate(s1, context, targets[1..], i - 1);
      assert targets[1..][i - 1] == targets[i];
      assert c + 1 + (i - 1) == c + i;
    }
  }

  /** A run of BeginPicture calls leaves every surface it does not name alone. */
  lemma {:induction false} BeginFramesKeepsOthers(s: Sys, context: Id, targets: seq<Id>, other: Id)
    requires s.Valid() && context in s.contexts.live
    requires forall j :: 0 <= j < |targets| ==> targets[j] in s.surfaces
    requires other in s.surfaces && forall j :: 0 <= j < |targets| ==> targets[j] != other
    ensures BeginFrames(s, context, targets).surfaces[other] == s.surfaces[other]
    decreases |targets|
  {
    if targets != [] {
      BeginAssignsSlot(s, context, targets[0], Success);
      BeginFramesKeepsOthers(BeginStep(s, context, targets[0], Success).0, context, targets[1..], other);
    }
  }

  /** Two frames of such a run begun fewer than nb frames apart get different slots. */
  lemma BeginFramesDistinct(s: Sys, context: Id, targets: seq<Id>, j: nat, k: nat)
    requires s.Valid() && context in s.contexts.live
    requires forall i :: 0 <= i < |targets| ==> targets[i] in s.surfaces
    requires forall i, l :: 0 <= i < l < |targets| ==> targets[i] != targets[l]
    requires j < k < |targets| && k - j < s.nb
    ensures BeginFrames(s, context, targets).surfaces[targets[j]].inputBufIndex
         != BeginFrames(s, context, targets).surfaces[targets[k]].inputBufIndex
  {
    var c := s.Ctx(context).numRenderedSurfaces;
    BeginFramesRotate(s, context, targets, j);
    BeginFramesRotate(s, context, targets, k);
    SlotsDistinct(c + j, c + k, s.nb);
  }

  /** With nb + 1 frames begun on different surfaces, the first nb get pairwise
      different slots and the last one is put in the first one's slot: the
      ring of slots wraps around after nb frames. */
  lemma RingOfSlots(s: Sys, context: Id, targets: seq<Id>)
    requires s.Valid() && context in s.contexts.live
    requires |targets| == s.nb + 1
    requires forall j :: 0 <= j < |targets| ==> targets[j] in s.surfaces
    requires forall j, k :: 0 <= j < k < |targets| ==> targets[j] != targets[k]
    ensures var r := BeginFrames(s, context, targets);
            && r.surfaces[targets[s.nb]].inputBufIndex == r.surfaces[targets[0]].inputBufIndex
            && forall j, k :: 0 <= j < k < s.nb ==>
                 r.surfaces[targets[j]].inputBufIndex != r.surfaces[targets[k]].inputBufIndex
  {
    RingWrapsAround(s, context, targets);
    forall j, k | 0 <= j < k < s.nb
      ensures BeginFrames(s, context, targets).surfaces[targets[j]].inputBufIndex
           != BeginFrames(s, context, targets).surfaces[targets[k]].inputBufIndex
    {
      BeginFramesDistinct(s, context, targets, j, k);
    }
  }

  /** Frame nb of such a run is put in the slot of frame 0. */
  lemma RingWrapsAround(s: Sys, context: Id, targets: seq<Id>)
    requires s.Valid() && context in s.contexts.live
    requires |targets| == s.nb + 1
    requires forall j :: 0 <= j < |targets| ==> targets[j] in s.surfaces
    requires forall j, k :: 0 <= j < k < |targets| ==> targets[j] != targets[k]
    ensures BeginFrames(s, context, targets).surfaces[targets[s.nb]].inputBufIndex
         == BeginFrames(s, context, targets).surfaces[targets[0]].inputBufIndex
  {
    BeginFramesRotate(s, context, targets, 0);
    BeginFramesRotate(s, context, targets, s.nb);
    SlotRepeats(s.Ctx(context).numRenderedSurfaces, 1, s.nb);
  }

  /** On a context whose frame has begun in slot 0 under MPEG-2 Main, rendering
      a picture-parameter buffer and a 4096-byte slice succeeds, and ending the
      frame succeeds, queues 4096 bytes on the output queue under a header of
      4096 * 8 bits that names the picture-parameter buffer, and leaves the
      slot empty. */
  lemma RenderAndEndOneSlice(s: Sys, ctx: Id, params: Id, slice: Id, newRequest: nat)
    requires PictureReady(s, ctx) && TargetSlot(s, ctx) == 0 && s.sliceOffset[0] == 0
    requires s.Ctx(ctx).configId in s.configs && s.configs[s.Ctx(ctx).configId].profile == MPEG2Main
    requires params in s.buffers && s.buffers[params].kind == PictureParameter
    requires slice in s.buffers && s.buffers[slice] == BufferObject(SliceData, 4096)
    ensures var (s2, st2) := RenderStep(s, ctx, [params, slice], [Success, Success]);
            && st2 == Success && PictureReady(s2, ctx) && s2.Ctx(ctx).configId in s2.configs
            && var (s3, st3) := EndStep(s2, ctx, newRequest, true, true);
            && st3 == Success
            && s3.sliceOffset[0] == 0
            && var ops := Issued(s2.device, s3.device);
            && var b := if s.requestFds[0] < 0 then 1 else 0;
            && |ops| == b + 3
            && ops[b].hdr == Some(s3.Ctx(ctx).frameHdr) && s3.Ctx(ctx).frameHdr.sliceLen == 4096 * 8
            && s3.Ctx(ctx).frameHdr.pictureParams == Some(params)
            && ops[b + 2] == QueueBuf(OutputQueue, 0, Some(s3.requestFds[0]), 4096, true)
  {
    var ids, outcomes := [params, slice], [Success, Success];
    var acc := RenderAcc(Success, 0, s.Ctx(ctx).frameHdr);
    RenderStatusIsLastDispatched(MPEG2Main, s.buffers, ids, outcomes, acc);
    RenderAccumulatesSliceData(MPEG2Main, s.buffers, ids, outcomes, acc);
    RenderRecordsLastParams(MPEG2Main, s.buffers, ids, outcomes, acc);
    assert ids[..1] == [params] && outcomes[..1] == [Success];
    assert LastAcceptedParams(MPEG2Main, s.buffers, ids, outcomes, acc.hdr.pictureParams) == Some(params);
    assert AcceptedSliceBytes(s.buffers, ids, outcomes) == 4096 by {
      assert ids[1..] == [slice] && outcomes[1..] == [Success];
      assert [slice][1..] == [] && [Success][1..] == [];
      assert AcceptedSliceBytes(s.buffers, [slice], [Success]) == 4096;
    }
    RenderFrame(s, ctx, ids, outcomes);
    var (s2, _) := RenderStep(s, ctx, ids, outcomes);
    EndOutcome(s2, ctx, newRequest, true, true);
    EndQueueOrder(s2, ctx, newRequest, true, true);
    EndSliceLength(s2, ctx, newRequest, true, true);
  }

  /** Opening an MPEG-2 Main context of 1920x1080 on one surface succeeds and
      programs the device for that size, adding exactly the new context to
      the live ones; beginning a frame on the surface then puts it in slot 0,
      ready for RenderPicture and EndPicture, with the configs, buffers and
      per-slot arrays as they were. */
  lemma OpenForOneFrame(s: Sys, configId: Id, surface: Id)
    requires s.Valid() && configId in s.configs && s.configs[configId].profile == MPEG2Main
    requires surface in s.surfaces && s.surfaces[surface].status != Rendering
    ensures var c := CreateStep(s, configId, 1920, 1080, 0, [surface], false);
            && c.status == Success && c.contextId.Some?
            && c.sys.device.format == Some(Format(1920, 1080, Mpeg2Frame, s.maxSize * s.nb, 1))
            && var ctx := c.contextId.value;
            && ctx !in s.contexts.live && c.sys.contexts.live == s.contexts.live + {ctx}
            && var (s1, st1) := BeginStep(c.sys, ctx, surface, Success);
            && st1 == Success && PictureReady(s1, ctx) && TargetSlot(s1, ctx) == 0
            && s1.Ctx(ctx).configId == configId && s1.configs == s.configs && s1.buffers == s.buffers
            && s1.sliceOffset == s.sliceOffset && s1.requestFds == s.requestFds
            && s1.contexts.live == c.sys.contexts.live
  {
    CreateInitialisesContext(s, configId, 1920, 1080, 0, [surface]);
    CreateProgramsDevice(s, configId, 1920, 1080, 0, [surface]);
    var c := CreateStep(s, configId, 1920, 1080, 0, [surface], false);
    BeginAssignsSlot(c.sys, c.contextId.value, surface, Success);
    BeginMakesReady(c.sys, c.contextId.value, surface, Success);
  }

  /** A context's whole life: opening it on one surface (OpenForOneFrame),
      rendering a picture-parameter buffer and a 4096-byte slice into its
      first frame and ending the frame (RenderAndEndOneSlice) queues those
      4096 bytes on the output queue under the slot's request, and closing
      the context afterwards leaves the same contexts live as before. */
  lemma DecodeOneFrame(s: Sys, configId: Id, surface: Id, params: Id, slice: Id, newRequest: nat)
    requires s.Valid() && configId in s.configs && s.configs[configId].profile == MPEG2Main
    requires surface in s.surfaces && s.surfaces[surface].status != Rendering
    requires params in s.buffers && s.buffers[params].kind == PictureParameter
    requires slice in s.buffers && s.buffers[slice] == BufferObject(SliceData, 4096)
    requires s.sliceOffset[0] == 0
    ensures var c := CreateStep(s, configId, 1920, 1080, 0, [surface], false);
            && c.status == Success && c.contextId.Some?
            && c.sys.device.format == Some(Format(1920, 1080, Mpeg2Frame, s.maxSize * s.nb, 1))
            && var ctx := c.contextId.value;
            && var begun := BeginStep(c.sys, ctx, surface, Success);
            && begun.1 == Success && PictureReady(begun.0, ctx) && TargetSlot(begun.0, ctx) == 0
            && var s2 := RenderStep(begun.0, ctx, [params, slice], [Success, Success]).0;
            && PictureReady(s2, ctx) && s2.Ctx(ctx).configId in s2.configs
            && var ended := EndStep(s2, ctx, newRequest, true, true);
            && ended.1 == Success
            && Issued(s2.device, ended.0.device)[if s.requestFds[0] < 0 then 3 else 2]
               == QueueBuf(OutputQueue, 0, Some(ended.0.requestFds[0]), 4096, true)
            && DestroyStep(ended.0, ctx, true, true).0.contexts.live == s.contexts.live
  {
    OpenForOneFrame(s, configId, surface);
    var c := CreateStep(s, configId, 1920, 1080, 0, [surface], false);
    var ctx := c.contextId.value;
    RenderAndEndOneSlice(BeginStep(c.sys, ctx, surface, Success).0, ctx, params, slice, newRequest);
  }
}
