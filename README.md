# sunxi-cedrus VA-API driver: picture submission and context lifecycle

This project models in Dafny the bookkeeping of the sunxi-cedrus VA-API
driver. The driver sits in front of a stateless V4L2 memory-to-memory decoder
that is driven through the Linux Media Request API. Two parts are modelled:

- **The per-frame submission pipeline** (`src/picture.c`):
  - `BeginPicture` puts the render target in the next slot of a ring of
    `INPUT_BUFFERS_NB` input slots.
  - `RenderPicture` hands each buffer of the frame to the renderer for its
    profile and kind.
  - `EndPicture` turns the slot's bitstream into one media request. It then
    queues the capture buffer and the output buffer, and handles a failure
    of either enqueue.
- **The decode-context lifecycle** (`src/context.c`):
  - `CreateContext` allocates and fills a context, validates its surfaces
    (rolling the context back on a bad one) and programs the device.
  - `DestroyContext` stops the queues, clears the context and frees it.

The model has two layers:

- **Specification functions.** Each entry point is a function on the value of
  the driver's state, `DriverState.Sys`: `BeginStep`, `RenderStep`, `EndStep`,
  `CreateStep` and `DestroyStep`. The lemmas in each module state what the
  source promises about these functions.
- **Methods.** Each entry point is also a method on `DriverState.DriverData`,
  which works in place, as the C code does:
  - the object tables and the device are fields;
  - `request_fds[]` and `slice_offset[]` are arrays;
  - the render loop and the surface-id copy are loops.

  Each method is proved to leave `DriverData.Abs()` equal to its step
  function's result.

The device is a record holding:

- the output format;
- the number of requested buffers;
- the two streaming flags;
- the log of every ioctl issued, in order.

An ioctl whose failure the code handles takes its outcome as a boolean
parameter. An ioctl the code wraps in `assert(... == 0)` is taken to succeed.
The surface synchronisation and the two MPEG-2 renderers are defined outside
these files. Each is modelled by the status it reports, passed in as a
parameter.

Modules:

- `VaTypes` (types.dfy): VA statuses, profiles, and the objects of the
  tables.
- `ObjectHeap` (object_heap.dfy): the id-indexed object table.
- `V4l2Device` (device.dfy): the device.
- `DriverState` (driver_data.dfy): `Sys` and `DriverData`.
- `Picture` (picture.dfy): the submission pipeline.
- `Context` (context.dfy): the context lifecycle.
- `Session` (session.dfy): properties of call sequences.

The model follows the code in seven places that a reader might expect to
behave otherwise:

- BeginPicture synchronises only when the target surface itself is still
  `Rendering`. It does not synchronise because the slot it receives is
  occupied.
- Only the output buffer carries the request; the capture buffer is queued
  without one.
- On an unsupported profile, CreateContext returns after allocating the
  context. When every surface resolved, the context stays live. When one
  did not, the rollback has already freed it. Either way no device call is
  made.
- For an MPEG-2 profile, CreateContext still programs the device and starts
  streaming after a surface-validation failure has rolled the context back.
  It then returns `INVALID_SURFACE`.
- A successful EndPicture clears the context's render target but leaves the
  surface `Rendering`. Nothing in these files ever moves it on. Any number
  of surfaces may therefore be `Rendering` at once, several of them in the
  same slot: a run of N + 1 frames on different surfaces leaves all of them
  `Rendering`, the first and the last in one slot
  (`Session.BeginFramesRotate`, `Session.RingWrapsAround`).
- Only EndPicture resets a slot's byte offset (src/picture.c:208).
  BeginPicture does not (`Picture.BeginAssignsSlot` keeps every offset), and
  an EndPicture that finds the config gone returns before the reset
  (`Picture.EndWithoutConfig`). An EndPicture whose enqueues fail has
  already reset it (`Picture.EndSliceLength`). Slice data rendered for a
  frame that is never ended, or whose EndPicture finds the config gone,
  therefore stays in its slot. The next frame given that slot queues those
  bytes in front of its own. The slot may also hold bytes of another
  context's frame that is still open (see the next point). This is why
  `Session.EndReportsRenderedBytes` counts what the slot held when the frame
  began, as well as what was rendered since.
- The slot arrays (`request_fds[]`, `slice_offset[]`) and the two device
  queues belong to the driver, not to a context, while each context counts
  its frames from 0. So the first frames of two contexts share slot 0, and
  bytes one context renders into a slot are queued by whichever context
  ends a frame in that slot first. DestroyContext on one context stops
  streaming on both queues that every other live context also uses
  (`Context.DestroyClearsAndFrees`). A design in which each session owns
  its ring and its queue pair, streaming for its whole lifetime, would
  behave otherwise.

## Model

| member | source | states |
|---|---|---|
| ObjectHeap.Allocate | src/context.c:68-69 | a context id is fresh (never handed out before), becomes live and holds the initial object; existing objects keep their contents |
| ObjectHeap.Free | src/context.c:114 | a freed id no longer resolves; nothing else in the table changes |
| ObjectHeap.Lookup | src/context.c:157-158 | CONTEXT(id) yields an object exactly when the id is live, and that object; the driver state's context accessor is defined through it |
| ObjectHeap.AllocateFreeRestoresLive | src/context.c:177 | allocating an object, storing into it and then freeing it gives back the same set of live ids (the step of `Context.CreateDestroyNoLeak`) |
| V4l2Device.Issue | src/context.c:134-147 | each ioctl is appended to the device log; S_FMT sets the format, CREATE_BUFS the buffer count, STREAMON/STREAMOFF the streaming state of its queue |
| Picture.Slot | src/picture.c:74-75 | the input slot index of a frame is below INPUT_BUFFERS_NB |
| Picture.SlotIsRemainder | src/picture.c:75 | the slot index is `num_rendered_surfaces % INPUT_BUFFERS_NB` |
| Picture.SlotRepeats | src/picture.c:74-76 | a frame begun a whole number of rounds of INPUT_BUFFERS_NB frames later reuses the same slot |
| Picture.SlotsDistinct | src/picture.c:74-76 | frames begun fewer than INPUT_BUFFERS_NB frames apart use different slots |
| Picture.BeginStep | src/picture.c:52-81 | BeginPicture as a function on the driver's state: it keeps the state well-formed, and keeps the live contexts, the surface ids, the device and both per-slot arrays (BeginPicture issues no ioctl); what it does is stated by the three lemmas below |
| Picture.BeginAssignsSlot | src/picture.c:73-78 | a successful BeginPicture gives the surface slot `Slot(counter, N)` (that is, `counter mod N`) in [0, N) and request slot+1 in [1, N], makes it Rendering and the render target, advances the counter by exactly one, and changes no other surface, context, slot, config, buffer or device state |
| Picture.BeginSyncsOnlyRendering | src/picture.c:67-71 | the sync is called exactly when the surface is still Rendering; when it fails its status is returned and nothing else changes; BeginPicture succeeds iff no failing sync was needed |
| Picture.BeginMakesReady | src/picture.c:73-78 | after a successful BeginPicture the context has a render target with a slot, as RenderPicture and EndPicture need |
| Picture.BeginPicture | src/picture.c:52-81 | the in-place BeginPicture computes BeginStep |
| Picture.Dispatch | src/picture.c:118-128 | a buffer reaches a renderer only under an MPEG-2 profile and only if it is slice data or picture parameters; then the renderer's status replaces the loop's, otherwise nothing changes |
| Picture.RenderBuffers | src/picture.c:108-129 | the render loop over the buffer list: the slot's byte offset it carries never decreases |
| Picture.RenderStep | src/picture.c:83-132 | RenderPicture as a function: it needs the render target only once the config is found, issues no ioctl, leaves surfaces, requests and live contexts alone, and no slot's offset decreases |
| Picture.RenderStopsAtFirstUnresolved | src/picture.c:108-116 | the loop stops at the first buffer id that does not resolve, returning INVALID_BUFFER with exactly the effects of the buffers before it |
| Picture.RenderSnoc | src/picture.c:108-129 | the loop over a list with one more resolved buffer is one more dispatch step |
| Picture.RenderStatusIsLastDispatched | src/picture.c:108-131 | with every buffer resolved, RenderPicture returns the status of the last buffer a renderer saw (earlier statuses are overwritten), or SUCCESS if none was |
| Picture.RenderAccumulatesSliceData | src/picture.c:118-125 | under MPEG-2 the slot's offset grows by exactly the slice-data bytes the renderer accepted |
| Picture.RenderRecordsLastParams | src/picture.c:118-128 | with every buffer resolved, the frame header the loop leaves names the last picture-parameter buffer a renderer accepted, or keeps the one it had if none was; its other fields are unchanged |
| Picture.RenderIgnoresOtherProfiles | src/picture.c:118-128 | under a non-MPEG-2 profile no buffer has an effect; only an unresolved buffer changes the status, to INVALID_BUFFER |
| Picture.RenderFrame | src/picture.c:94-131 | with the config gone RenderPicture returns INVALID_CONFIG and changes nothing; otherwise only the render target's slot offset and the context's frame header change (configs, buffers, surfaces, requests, device and other contexts are kept) |
| Picture.RenderPicture | src/picture.c:83-132 | the in-place render loop, with its early break, computes RenderStep |
| Picture.Submit | src/picture.c:170-221 | the first half of EndPicture: the context stays ready, surfaces and live contexts are kept, and at least one ioctl (the controls) is appended to the device log |
| Picture.Enqueue | src/picture.c:227-247 | the second half of EndPicture: requests and slot offsets are kept, and at least one ioctl (the capture enqueue) is appended to the device log |
| Picture.EndStep | src/picture.c:134-248 | EndPicture as a function: it keeps the state well-formed and only appends to the device log; what it does is stated by the six End lemmas below |
| Picture.EndWithoutConfig | src/picture.c:157-162 | EndPicture with the config gone returns INVALID_CONFIG and changes nothing |
| Picture.EndRequestHandle | src/picture.c:170-175 | a request is created for the slot only when it has none (then it is the first ioctl), and reused otherwise; no other slot's request changes |
| Picture.EndSliceLength | src/picture.c:189-208 | under MPEG-2 the header sent is the context's accumulated header with slice_pos 0 and slice_len = 8 × the slot's offset, and the context keeps that header; otherwise no header is sent and the context's header is unchanged; the output buffer carries the slot's offset in bytes (0 otherwise); the slot's offset becomes 0 and the other slots keep theirs |
| Picture.EndQueueOrder | src/picture.c:217-241 | the ioctls issued are, in order: the optional request creation, the controls on the slot's request, the capture buffer, then (if that succeeded) the output buffer carrying the request, then (if that failed) a dequeue of the capture buffer |
| Picture.EndOutcome | src/picture.c:229-247 | EndPicture succeeds iff both enqueues succeed, and only then clears the render target; on failure it returns UNKNOWN and marks the surface Skipped; no other context field, config or buffer changes |
| Picture.EndSendsSlot | src/picture.c:189-231 | under MPEG-2 with the capture enqueue succeeding, the controls go to the slot's request with the context's header, whose slice fields describe the slot's bytes; the output buffer carries those bytes; the slot is then empty |
| Picture.SubmitFrame | src/picture.c:170-221 | the in-place first half of EndPicture computes Submit and returns the bytes to queue |
| Picture.EndPicture | src/picture.c:134-248 | the in-place EndPicture computes EndStep |
| Context.FirstUnresolved | src/context.c:95-103 | the index of the first surface id that does not resolve: every id before it resolves, and it does not (or it is the length) |
| Context.CopySurfaceIds | src/context.c:95-103 | the copy loop copies the ids in order up to the first one that does not resolve, and returns INVALID_SURFACE exactly when it stopped early |
| Context.SetUpDevice | src/context.c:117-147 | the device gets the MPEG-2 frame format with the picture's size, one plane of INPUT_BUFFER_MAX_SIZE × INPUT_BUFFERS_NB bytes, INPUT_BUFFERS_NB buffers and both queues streaming, through exactly five ioctls in source order |
| Context.NewContext | src/context.c:68-115 | the context-table part of CreateContext: a fresh id is allocated; the status is SUCCESS or INVALID_SURFACE; the id stays live exactly on SUCCESS (it is freed by the rollback otherwise) |
| Context.NewContextRecordsResolvedPrefix | src/context.c:95-115 | the new context keeps all the ids when each resolves and none after a rollback, and the status is SUCCESS iff all resolve |
| Context.CreateStep | src/context.c:47-150 | CreateContext as a function: surfaces and the per-slot arrays are untouched, and a SUCCESS comes with a live context id; the lemmas below state the rest |
| Context.CreateRefusals | src/context.c:61-74 | an unknown config returns INVALID_CONFIG and a full context table ALLOCATION_FAILED, with no state change |
| Context.CreateInitialisesContext | src/context.c:76-84 | a successful CreateContext returns a fresh live id whose context holds the config, no render target, the surfaces, their count, the size, the flags and a zero counter; no other context and nothing outside the table and device changes |
| Context.CreateRollsBackOnInvalidSurface | src/context.c:106-149 | on an unresolved surface the context is rolled back (config -1, no surfaces, count 0, flags 0, id freed); for an MPEG-2 profile the device is still programmed and streaming |
| Context.CreateCopiesResolvedPrefix | src/context.c:95-115 | the surfaces recorded in the context are all the given ids when each resolves, and none otherwise |
| Context.CreateProgramsDevice | src/context.c:117-147 | only MPEG-2 Simple and Main program the device (format, exact buffer count, both queues streaming, ioctls in order); any other profile returns UNSUPPORTED_PROFILE before any device call, with its context still live when every surface resolved |
| Context.AllocateContext | src/context.c:68-115 | the in-place allocation, copy loop and rollback compute NewContext and change nothing else |
| Context.CreateContext | src/context.c:47-150 | the in-place CreateContext computes CreateStep |
| Context.DestroyStep | src/context.c:152-180 | DestroyContext as a function: it always returns SUCCESS and removes exactly the destroyed id from the live contexts |
| Context.DestroyClearsAndFrees | src/context.c:161-179 | DestroyContext always returns SUCCESS, issues stream-off on the output then the capture queue whatever either reports, clears every field but the counter and the frame header, frees the id, and leaves other contexts, slots, surfaces, configs and buffers alone |
| Context.CreateDestroyNoLeak | src/context.c:68-177 | creating a context successfully and destroying it leaves the same contexts live |
| Context.DestroyContext | src/context.c:152-180 | the in-place DestroyContext computes DestroyStep |
| Session.RenderCalls | src/picture.c:83-132 | a run of RenderPicture calls keeps the frame ready and changes, in the context, only its frame header; configs, buffers, surfaces, requests and the device are kept |
| Session.RenderCallsAccumulate | src/picture.c:108-129 | under MPEG-2, with every buffer of every call resolved, a run of RenderPicture calls adds to the slot exactly the slice data accepted over all of them, and leaves in the header the last picture-parameter buffer accepted: the same as one call on all the buffers in order |
| Session.EndReportsRenderedBytes | src/picture.c:118-208 | under MPEG-2, with every buffer resolved, after any run of RenderPicture calls on one context (no other context rendering into the slot in between), EndPicture, when the capture enqueue succeeds, sends the header naming the last accepted picture-parameter buffer, with a length in bits and an output buffer in bytes equal to what the slot held at BeginPicture plus all the slice data accepted since; the slot is empty afterwards |
| Session.BeginFrames | src/picture.c:73-76 | a run of successful BeginPicture calls advances the counter by the run's length |
| Session.BeginFramesRotate | src/picture.c:74-76 | the i-th frame of a run on different surfaces gets slot `(c + i) mod N` and is Rendering |
| Session.BeginFramesKeepsOthers | src/picture.c:73-78 | a run of BeginPicture calls leaves every surface it does not name unchanged |
| Session.BeginFramesDistinct | src/picture.c:74-76 | two frames of such a run begun fewer than N frames apart get different slots |
| Session.RingOfSlots | src/picture.c:74-76 | with N + 1 frames begun, the first N get pairwise different slots and the last reuses the first one's slot |
| Session.RingWrapsAround | src/picture.c:74-76 | in a run of N + 1 BeginPicture calls on different surfaces, the last frame is put in the first one's slot |
| Session.RenderAndEndOneSlice | src/picture.c:83-248 | rendering picture parameters and one 4096-byte slice into slot 0 under MPEG-2 Main, then ending the frame, succeeds and queues 4096 bytes under a header of 4096 × 8 bits that names the picture-parameter buffer, leaving the slot empty |
| Session.OpenForOneFrame | src/context.c:47-150 | a 1920x1080 MPEG-2 Main context on one surface is created, programs the device for that size and adds exactly one live context; BeginPicture on the surface (src/picture.c:52-81) then succeeds and puts the frame in slot 0, leaving configs, buffers and the per-slot arrays as they were |
| Session.DecodeOneFrame | src/context.c:47-150 | the whole life of a context: CreateContext (src/context.c:47-150), BeginPicture, RenderPicture and EndPicture (src/picture.c:52-248) and DestroyContext (src/context.c:152-180); a 1920x1080 MPEG-2 Main context on one surface programs the device, the first frame lands in slot 0, its 4096 bytes are queued on the output queue under its request, and destroying the context restores the live set |

## Left out

- The internals of SunxiCedrusSyncSurface and of the MPEG-2 slice-data and
  picture-parameter renderers are not part of this model.
  - The sync's result is a parameter, and each call is recorded in a ghost
    log.
  - A renderer's result is a parameter. On success, slice data is taken to
    add its size to the slot's offset.
  - Also on success, a picture-parameter buffer is taken to record its id in
    the frame header. The header's other fields are not modelled.
- V4L2 and media-request structure layouts, ioctl numbers and plane
  descriptors are not modelled.
  - Each ioctl is one logged operation.
  - Every `assert(ioctl(...) == 0)` is taken to succeed. The abort when one
    fails is not modelled.
  - The request fd that VIDIOC_NEW_REQUEST returns is a parameter.
- malloc and free are not modelled:
  - the failed-malloc return of CreateContext (src/context.c:89-93), which
    also leaks the allocated context;
  - the freeing of `surfaces_ids`.

  A context's surface list is a sequence of the ids it copied.
- Fields that CreateContext never initialises are not modelled. These are the
  frame header and the untouched parts of a fresh heap object; both start
  from the fixed value `EmptyContext`.
- ObjectHeap.Allocate never reuses a freed id.
  - object_heap.c is not part of this model.
  - A full table is a boolean parameter of CreateContext.
  - Freed objects stay in the table with their cleared fields.
- Picture.Slot: the frame counter is an unbounded natural. The 32-bit
  wrap-around of `num_rendered_surfaces` is not modelled.
- `VA_INVALID` and the `-1` written to ids are both the integer -1. Their
  representation as 32-bit unsigned ids is not modelled. A well-formed
  driver state never has a surface with that id.
- INPUT_BUFFERS_NB and INPUT_BUFFER_MAX_SIZE are defined in a header that is
  not part of this model. They are the driver's constants `nb` (positive) and
  `maxSize`.
- Logging (printf, sunxi_cedrus_msg), buffer payload bytes, mmap contents,
  concurrency and asynchronous decode completion are not modelled.
- The `assert(obj_context)`, `assert(obj_surface)` and `assert(obj_buffer)`
  checks are not modelled as aborts.
  - The first two are preconditions: the context is live and its render
    target resolves. RenderPicture requires the render target only when
    the config is found, because it reports a missing config before its
    `assert(obj_surface)` (src/picture.c:97-105). BeginPicture and
    EndPicture look the surface up first and require it outright.
  - For a buffer, the NULL branch after the assert is modelled, which
    returns INVALID_BUFFER.
