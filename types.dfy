/**
 * Value types shared by the decode-context lifecycle and the per-frame
 * submission pipeline: VA-API statuses, profiles, buffer kinds and the
 * records kept in the driver's object tables.
 */
module VaTypes {

  datatype Option<T> = None | Some(value: T)

  /** VAConfigID, VASurfaceID, VABufferID and VAContextID. */
  type Id = int

  /** The "no object" identifier. The context code writes both VA_INVALID and -1;
      in the 32-bit unsigned identifier types both are the all-ones value. */
  const InvalidId: Id := -1

  /** The VAStatus values this core returns; OtherError stands for any other
      status a collaborator (the surface synchronisation, a renderer) may report. */
  datatype Status =
    | Success
    | InvalidConfig
    | InvalidSurface
    | InvalidBuffer
    | AllocationFailed
    | UnsupportedProfile
    | Unknown
    | OtherError(code: int)

  datatype Profile = MPEG2Simple | MPEG2Main | OtherProfile(code: int)

  /** The profiles the Cedrus device decodes: both MPEG-2 profiles. */
  predicate IsMpeg2(p: Profile) {
    p.MPEG2Simple? || p.MPEG2Main?
  }

  /** VASurfaceStatus. */
  datatype SurfaceStatus = Rendering | Displaying | Ready | Skipped

  /** VABufferType, as far as the dispatch distinguishes it. */
  datatype BufferKind = SliceData | PictureParameter | OtherKind(code: int)

  /** object_config: only the profile is read by this core. */
  datatype ConfigObject = ConfigObject(profile: Profile)

  /** object_surface: its completion status, the request number and the input
      slot it was given by BeginPicture, and the capture buffer it decodes into. */
  datatype SurfaceObject = SurfaceObject(
    status: SurfaceStatus,
    request: int,
    inputBufIndex: int,
    outputBufIndex: int)

  /** object_buffer: its kind and the length of its payload in bytes. */
  datatype BufferObject = BufferObject(kind: BufferKind, size: nat)

  /** The MPEG-2 frame header control kept in the context. Besides the slice
      position and length, pictureParams records which picture-parameter buffer
      was last decoded into the header (its field-by-field decoding is done by
      a renderer that is not part of this model). */
  datatype FrameHeader = FrameHeader(slicePos: int, sliceLen: int, pictureParams: Option<Id>)

  const EmptyHeader := FrameHeader(0, 0, None)

  /** object_context. */
  datatype ContextObject = ContextObject(
    configId: Id,
    renderSurfaceId: Id,
    surfacesIds: seq<Id>,
    surfacesCount: int,
    pictureWidth: int,
    pictureHeight: int,
    numRenderedSurfaces: nat,
    flags: int,
    frameHdr: FrameHeader)

  /** The contents of a context slot before CreateContext fills it in. */
  const EmptyContext := ContextObject(InvalidId, InvalidId, [], 0, 0, 0, 0, 0, EmptyHeader)
}
