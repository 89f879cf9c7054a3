/**
 * The lifecycle of `CameraObject`: the open/close lock (a `Semaphore(1)`),
 * the camera device, capture session and image reader it holds, the
 * background thread, and the framework callbacks that change them.
 *
 * Framework objects are identified by handles that the caller (in the real
 * system, the camera framework) supplies; the ghost `calls` log records the
 * calls made on the framework, so that contracts can say which objects were
 * closed and in which order.
 */
module CameraLifecycle {
  import opened JavaLang
  import opened Sizes
  import opened SizeNegotiation
  import opened Lookups

  /** The identity of an object handed out by the camera framework. */
  type Handle = nat

  /** A framework object that the camera object holds and has to close. */
  datatype Resource = Device(h: Handle) | Session(h: Handle) | Reader(h: Handle)

  /** The calls the camera object makes on the framework. */
  datatype Call =
    | RequestPermission                       // requestCameraPermission()
    | NewReader(reader: Handle, size: Size)   // ImageReader.newInstance for the largest JPEG size
    | OpenDevice(cameraId: Option<string>)    // CameraManager.openCamera
    | CreatePreviewSession(device: Handle)    // createCaptureSession for the preview
    | RepeatPreview(session: Handle)          // setRepeatingRequest on a configured session
    | Close(resource: Resource)               // close() on a device, session or reader
    | FinishActivity                          // the host activity is finished
    | StopThread                              // the background thread is quit and joined

  /** How a call on the camera object ends. */
  datatype Status =
    | Returned                 // normal return (exceptions that the code catches end here too)
    | Threw(fault: Fault)      // an exception leaves the call
    | Blocked                  // the call waits on the lock and has not done anything yet

  /** `CameraCharacteristics.LENS_FACING_FRONT`. */
  const LENS_FACING_FRONT: int := 0

  /** What `setUpCameraOutputs` reads of one camera. */
  datatype CameraInfo = CameraInfo(id: string, facing: Option<int>, streams: Option<StreamMap>)

  /** A camera that `setUpCameraOutputs` does not skip: not front-facing, and with a stream map. */
  predicate Usable(camera: CameraInfo)
  {
    !(camera.facing.Some? && camera.facing.value == LENS_FACING_FRONT) && camera.streams.Some?
  }

  /** The position of the first camera not skipped, or `|cameras|` when all are skipped. */
  function FirstUsable(cameras: seq<CameraInfo>): (k: nat)
    ensures k <= |cameras|
    ensures k < |cameras| ==> Usable(cameras[k])
    ensures forall j :: 0 <= j < k ==> !Usable(cameras[j])
  {
    if cameras == [] then 0
    else if Usable(cameras[0]) then 0
    else 1 + FirstUsable(cameras[1..])
  }

  /** What `setUpCameraOutputs` changes: the JPEG size a new reader gets, the preview size and camera id, how it ends. */
  datatype SetUp = SetUp(readerSize: Option<Size>, preview: Option<Size>, cameraId: Option<string>, status: Status)

  function SetUpOutputs(cameras: seq<CameraInfo>, width: Int32, height: Int32, display: Point): (e: SetUp)
    ensures e.preview.Some? <==> e.cameraId.Some?
    ensures e.preview.Some? ==> e.readerSize.Some? && e.status == Returned
    ensures e.status != Blocked
  {
    var k := FirstUsable(cameras);
    if k == |cameras| then SetUp(None, None, None, Returned)
    else
      var o := CameraOutputs(cameras[k].streams.value, width, height, display);
      SetUp(
        if o.JpegSizesMissing? || o.JpegSizesEmpty? then None else Some(o.largest),
        if o.Configured? then Some(o.preview) else None,
        if o.Configured? then Some(cameras[k].id) else None,
        if o.JpegSizesEmpty? then Threw(NoSuchElement)
        else if o.PreviewFailed? then Threw(o.fault)
        else Returned)
  }

  /**
   * What set-up settles on: nothing when every camera is skipped; otherwise
   * the reader is sized exactly when the first usable camera lists JPEG sizes,
   * by their largest; a preview size is kept, together with that camera's
   * id, exactly when `OptimalSize` answers against the display bound and the
   * reader's size, and its fault is thrown otherwise; a null JPEG list ends
   * normally and an empty one throws `NoSuchElementException`.
   */
  lemma SetUpOutputsChosen(cameras: seq<CameraInfo>, width: Int32, height: Int32, display: Point)
    ensures var e := SetUpOutputs(cameras, width, height, display);
      FirstUsable(cameras) == |cameras| ==> e == SetUp(None, None, None, Returned)
    ensures var e := SetUpOutputs(cameras, width, height, display);
      var k := FirstUsable(cameras);
      k < |cameras| ==> var m := cameras[k].streams.value;
        && (e.readerSize.Some? <==> m.jpegSizes.Some? && |m.jpegSizes.value| > 0)
        && (e.readerSize.Some? ==> e.readerSize.value == MaxByArea(m.jpegSizes.value))
        && (e.preview.Some? ==>
              && e.cameraId == Some(cameras[k].id) && m.previewSizes.Some?
              && OptimalSize(m.previewSizes.value, Constraints(width, height, MaxPreviewBound(display).width,
                                                               MaxPreviewBound(display).height, e.readerSize.value))
                 == Ok(e.preview.value))
    ensures var e := SetUpOutputs(cameras, width, height, display);
      var k := FirstUsable(cameras);
      k < |cameras| ==> var m := cameras[k].streams.value;
        && (m.jpegSizes.None? ==> e == SetUp(None, None, None, Returned))
        && (m.jpegSizes == Some([]) ==> e == SetUp(None, None, None, Threw(NoSuchElement)))
        && (m.jpegSizes.Some? && |m.jpegSizes.value| > 0 && m.previewSizes.None? ==>
              e.preview == None && e.cameraId == None && e.status == Returned)
    ensures var e := SetUpOutputs(cameras, width, height, display);
      var k := FirstUsable(cameras);
      k < |cameras| ==> var m := cameras[k].streams.value;
        m.jpegSizes.Some? && |m.jpegSizes.value| > 0 && m.previewSizes.Some? ==>
          var bound := MaxPreviewBound(display);
          var r := OptimalSize(m.previewSizes.value,
                               Constraints(width, height, bound.width, bound.height, MaxByArea(m.jpegSizes.value)));
          && (r.Ok? ==> e.preview == Some(r.value) && e.cameraId == Some(cameras[k].id) && e.status == Returned)
          && (r.Err? ==> e.preview == None && e.cameraId == None && e.status == Threw(r.fault))
  {
  }

  /** The calls `setUpCameraOutputs` makes. */
  function SetUpCalls(e: SetUp, newReader: Handle): seq<Call>
  {
    if e.readerSize.Some? then [NewReader(newReader, e.readerSize.value)] else []
  }

  /** The close calls of `closeCamera`: the session, then the device, then the reader, each if held. */
  function ClosesOf(session: Option<Handle>, device: Option<Handle>, reader: Option<Handle>): seq<Call>
  {
    (if session.Some? then [Close(Session(session.value))] else [])
    + (if device.Some? then [Close(Device(device.value))] else [])
    + (if reader.Some? then [Close(Reader(reader.value))] else [])
  }

  function Rank(r: Resource): nat
  {
    match r
    case Session(_) => 0
    case Device(_) => 1
    case Reader(_) => 2
  }

  /**
   * `closeCamera` closes exactly the objects held, each once, and in the order
   * session, device, reader.
   */
  lemma ClosesOfInOrder(session: Option<Handle>, device: Option<Handle>, reader: Option<Handle>)
    ensures var cs := ClosesOf(session, device, reader);
      && (forall i :: 0 <= i < |cs| ==> cs[i].Close?)
      && (forall i, j :: 0 <= i < j < |cs| ==> Rank(cs[i].resource) < Rank(cs[j].resource))
      && (forall h: Handle :: Close(Session(h)) in cs <==> session == Some(h))
      && (forall h: Handle :: Close(Device(h)) in cs <==> device == Some(h))
      && (forall h: Handle :: Close(Reader(h)) in cs <==> reader == Some(h))
  {
  }

  /** Closing an object that is still open keeps every object closed at most once. */
  lemma CloseOpenObject(calls: seq<Call>, r: Resource)
    requires NoRepeatedClose(calls) && Close(r) !in calls
    ensures NoRepeatedClose(calls + [Close(r)])
  {
  }

  /** How many times `r` is closed in `calls`. */
  function CloseCount(calls: seq<Call>, r: Resource): nat
  {
    if calls == [] then 0
    else CloseCount(calls[..|calls| - 1], r) + (if calls[|calls| - 1] == Close(r) then 1 else 0)
  }

  /** In a log without repeated closes, an object is closed once if it is closed at all. */
  lemma {:induction false} CloseCountAtMostOne(calls: seq<Call>, r: Resource)
    requires NoRepeatedClose(calls)
    ensures CloseCount(calls, r) == if Close(r) in calls then 1 else 0
  {
    if calls != [] {
      var p := calls[..|calls| - 1];
      assert NoRepeatedClose(p) by {
        forall i, j | 0 <= i < j < |p| && p[i].Close? ensures p[j] != p[i] {
          assert p[i] == calls[i] && p[j] == calls[j];
        }
      }
      CloseCountAtMostOne(p, r);
      assert calls == p + [calls[|calls| - 1]];
      if calls[|calls| - 1] == Close(r) {
        assert Close(r) !in p by {
          forall i | 0 <= i < |p| ensures p[i] != Close(r) {
            assert p[i] == calls[i];
          }
        }
      }
    }
  }

  /** No framework object is closed twice. */
  ghost predicate NoRepeatedClose(calls: seq<Call>)
  {
    forall i, j :: 0 <= i < j < |calls| && calls[i].Close? ==> calls[j] != calls[i]
  }

  class CameraObject {
    /** The free permits of `mCameraOpenCloseLock`. */
    var permits: nat
    /** `mCameraDevice`, `mCaptureSession`, `mImageReader`. */
    var device: Option<Handle>
    var session: Option<Handle>
    var reader: Option<Handle>
    /** `mBackgroundThread != null`. */
    var threadRunning: bool
    /** `mPreviewSize`, `mCameraId`. */
    var previewSize: Option<Size>
    var cameraId: Option<string>
    /** The calls made on the framework so far, oldest first. */
    ghost var calls: seq<Call>

    /**
     * The object invariant: no framework object has been closed twice, and
     * every object still held is open.
     */
    ghost predicate Valid()
      reads this
    {
      && NoRepeatedClose(calls)
      && (device.Some? ==> Close(Device(device.value)) !in calls)
      && (session.Some? ==> Close(Session(session.value)) !in calls)
      && (reader.Some? ==> Close(Reader(reader.value)) !in calls)
    }

    /** A fresh camera object: one free permit, nothing held, no background thread. */
    constructor ()
      ensures Valid()
      ensures permits == 1 && device == None && session == None && reader == None
      ensures !threadRunning && previewSize == None && cameraId == None && calls == []
    {
      permits := 1;
      device, session, reader := None, None, None;
      threadRunning := false;
      previewSize, cameraId := None, None;
      calls := [];
    }

    /** `startBackgroundThread`: a new background thread replaces the reference to any old one. */
    method StartBackgroundThread()
      modifies this`threadRunning
      ensures threadRunning
    {
      threadRunning := true;
    }

    /**
     * `setUpCameraOutputs`: for the first camera that is not front-facing and
     * has a stream map, size a new image reader by the largest JPEG size and
     * choose the preview size; the reader is replaced before the preview size
     * is chosen, so it stays replaced when that choice throws.
     */
    method SetUpCameraOutputs(cameras: seq<CameraInfo>, width: Int32, height: Int32, display: Point,
                              newReader: Handle)
      returns (st: Status)
      requires Valid()
      requires Close(Reader(newReader)) !in calls
      modifies this`reader, this`previewSize, this`cameraId, this`calls
      ensures Valid()
      ensures var e := SetUpOutputs(cameras, width, height, display);
        && st == e.status
        && reader == (if e.readerSize.Some? then Some(newReader) else old(reader))
        && previewSize == (if e.preview.Some? then e.preview else old(previewSize))
        && cameraId == (if e.cameraId.Some? then e.cameraId else old(cameraId))
        && calls == old(calls) + SetUpCalls(e, newReader)
    {
      var i := 0;
      while i < |cameras|
        invariant 0 <= i <= |cameras|
        invariant forall j :: 0 <= j < i ==> !Usable(cameras[j])
      {
        var camera := cameras[i];
        if camera.facing.Some? && camera.facing.value == LENS_FACING_FRONT {
          i := i + 1;
          continue;
        }
        if camera.streams.None? {
          i := i + 1;
          continue;
        }
        assert FirstUsable(cameras) == i;
        var streams := camera.streams.value;
        if streams.jpegSizes.None? {
          // Arrays.asList(null) throws a NullPointerException, which is caught
          return Returned;
        }
        var jpeg := streams.jpegSizes.value;
        if |jpeg| == 0 {
          return Threw(NoSuchElement);
        }
        var largest := MaxByArea(jpeg);
        reader := Some(newReader);
        calls := calls + [NewReader(newReader, largest)];
        var bound := MaxPreviewBound(display);
        if streams.previewSizes.None? {
          // iterating over a null array throws a NullPointerException, which is caught
          return Returned;
        }
        var chosen := ChooseOptimalSize(streams.previewSizes.value, width, height, bound.width, bound.height, largest);
        if chosen.Err? {
          return Threw(chosen.fault);
        }
        previewSize := Some(chosen.value);
        cameraId := Some(camera.id);
        return Returned;
      }
      st := Returned;
    }

    /**
     * `openCamera`: without permission, ask for it and return. Otherwise set
     * up the outputs, then take a permit of the lock or throw the timeout
     * exception, then ask the framework to open the device; when the
     * framework refuses (`accessFails`, a caught `CameraAccessException`) the
     * permit is kept and never given back.
     */
    method OpenCamera(width: Int32, height: Int32, granted: bool, cameras: seq<CameraInfo>, display: Point,
                      newReader: Handle, accessFails: bool)
      returns (st: Status)
      requires Valid()
      requires Close(Reader(newReader)) !in calls
      modifies this
      ensures Valid()
      ensures device == old(device) && session == old(session) && threadRunning == old(threadRunning)
      ensures !granted ==>
        && st == Returned && permits == old(permits) && calls == old(calls) + [RequestPermission]
        && reader == old(reader) && previewSize == old(previewSize) && cameraId == old(cameraId)
      ensures granted ==> var e := SetUpOutputs(cameras, width, height, display);
        && reader == (if e.readerSize.Some? then Some(newReader) else old(reader))
        && previewSize == (if e.preview.Some? then e.preview else old(previewSize))
        && cameraId == (if e.cameraId.Some? then e.cameraId else old(cameraId))
        && if e.status.Threw? then
             st == e.status && permits == old(permits) && calls == old(calls) + SetUpCalls(e, newReader)
           else if old(permits) == 0 then
             st == Threw(OpenLockTimeout) && permits == 0 && calls == old(calls) + SetUpCalls(e, newReader)
           else
             && st == Returned && permits == old(permits) - 1
             && calls == old(calls) + SetUpCalls(e, newReader) + (if accessFails then [] else [OpenDevice(cameraId)])
    {
      if !granted {
        calls := calls + [RequestPermission];
        return Returned;
      }
      st := SetUpCameraOutputs(cameras, width, height, display, newReader);
      if st.Threw? {
        return;
      }
      if permits == 0 {
        return Threw(OpenLockTimeout);
      }
      permits := permits - 1;
      if accessFails {
        return Returned;
      }
      calls := calls + [OpenDevice(cameraId)];
      st := Returned;
    }

    /**
     * `createCameraPreviewSession`: ask the device for a session on the
     * preview texture and the reader's surface. The preview size, the device
     * and the reader are dereferenced on the way, each throwing when null.
     */
    method CreateCameraPreviewSession() returns (st: Status)
      requires Valid()
      modifies this`calls
      ensures Valid()
      ensures if previewSize.None? || device.None? || reader.None? then
                st == Threw(NullPointer) && calls == old(calls)
              else
                st == Returned && calls == old(calls) + [CreatePreviewSession(device.value)]
    {
      if previewSize.None? || device.None? || reader.None? {
        return Threw(NullPointer);
      }
      calls := calls + [CreatePreviewSession(device.value)];
      st := Returned;
    }

    /** `mStateCallback.onOpened`: give the permit back, keep the device, start the preview session. */
    method OnOpened(camera: Handle) returns (st: Status)
      requires Valid()
      requires Close(Device(camera)) !in calls
      modifies this`permits, this`device, this`calls
      ensures Valid()
      ensures permits == old(permits) + 1 && device == Some(camera)
      ensures if previewSize.None? || reader.None? then
                st == Threw(NullPointer) && calls == old(calls)
              else
                st == Returned && calls == old(calls) + [CreatePreviewSession(camera)]
    {
      permits := permits + 1;
      device := Some(camera);
      st := CreateCameraPreviewSession();
    }

    /**
     * `mStateCallback.onDisconnected`: give the permit back, then close and
     * drop the held device, which throws when no device is held.
     */
    method OnDisconnected(camera: Handle) returns (st: Status)
      requires Valid()
      modifies this`permits, this`device, this`calls
      ensures Valid()
      ensures permits == old(permits) + 1 && device == None
      ensures if old(device).None? then
                st == Threw(NullPointer) && calls == old(calls)
              else
                st == Returned && calls == old(calls) + [Close(Device(old(device).value))]
    {
      permits := permits + 1;
      if device.None? {
        return Threw(NullPointer);
      }
      calls := calls + [Close(Device(device.value))];
      device := None;
      st := Returned;
    }

    /**
     * `mStateCallback.onError`: give the permit back, close the device the
     * framework reports, drop the held one and finish the host activity.
     */
    method OnError(camera: Handle, error: int)
      requires Valid()
      requires Close(Device(camera)) !in calls
      modifies this`permits, this`device, this`calls
      ensures Valid()
      ensures permits == old(permits) + 1 && device == None
      ensures calls == old(calls) + [Close(Device(camera)), FinishActivity]
    {
      permits := permits + 1;
      calls := calls + [Close(Device(camera))];
      device := None;
      calls := calls + [FinishActivity];
    }

    /**
     * The preview session's `onConfigured`: dropped when the device has been
     * closed meanwhile; otherwise keep the session and start the repeating
     * preview request on it.
     */
    method OnConfigured(newSession: Handle)
      requires Valid()
      requires Close(Session(newSession)) !in calls
      modifies this`session, this`calls
      ensures Valid()
      ensures device.None? ==> session == old(session) && calls == old(calls)
      ensures device.Some? ==> session == Some(newSession) && calls == old(calls) + [RepeatPreview(newSession)]
    {
      if device.None? {
        return;
      }
      session := Some(newSession);
      calls := calls + [RepeatPreview(newSession)];
    }

    /**
     * `takePicture` up to the request it builds: it throws without a device
     * or without a stream map, picks the still size, and sets the JPEG
     * orientation from the display rotation.
     */
    method TakePicture(streams: Option<StreamMap>, rotation: int) returns (r: Result<StillRequest>)
      ensures device.None? ==> r == Err(CameraAccess)
      ensures device.Some? && streams.None? ==> r == Err(NullPointer)
      ensures device.Some? && streams.Some? ==>
        match StillCaptureSize(streams.value.jpegSizes)
        case Err(f) => r == Err(f)
        case Ok(s) => r == Ok(StillRequest(device.value, s, JpegOrientation(rotation)))
      ensures r.Ok? ==> r.value.orientation == (if 0 <= rotation <= 3 then 90 * rotation else 0)
    {
      if device.None? {
        return Err(CameraAccess);
      }
      if streams.None? {
        // Objects.requireNonNull on the stream map
        return Err(NullPointer);
      }
      var size := StillCaptureSize(streams.value.jpegSizes);
      if size.Err? {
        return Err(size.fault);
      }
      var orientation := JpegOrientation(rotation);
      r := Ok(StillRequest(device.value, size.value, orientation));
    }

    /** The still capture's `onCaptureCompleted`: the preview session is created again. */
    method OnCaptureCompleted() returns (st: Status)
      requires Valid()
      modifies this`calls
      ensures Valid()
      ensures if previewSize.None? || device.None? || reader.None? then
                st == Threw(NullPointer) && calls == old(calls)
              else
                st == Returned && calls == old(calls) + [CreatePreviewSession(device.value)]
    {
      st := CreateCameraPreviewSession();
    }

    /** The body of `closeCamera`'s `try`: close and drop the session, the device and the reader, each if held. */
    method CloseHeld()
      requires Valid()
      modifies this`session, this`device, this`reader, this`calls
      ensures Valid()
      ensures session == None && device == None && reader == None
      ensures calls == old(calls) + ClosesOf(old(session), old(device), old(reader))
    {
      if session.Some? {
        CloseOpenObject(calls, Session(session.value));
        calls := calls + [Close(Session(session.value))];
        session := None;
      }
      if device.Some? {
        CloseOpenObject(calls, Device(device.value));
        calls := calls + [Close(Device(device.value))];
        device := None;
      }
      if reader.Some? {
        CloseOpenObject(calls, Reader(reader.value));
        calls := calls + [Close(Reader(reader.value))];
        reader := None;
      }
    }

    /**
     * `closeCamera`: wait for a permit; close and drop the session, the device
     * and the reader, in that order; give the permit back; then stop the
     * background thread, which throws when there is none.
     */
    method CloseCamera() returns (st: Status)
      requires Valid()
      modifies this
      ensures Valid()
      ensures old(permits) == 0 ==> st == Blocked && unchanged(this)
      ensures old(permits) > 0 ==>
        && session == None && device == None && reader == None
        && permits == old(permits)
        && !threadRunning
        && previewSize == old(previewSize) && cameraId == old(cameraId)
        && calls == old(calls) + ClosesOf(old(session), old(device), old(reader))
                   + (if old(threadRunning) then [StopThread] else [])
        && st == (if old(threadRunning) then Returned else Threw(NullPointer))
    {
      if permits == 0 {
        return Blocked;
      }
      permits := permits - 1;
      CloseHeld();
      // finally
      permits := permits + 1;
      // stopBackgroundThread
      if !threadRunning {
        return Threw(NullPointer);
      }
      calls := calls + [StopThread];
      threadRunning := false;
      st := Returned;
    }
  }

  /** The still-capture request `takePicture` builds. */
  datatype StillRequest = StillRequest(device: Handle, size: Size, orientation: int)
}
