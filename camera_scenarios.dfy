/**
 * Call sequences on one camera object, in the order the framework delivers
 * them, with what the lock and the held objects look like afterwards.
 */
module CameraScenarios {
  import opened JavaLang
  import opened Sizes
  import opened SizeNegotiation
  import opened CameraLifecycle

  /** A back-facing camera with one JPEG size and two 4:3 preview sizes. */
  function BackCamera(): CameraInfo
  {
    CameraInfo("0", Some(1), Some(StreamMap(Some([Size(640, 480)]), Some([Size(640, 480), Size(320, 240)]))))
  }

  const DISPLAY: Point := Point(480, 800)

  /**
   * Set up against a 640 x 480 view: the reader gets the one JPEG size, and
   * the preview is 320 x 240, the only 4:3 size within 480 x 480.
   */
  lemma BackCameraSetUp(cameras: seq<CameraInfo>)
    requires cameras == [BackCamera()]
    ensures SetUpOutputs(cameras, 640, 480, DISPLAY)
         == SetUp(Some(Size(640, 480)), Some(Size(320, 240)), Some("0"), Returned)
  {
    var previews := [Size(640, 480), Size(320, 240)];
    var c := Constraints(640, 480, 480, 480, Size(640, 480));
    assert FirstUsable(cameras) == 0;
    assert MaxPreviewBound(DISPLAY) == Size(480, 480);
    assert MaxByArea([Size(640, 480)]) == Size(640, 480);
    assert !Accepted(previews[0], c);
    assert MulInt(320, 480) == 153600;
    assert DivInt(153600, 640) == 240;
    assert Kept(previews[1], c, false);
    assert Sift(previews, c, true) == [] by {
      FilterEmpty(previews, Keep(c, true));
    }
    assert previews[..1] == [Size(640, 480)];
    assert Sift(previews, c, false) == [Size(320, 240)] by {
      FilterEmpty(previews[..1], Keep(c, false));
    }
    assert OptimalSize(previews, c) == Ok(Size(320, 240));
  }

  /** A camera list holding only `BackCamera()`, and what set-up makes of it. */
  method BackCameraOnly() returns (cameras: seq<CameraInfo>)
    ensures SetUpOutputs(cameras, 640, 480, DISPLAY)
         == SetUp(Some(Size(640, 480)), Some(Size(320, 240)), Some("0"), Returned)
  {
    cameras := [BackCamera()];
    BackCameraSetUp(cameras);
  }

  /**
   * A camera object that has asked for the back camera after set-up against
   * a 640 x 480 view; `accessFails` is the framework refusing to open it.
   */
  method OpenBackCamera(accessFails: bool) returns (c: CameraObject)
    ensures fresh(c) && c.Valid() && c.permits == 0 && c.threadRunning
    ensures c.device == None && c.session == None && c.reader == Some(1)
    ensures c.previewSize == Some(Size(320, 240)) && c.cameraId == Some("0")
    ensures c.calls == [NewReader(1, Size(640, 480))] + (if accessFails then [] else [OpenDevice(Some("0"))])
  {
    var cameras := BackCameraOnly();
    c := new CameraObject();
    c.StartBackgroundThread();
    assert c.Valid() && c.permits == 1 && c.calls == [];
    var openSt := c.OpenCamera(640, 480, true, cameras, DISPLAY, 1, accessFails);
    assert SetUpCalls(SetUpOutputs(cameras, 640, 480, DISPLAY), 1) == [NewReader(1, Size(640, 480))];
  }

  /**
   * `openCamera` again for the back camera while a permit is free: the reader
   * is replaced by a new one, without the old one being closed.
   */
  method ReopenBackCamera(c: CameraObject, newReader: Handle) returns (st: Status)
    requires c.Valid() && c.permits > 0 && Close(Reader(newReader)) !in c.calls
    modifies c
    ensures c.Valid() && st == Returned && c.permits == old(c.permits) - 1
    ensures c.reader == Some(newReader) && c.previewSize == Some(Size(320, 240)) && c.cameraId == Some("0")
    ensures c.device == old(c.device) && c.session == old(c.session) && c.threadRunning == old(c.threadRunning)
    ensures c.calls == old(c.calls) + [NewReader(newReader, Size(640, 480)), OpenDevice(Some("0"))]
  {
    var cameras := BackCameraOnly();
    st := c.OpenCamera(640, 480, true, cameras, DISPLAY, newReader, false);
  }

  /** The device opens and the preview session is configured. */
  method StartPreview(c: CameraObject, device: Handle, session: Handle)
    requires c.Valid() && c.reader.Some? && c.previewSize.Some?
    requires Close(Device(device)) !in c.calls && Close(Session(session)) !in c.calls
    modifies c
    ensures c.Valid() && c.permits == old(c.permits) + 1
    ensures c.device == Some(device) && c.session == Some(session)
    ensures c.reader == old(c.reader) && c.previewSize == old(c.previewSize)
    ensures c.threadRunning == old(c.threadRunning)
    ensures c.calls == old(c.calls) + [CreatePreviewSession(device), RepeatPreview(session)]
  {
    var started := c.OnOpened(device);
    c.OnConfigured(session);
  }

  /**
   * Open, start the preview, close: the preview size is the largest 4:3 size
   * within 480 x 480, nothing is held any more, the lock is back to its one
   * permit, and the reader, device and session obtained on the way are each
   * closed exactly once.
   */
  method PreviewThenClose() returns (preview: Option<Size>, permits: nat, device: Option<Handle>,
                                     session: Option<Handle>, reader: Option<Handle>, st: Status,
                                     ghost log: seq<Call>)
    ensures preview == Some(Size(320, 240)) && permits == 1
    ensures device == None && session == None && reader == None && st == Returned
    ensures CloseCount(log, Reader(1)) == 1 && CloseCount(log, Device(2)) == 1 && CloseCount(log, Session(3)) == 1
  {
    var c := OpenBackCamera(false);
    StartPreview(c, 2, 3);
    st := c.CloseCamera();
    preview, permits, device, session, reader := c.previewSize, c.permits, c.device, c.session, c.reader;
    log := c.calls;
    ClosesOfInOrder(Some(3), Some(2), Some(1));
    CloseCountAtMostOne(log, Reader(1));
    CloseCountAtMostOne(log, Device(2));
    CloseCountAtMostOne(log, Session(3));
  }

  /**
   * Device 2 opens with reader 1 (no session is configured yet); a second
   * `openCamera` replaces the reader by reader 4, and the second `onOpened`
   * replaces the device by device 5 before any `onDisconnected` for device 2
   * arrives (the order for a reopen of another camera, or for a disconnect
   * delivered late). Nothing has been closed.
   */
  method ReopenAfterOpened() returns (c: CameraObject)
    ensures fresh(c) && c.Valid() && c.permits == 1 && c.threadRunning
    ensures c.device == Some(5) && c.reader == Some(4) && c.session == None
    ensures forall r :: Close(r) !in c.calls
  {
    c := OpenBackCamera(false);
    var started := c.OnOpened(2);
    assert forall r :: Close(r) !in c.calls;
    var again := ReopenBackCamera(c, 4);
    assert forall r :: Close(r) !in c.calls;
    started := c.OnOpened(5);
  }

  /**
   * Closing after `ReopenAfterOpened` closes the new reader and device
   * once each, and the first reader and device never (a disconnect for
   * device 2 arriving afterwards would close nothing of it).
   */
  method ReopenThenClose() returns (st: Status, ghost log: seq<Call>)
    ensures st == Returned
    ensures CloseCount(log, Reader(1)) == 0 && CloseCount(log, Device(2)) == 0
    ensures CloseCount(log, Reader(4)) == 1 && CloseCount(log, Device(5)) == 1
  {
    var c := ReopenAfterOpened();
    st := c.CloseCamera();
    log := c.calls;
    ClosesOfInOrder(None, Some(5), Some(4));
    CloseCountAtMostOne(log, Reader(1));
    CloseCountAtMostOne(log, Device(2));
    CloseCountAtMostOne(log, Reader(4));
    CloseCountAtMostOne(log, Device(5));
  }

  /**
   * A second `openCamera` of the same camera: the framework disconnects the
   * device of the first open before the second `onOpened`, so device 2 is
   * closed by `onDisconnected`, which also gives a permit back.
   */
  method ReopenSameCamera() returns (c: CameraObject)
    ensures fresh(c) && c.Valid() && c.permits == 2 && c.threadRunning
    ensures c.device == Some(5) && c.reader == Some(4) && c.session == None
    ensures forall r :: Close(r) in c.calls <==> r == Device(2)
  {
    c := OpenBackCamera(false);
    var started := c.OnOpened(2);
    assert forall r :: Close(r) !in c.calls;
    var again := ReopenBackCamera(c, 4);
    assert forall r :: Close(r) !in c.calls;
    var disconnected := c.OnDisconnected(2);
    assert forall r :: Close(r) in c.calls <==> r == Device(2);
    started := c.OnOpened(5);
  }

  /**
   * Closing after `ReopenSameCamera`: both devices are closed once each, the
   * first reader still never, and the lock is left with two permits.
   */
  method ReopenSameCameraThenClose() returns (permits: nat, st: Status, ghost log: seq<Call>)
    ensures st == Returned && permits == 2
    ensures CloseCount(log, Device(2)) == 1 && CloseCount(log, Device(5)) == 1
    ensures CloseCount(log, Reader(1)) == 0 && CloseCount(log, Reader(4)) == 1
  {
    var c := ReopenSameCamera();
    st := c.CloseCamera();
    permits := c.permits;
    log := c.calls;
    ClosesOfInOrder(None, Some(5), Some(4));
    CloseCountAtMostOne(log, Reader(1));
    CloseCountAtMostOne(log, Device(2));
    CloseCountAtMostOne(log, Reader(4));
    CloseCountAtMostOne(log, Device(5));
  }

  /**
   * `closeCamera` while the device is still opening waits for the lock; once
   * `onOpened` gives the permit back, closing goes through.
   */
  method CloseWhileOpening() returns (first: Status, second: Status, permits: nat)
    ensures first == Blocked && second == Returned && permits == 1
  {
    var c := OpenBackCamera(false);
    first := c.CloseCamera();
    var started := c.OnOpened(2);
    second := c.CloseCamera();
    permits := c.permits;
  }

  /**
   * `onOpened` and then `onDisconnected` each give a permit back for the one
   * `openCamera` took, so the lock ends with two permits and two later
   * `openCamera` calls both get through it.
   */
  method DisconnectAfterOpen() returns (afterDisconnect: nat, again: Status, andAgain: Status, left: nat)
    ensures afterDisconnect == 2
    ensures again == Returned && andAgain == Returned && left == 0
  {
    var c := OpenBackCamera(false);
    var started := c.OnOpened(2);
    var disconnected := c.OnDisconnected(2);
    afterDisconnect := c.permits;
    again := ReopenBackCamera(c, 4);
    andAgain := ReopenBackCamera(c, 5);
    left := c.permits;
  }

  /**
   * When the framework refuses to open the device, the permit `openCamera`
   * took is never given back and `closeCamera` waits forever.
   */
  method AccessFailureKeepsLock() returns (permits: nat, st: Status)
    ensures permits == 0 && st == Blocked
  {
    var c := OpenBackCamera(true);
    permits := c.permits;
    st := c.CloseCamera();
  }
}
