# CameraObject: camera session lifecycle and preview-size negotiation

`CameraObject` wraps one Android camera for a head-mounted display. It does four things:

- It chooses the output sizes. The image reader, which the preview session also writes to, gets the largest JPEG size. The preview size is chosen against the aspect ratio of the largest JPEG size, within a bound of at most 480 x 480 and the display; the view's size only decides which sizes are big enough. When no preview size qualifies, the first one is taken, which need not fit that bound.
- It holds the camera device, the preview capture session and the image reader.
- It serialises opening and closing with a one-permit semaphore. The device callbacks `onOpened`, `onDisconnected` and `onError` give the permit back and change the device held. The session's `onConfigured` changes the session held and does not touch the lock.
- It builds the still-capture request, and its `ImageSaver` copies a captured frame into a file.

The Dafny project models this in seven modules:

| file | module | what it holds |
|---|---|---|
| `java_lang.dfy` | `JavaLang` | Java `int`/`long` as bounded integers, two's-complement wrap-around, truncating division, `Long.signum`, exceptions as values (`Fault`, `Result`, `Option`) |
| `sizes.dfy` | `Sizes` | `Size`, the `CompareSizesByArea` comparator, `Collections.min`/`max` with it |
| `size_negotiation.dfy` | `SizeNegotiation` | `chooseOptimalSize` as a function and as the loop the code runs, the display bound, the per-camera part of `setUpCameraOutputs` |
| `lookups.dfy` | `Lookups` | the `ORIENTATIONS` table, the still-capture size of `takePicture`, `permissionResult` |
| `camera_object.dfy` | `CameraLifecycle` | the class `CameraObject` with its lock, held objects, background thread and callbacks |
| `camera_scenarios.dfy` | `CameraScenarios` | call sequences on one object: a full preview-and-close, a second open that loses the first reader and device, closing while opening, the over-release, the lost permit |
| `image_saver.dfy` | `ImageSaving` | `ImageSaver.run` as the sequence of calls it makes on the image and the output stream |

Java exceptions are values, never preconditions:

- An exception that leaves a call is `Threw(fault)` or `Err(fault)`. This covers a division by zero in the ratio test, `choices[0]` on an empty array, `jpegSizes[5]`, `Collections.max` of an empty list, and a null field dereferenced.
- An exception the code catches and prints ends the call as `Returned`.

Framework objects (device, session, reader) are handles that the caller supplies. The ghost field `calls` records the calls the object makes on the framework. The class invariant `Valid()` states two things:

- No framework object is closed twice.
- Every object still held is open.

`Valid()` promises that nothing is closed twice, not that everything obtained is closed in the end. `CloseCount` counts the closes of one object in the log, and `CloseCountAtMostOne` turns the invariant into "closed once if closed at all". `CameraScenarios.PreviewThenClose` proves that after open, preview and close, the reader, device and session obtained are each closed exactly once. Four places drop a held object without closing it:

- Whenever set-up sizes a new reader (CameraObject.java:369), it replaces the held one and never closes the old one. Set-up sizes no reader when permission is missing, when every camera is skipped, or when the first usable camera's JPEG list is null or empty. This is a leak in the source. `CameraScenarios.ReopenThenClose` proves that after a second `openCamera`, the first reader is never closed.
- `onOpened` replaces a held device (CameraObject.java:186). A second open of the same camera makes the framework disconnect the first device, and `onDisconnected` (CameraObject.java:191-195) closes whatever device is held. `CameraScenarios.ReopenSameCameraThenClose` proves that when that disconnect arrives before the second `onOpened`, both devices are closed once each (the first reader still never is) and the lock is left with two permits. The first device is dropped without a close only when the second open is for another camera, or when the disconnect arrives after the second `onOpened` and so closes the new device instead. `CameraScenarios.ReopenThenClose` proves that in that order the first device is never closed by this class.
- `onError` closes the device the framework reports and drops the held one (CameraObject.java:200-201). The two are the same object when the error concerns the device this object already holds. On a first open the held reference is still null, so nothing is lost then either.
- `onConfigured` replaces a held session (CameraObject.java:432). Creating a new capture session on a device closes the device's previous session inside the framework. That close is not a call of this class, so the log does not record it.

The semaphore is its count of free permits. `tryAcquire` succeeds exactly when a permit is free. A blocking `acquire` with no permit free is the outcome `Blocked`, which changes nothing.

The aspect test is not an exact cross-multiplication. The code tests `height == width * h / w` in 32-bit `int` arithmetic, which truncates and can overflow. `TruncatingRatioAcceptsInexact` shows a size that the code accepts although its cross-products differ. `OverflowingRatioRejectsExact` shows an exact match that the code rejects because of overflow. `ExactRatioPasses` proves that without overflow, every exact match passes.

The lock's permit can be given back by code that does not hold it. The code gives the permit back in `onOpened` and again in `onDisconnected`, so a disconnect after a successful open leaves two permits. `CameraScenarios.DisconnectAfterOpen` proves this, and that two later `openCamera` calls both get through the lock. A second open of the same camera is another route to the same state: `CameraScenarios.ReopenSameCameraThenClose` ends with two permits. `CameraScenarios.AccessFailureKeepsLock` proves a second case: when the framework refuses to open the device, the permit taken is never returned, and `closeCamera` waits for ever.

## Model

| member | source | states |
|---|---|---|
| `JavaLang.Wrap32` | CameraLib/CameraLib/src/main/java/com/example/cameralib/CameraObject.java:556 | the result is the `int` congruent to the input modulo 2^32, and equals the input when that fits |
| `JavaLang.Wrap64` | CameraLib/CameraLib/src/main/java/com/example/cameralib/CameraObject.java:772-773 | the result is the `long` congruent to the input modulo 2^64, and equals the input when that fits |
| `JavaLang.TruncDiv` | CameraLib/CameraLib/src/main/java/com/example/cameralib/CameraObject.java:556 | Java `/`: the remainder is smaller than the divisor in magnitude and has the sign of the dividend |
| `JavaLang.Signum` | CameraLib/CameraLib/src/main/java/com/example/cameralib/CameraObject.java:772 | `Long.signum`: -1, 0 or 1, with the sign of its argument |
| `Sizes.ProductOfInts` | CameraLib/CameraLib/src/main/java/com/example/cameralib/CameraObject.java:771-773 | the product of two `int`s lies within [-(2^62 - 2^31), 2^62], so the widened products cannot overflow a `long` |
| `Sizes.CompareSizesByArea` | CameraLib/CameraLib/src/main/java/com/example/cameralib/CameraObject.java:767-775 | the comparator's sign is the sign of the exact area difference, in all three cases |
| `Sizes.CompareAntisymmetric` | CameraLib/CameraLib/src/main/java/com/example/cameralib/CameraObject.java:767-775 | compare(a, b) == -compare(b, a) |
| `Sizes.CompareTransitive` | CameraLib/CameraLib/src/main/java/com/example/cameralib/CameraObject.java:767-775 | compare(a, b) <= 0 and compare(b, c) <= 0 give compare(a, c) <= 0 |
| `Sizes.MinByArea` | CameraLib/CameraLib/src/main/java/com/example/cameralib/CameraObject.java:567 | `Collections.min`: an element of the list whose area is at most every element's |
| `Sizes.MaxByArea` | CameraLib/CameraLib/src/main/java/com/example/cameralib/CameraObject.java:367 | `Collections.max` (the largest JPEG size): an element of the list whose area is at least every element's |
| `Sizes.MinByAreaIsFirst` | CameraLib/CameraLib/src/main/java/com/example/cameralib/CameraObject.java:567 | of several sizes of least area, the first in the list is returned |
| `Sizes.MaxByAreaIsFirst` | CameraLib/CameraLib/src/main/java/com/example/cameralib/CameraObject.java:569 | of several sizes of greatest area, the first in the list is returned |
| `SizeNegotiation.MaxPreviewBound` | CameraLib/CameraLib/src/main/java/com/example/cameralib/CameraObject.java:375-383 | each side of the bound is the smaller of the display side and 480 |
| `SizeNegotiation.Filter` | CameraLib/CameraLib/src/main/java/com/example/cameralib/CameraObject.java:555-563 | the filtered list holds exactly the kept elements of the input |
| `SizeNegotiation.Sift` | CameraLib/CameraLib/src/main/java/com/example/cameralib/CameraObject.java:555-563 | `bigEnough` / `notBigEnough` hold exactly the choices within the bound, with the ratio, and big enough / not big enough |
| `SizeNegotiation.FilterEmpty` | CameraLib/CameraLib/src/main/java/com/example/cameralib/CameraObject.java:555-563 | a list none of whose elements qualifies filters to the empty list |
| `SizeNegotiation.FilterKeepsFirstMinimal` | CameraLib/CameraLib/src/main/java/com/example/cameralib/CameraObject.java:555-567 | the first smallest of `bigEnough` is, in `choices`, a kept choice with no kept choice of equal or smaller area before it |
| `SizeNegotiation.FilterKeepsFirstMaximal` | CameraLib/CameraLib/src/main/java/com/example/cameralib/CameraObject.java:555-569 | the first largest of `notBigEnough` is, in `choices`, a kept choice with no kept choice of equal or larger area before it |
| `SizeNegotiation.OptimalSize` | CameraLib/CameraLib/src/main/java/com/example/cameralib/CameraObject.java:548-574 | a returned size is always one of the choices |
| `SizeNegotiation.OptimalSizeSmallestBigEnough` | CameraLib/CameraLib/src/main/java/com/example/cameralib/CameraObject.java:555-567 | when some choice qualifies and is big enough, the result qualifies, is big enough, has least area among such, and is the first such in `choices` |
| `SizeNegotiation.OptimalSizeLargestNotBigEnough` | CameraLib/CameraLib/src/main/java/com/example/cameralib/CameraObject.java:555-569 | when choices qualify but none is big enough, the result qualifies, has greatest area among those, and is the first such in `choices` |
| `SizeNegotiation.OptimalSizeFallback` | CameraLib/CameraLib/src/main/java/com/example/cameralib/CameraObject.java:570-573 | when nothing qualifies: `choices[0]`, or the out-of-bounds exception on an empty array, or the division by zero when the aspect width is 0 and some choice is within the bound |
| `SizeNegotiation.OptimalSizeDefined` | CameraLib/CameraLib/src/main/java/com/example/cameralib/CameraObject.java:548-574 | with a non-zero aspect width and at least one choice, a size is returned |
| `SizeNegotiation.ExactRatioPasses` | CameraLib/CameraLib/src/main/java/com/example/cameralib/CameraObject.java:556 | without overflow, a size whose cross-products agree with the aspect ratio passes the test |
| `SizeNegotiation.TruncatingRatioAcceptsInexact` | CameraLib/CameraLib/src/main/java/com/example/cameralib/CameraObject.java:556 | 641 x 360 passes against 1920 x 1080 although the cross-products differ |
| `SizeNegotiation.OverflowingRatioRejectsExact` | CameraLib/CameraLib/src/main/java/com/example/cameralib/CameraObject.java:556 | 46341 x 46341 fails against itself because `46341 * 46341` overflows |
| `SizeNegotiation.ChooseOptimalSize` | CameraLib/CameraLib/src/main/java/com/example/cameralib/CameraObject.java:548-574 | the loop and the selection return exactly what `OptimalSize` specifies, exceptions included |
| `SizeNegotiation.CameraOutputs` | CameraLib/CameraLib/src/main/java/com/example/cameralib/CameraObject.java:362-385 | the reader's size is a JPEG size of greatest area, and the preview size is one of the preview sizes |
| `SizeNegotiation.CameraOutputsConfigured` | CameraLib/CameraLib/src/main/java/com/example/cameralib/CameraObject.java:367-385 | with JPEG sizes of positive width and some preview size, a preview size is chosen; when one qualified, it fits the display and 480 x 480 |
| `Lookups.JpegOrientation` | CameraLib/CameraLib/src/main/java/com/example/cameralib/CameraObject.java:113-119 | rotation r in 0..3 maps to 90 r degrees, any other key to 0 |
| `Lookups.JpegOrientationInvertible` | CameraLib/CameraLib/src/main/java/com/example/cameralib/CameraObject.java:113-119 | the table is one-to-one on the four rotations, and the angle divided by 90 gives the rotation back |
| `Lookups.StillCaptureSize` | CameraLib/CameraLib/src/main/java/com/example/cameralib/CameraObject.java:649-658 | 1600 x 1200 for a null or empty list, `jpegSizes[5]` for six or more sizes, the out-of-bounds exception for one to five |
| `Lookups.StillCaptureSizeSupported` | CameraLib/CameraLib/src/main/java/com/example/cameralib/CameraObject.java:649-658 | the still size is the default or a reported size, and the pick fails exactly for one to five sizes |
| `Lookups.PermissionResult` | CameraLib/CameraLib/src/main/java/com/example/cameralib/CameraObject.java:492-502 | handled exactly for request code 1; the denial message only when handled; handled without it exactly when the one result is "granted" |
| `ImageSaving.Run` | CameraLib/CameraLib/src/main/java/com/example/cameralib/CameraObject.java:794-814 | the image is closed exactly once; the stream is closed exactly when it was opened; the closes come last, image first; the bytes reach the file exactly when opening and writing succeed |
| `CameraLifecycle.FirstUsable` | CameraLib/CameraLib/src/main/java/com/example/cameralib/CameraObject.java:354-365 | the camera settled on is the first one that is not front-facing and has a stream map |
| `CameraLifecycle.SetUpOutputs` | CameraLib/CameraLib/src/main/java/com/example/cameralib/CameraObject.java:350-398 | a preview size is set exactly with a camera id, only after a reader, and only on a normal return |
| `CameraLifecycle.SetUpOutputsChosen` | CameraLib/CameraLib/src/main/java/com/example/cameralib/CameraObject.java:350-398 | nothing changes when every camera is skipped; otherwise the reader gets a size exactly when the first usable camera has JPEG sizes, and that size is their `Collections.max`; a preview size is kept, with that camera's id, exactly when `OptimalSize` returns one from its preview sizes against the display bound and the largest JPEG size, and `OptimalSize`'s fault is thrown otherwise; a null JPEG list returns normally with nothing set, an empty one throws `NoSuchElementException`, and a null preview list keeps no preview and returns normally |
| `CameraLifecycle.ClosesOfInOrder` | CameraLib/CameraLib/src/main/java/com/example/cameralib/CameraObject.java:300-311 | `closeCamera` closes exactly the objects held, each once, session before device before reader |
| `CameraLifecycle.CloseOpenObject` | CameraLib/CameraLib/src/main/java/com/example/cameralib/CameraObject.java:300-311 | closing an object still open keeps every object closed at most once |
| `CameraLifecycle.CloseCountAtMostOne` | CameraLib/CameraLib/src/main/java/com/example/cameralib/CameraObject.java:300-311 | under the invariant, an object is closed exactly once if it is closed at all, and never otherwise |
| `CameraLifecycle.CameraObject.constructor` | CameraLib/CameraLib/src/main/java/com/example/cameralib/CameraObject.java:78 | one free permit, nothing held, no background thread, no calls made |
| `CameraLifecycle.CameraObject.StartBackgroundThread` | CameraLib/CameraLib/src/main/java/com/example/cameralib/CameraObject.java:510-514 | a background thread is running afterwards |
| `CameraLifecycle.CameraObject.SetUpCameraOutputs` | CameraLib/CameraLib/src/main/java/com/example/cameralib/CameraObject.java:350-398 | the reader, the preview size, the camera id and the calls change exactly as `SetUpOutputs` says, and the invariant is kept |
| `CameraLifecycle.CameraObject.OpenCamera` | CameraLib/CameraLib/src/main/java/com/example/cameralib/CameraObject.java:262-283 | without permission it only asks for it; otherwise set-up, then a permit is taken or the timeout thrown, then the device is requested unless the framework refuses (the permit stays taken); the invariant is kept |
| `CameraLifecycle.CameraObject.CreateCameraPreviewSession` | CameraLib/CameraLib/src/main/java/com/example/cameralib/CameraObject.java:406-453 | a preview session is requested on the held device, or a null pointer is thrown when the preview size, device or reader is missing |
| `CameraLifecycle.CameraObject.OnOpened` | CameraLib/CameraLib/src/main/java/com/example/cameralib/CameraObject.java:184-188 | one permit back, the device held, the preview session requested |
| `CameraLifecycle.CameraObject.OnDisconnected` | CameraLib/CameraLib/src/main/java/com/example/cameralib/CameraObject.java:191-195 | one permit back, the held device closed and dropped, a null pointer thrown when none is held |
| `CameraLifecycle.CameraObject.OnError` | CameraLib/CameraLib/src/main/java/com/example/cameralib/CameraObject.java:198-203 | one permit back, the reported device closed, none held, the activity finished |
| `CameraLifecycle.CameraObject.OnConfigured` | CameraLib/CameraLib/src/main/java/com/example/cameralib/CameraObject.java:425-443 | dropped when no device is held; otherwise the session is held and the repeating preview started on it |
| `CameraLifecycle.CameraObject.TakePicture` | CameraLib/CameraLib/src/main/java/com/example/cameralib/CameraObject.java:640-672 | the camera-access exception without a device, a null pointer without a stream map, else a request for the held device with the still size and the rotation's JPEG orientation |
| `CameraLifecycle.CameraObject.OnCaptureCompleted` | CameraLib/CameraLib/src/main/java/com/example/cameralib/CameraObject.java:700-704 | the preview session is requested again, as in `CreateCameraPreviewSession` |
| `CameraLifecycle.CameraObject.CloseHeld` | CameraLib/CameraLib/src/main/java/com/example/cameralib/CameraObject.java:300-311 | session, device and reader each closed if held, in that order, and dropped |
| `CameraLifecycle.CameraObject.CloseCamera` | CameraLib/CameraLib/src/main/java/com/example/cameralib/CameraObject.java:297-319 | with no free permit it waits and changes nothing; otherwise every held object is closed in order, the permit count is restored, and the background thread stopped (a null pointer when there is none) |
| `CameraScenarios.BackCameraSetUp` | CameraLib/CameraLib/src/main/java/com/example/cameralib/CameraObject.java:350-398 | a back camera with one 640 x 480 JPEG size gets a 320 x 240 preview, the only 4:3 size within 480 x 480 |
| `CameraScenarios.OpenBackCamera` | CameraLib/CameraLib/src/main/java/com/example/cameralib/CameraObject.java:262-283 | after opening, the permit is taken, reader 1 and the 320 x 240 preview size are set, and the calls are the new reader and, unless the framework refuses, the request for camera "0" |
| `CameraScenarios.StartPreview` | CameraLib/CameraLib/src/main/java/com/example/cameralib/CameraObject.java:184-188 | `onOpened` then `onConfigured` hold the device and the session, give one permit back, and request the preview session and its repeating request |
| `CameraScenarios.ReopenBackCamera` | CameraLib/CameraLib/src/main/java/com/example/cameralib/CameraObject.java:262-283 | a second `openCamera` with a free permit takes it, holds a new reader without closing the old one, and requests the device again |
| `CameraScenarios.ReopenAfterOpened` | CameraLib/CameraLib/src/main/java/com/example/cameralib/CameraObject.java:184-188 | after a second open and a second `onOpened` with no disconnect delivered yet, the new reader and device are held and nothing has been closed |
| `CameraScenarios.ReopenSameCamera` | CameraLib/CameraLib/src/main/java/com/example/cameralib/CameraObject.java:191-195 | a same-camera reopen whose disconnect arrives before the second `onOpened`: device 5 and reader 4 held, two permits free, and device 2 the only object closed |
| `CameraScenarios.ReopenSameCameraThenClose` | CameraLib/CameraLib/src/main/java/com/example/cameralib/CameraObject.java:297-319 | closing then closes devices 2 and 5 once each, reader 4 once and reader 1 never, and two permits remain |
| `CameraScenarios.ReopenThenClose` | CameraLib/CameraLib/src/main/java/com/example/cameralib/CameraObject.java:297-319 | `closeCamera` then closes the second reader and device once each and the first reader and device never |
| `CameraScenarios.PreviewThenClose` | CameraLib/CameraLib/src/main/java/com/example/cameralib/CameraObject.java:297-319 | open, preview, close: nothing is held, the lock is back to one permit, and the reader, device and session obtained are each closed exactly once |
| `CameraScenarios.CloseWhileOpening` | CameraLib/CameraLib/src/main/java/com/example/cameralib/CameraObject.java:297-299 | `closeCamera` during opening waits; after `onOpened` it goes through |
| `CameraScenarios.DisconnectAfterOpen` | CameraLib/CameraLib/src/main/java/com/example/cameralib/CameraObject.java:184-195 | `onOpened` then `onDisconnected` leave two permits, and two later opens both get through the lock |
| `CameraScenarios.AccessFailureKeepsLock` | CameraLib/CameraLib/src/main/java/com/example/cameralib/CameraObject.java:273-282 | when the framework refuses to open the device, no permit is free and `closeCamera` waits |

## Left out

- Android framework calls are out of scope: the camera manager, the characteristics queries, surfaces, capture-request builders, the window manager's display size and rotation, and the permission check. Their answers are parameters: the camera list, the stream maps, the display `Point`, the rotation, `granted`, `accessFails` and the handles.
- `configureTransform` is left out. It computes a floating-point view matrix and changes no state that the rest of the class reads.
- Threads and timing are left out. The 2500 ms timeout of `tryAcquire` and the blocking `acquire` are reduced to "a permit is free or not". `Blocked` stands for a `closeCamera` that has not got past `acquire`, which resumes only when a callback later frees a permit. The `InterruptedException` paths of `openCamera`, `closeCamera` and `stopBackgroundThread` are not modelled.
- CameraLifecycle.CameraObject.StartBackgroundThread does not model the old `HandlerThread` that a second start orphans while it keeps running.
- `startCamera` and `resumeCamera` are not modelled as members. `resumeCamera` starts the background thread and `startCamera` does not; each then either calls `openCamera` or registers the surface listener, depending on the texture view's availability, which is a framework query. A `closeCamera` after `startCamera` alone therefore throws the null pointer of CameraObject.java:523, which `CameraLifecycle.CameraObject.CloseCamera` states for an object without a running thread.
- The constructor's check that the context is non-null is left out, because the context is not modelled.
- `requestCameraPermission` and its rationale dialog are one logged call, `RequestPermission`. The dialog is UI. In the rationale branch the dialog is created but never shown, so that branch never actually asks for the permission, while the model logs `RequestPermission` in both branches.
- CameraLifecycle.CameraObject.TakePicture stops at the request it builds. The still-capture `ImageReader`, the capture session, the image-available listener, file naming, `scanFile` and `returnLatestFileUri` are framework, file-system or UI calls. The source never stores or closes that reader and session, so the class invariant does not cover them.
- Closes that the framework performs itself are not logged. The one that matters is the previous capture session, closed when a new one is created on the device.
- `showToast`, the `onConfigureFailed` toast and the printed stack traces are UI and logging.
- ImageSaving.Run leaves out the byte contents and the file. It models only the order and number of the calls on the image and the stream. An exception from reading the image plane before the `try` is not modelled.
- The MIME type enums are constant strings that only `scanFile` uses.
- CameraLifecycle.CameraObject.OpenCamera passes the camera id through as an `Option`. What the framework does with a null id is not part of this model.
