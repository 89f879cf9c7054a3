/**
 * The small lookups of the camera object: the JPEG orientation table, the
 * still-capture size chosen in `takePicture`, and `permissionResult`.
 */
module Lookups {
  import opened JavaLang
  import opened Sizes

  /** `Surface.ROTATION_0` .. `Surface.ROTATION_270`. */
  const ROTATION_0: int := 0
  const ROTATION_90: int := 1
  const ROTATION_180: int := 2
  const ROTATION_270: int := 3

  /**
   * `ORIENTATIONS.get(rotation)`: the sparse table maps each rotation constant
   * to its angle in degrees; a key it does not hold reads as 0.
   */
  function JpegOrientation(rotation: int): (degrees: int)
    ensures ROTATION_0 <= rotation <= ROTATION_270 ==> degrees == 90 * rotation
    ensures !(ROTATION_0 <= rotation <= ROTATION_270) ==> degrees == 0
    ensures degrees == 0 || degrees == 90 || degrees == 180 || degrees == 270
  {
    if rotation == ROTATION_0 then 0
    else if rotation == ROTATION_90 then 90
    else if rotation == ROTATION_180 then 180
    else if rotation == ROTATION_270 then 270
    else 0
  }

  /** The table is one-to-one on the four rotations, and the rotation is recovered from the angle. */
  lemma JpegOrientationInvertible(r1: int, r2: int)
    requires ROTATION_0 <= r1 <= ROTATION_270 && ROTATION_0 <= r2 <= ROTATION_270
    ensures JpegOrientation(r1) / 90 == r1 && JpegOrientation(r1) % 90 == 0
    ensures JpegOrientation(r1) == JpegOrientation(r2) ==> r1 == r2
  {
  }

  /** The still size used when the camera reports no JPEG sizes. */
  const DEFAULT_STILL_SIZE: Size := Size(1600, 1200)

  /** The fixed position in the JPEG size list that `takePicture` reads. */
  const STILL_SIZE_INDEX: nat := 5

  /**
   * The still-capture size of `takePicture`: 1600 x 1200 for a null or empty
   * list, otherwise `jpegSizes[5]`, which throws when the list holds one to
   * five sizes.
   */
  function StillCaptureSize(jpegSizes: Option<seq<Size>>): (r: Result<Size>)
    ensures (jpegSizes.None? || |jpegSizes.value| == 0) ==> r == Ok(DEFAULT_STILL_SIZE)
    ensures jpegSizes.Some? && |jpegSizes.value| > STILL_SIZE_INDEX ==> r == Ok(jpegSizes.value[STILL_SIZE_INDEX])
    ensures jpegSizes.Some? && 0 < |jpegSizes.value| <= STILL_SIZE_INDEX ==> r == Err(ArrayIndexOutOfBounds)
  {
    var width, height := 1600, 1200;
    if jpegSizes.Some? && 0 < |jpegSizes.value| then
      if STILL_SIZE_INDEX < |jpegSizes.value| then
        var s := jpegSizes.value[STILL_SIZE_INDEX];
        Ok(Size(s.width, s.height))
      else
        Err(ArrayIndexOutOfBounds)
    else
      Ok(Size(width, height))
  }

  /** The still size is either the default or one the camera reports, and the pick fails exactly on short lists. */
  lemma StillCaptureSizeSupported(jpegSizes: Option<seq<Size>>)
    ensures StillCaptureSize(jpegSizes).Ok? ==>
      StillCaptureSize(jpegSizes).value == DEFAULT_STILL_SIZE || StillCaptureSize(jpegSizes).value in jpegSizes.value
    ensures StillCaptureSize(jpegSizes).Err? <==> jpegSizes.Some? && 1 <= |jpegSizes.value| <= 5
  {
  }

  /** `REQUEST_CAMERA_PERMISSION` and `PackageManager.PERMISSION_GRANTED`. */
  const REQUEST_CAMERA_PERMISSION: int := 1
  const PERMISSION_GRANTED: int := 0

  /**
   * What `permissionResult` does: whether it reports the request as handled
   * (its return value) and whether it shows the "permission denied" message.
   */
  datatype PermissionOutcome = PermissionOutcome(handled: bool, deniedShown: bool)

  function PermissionResult(requestCode: int, grantResults: seq<int>): (r: PermissionOutcome)
    ensures r.handled <==> requestCode == REQUEST_CAMERA_PERMISSION
    ensures r.deniedShown ==> r.handled
    ensures r.handled && !r.deniedShown <==>
      requestCode == REQUEST_CAMERA_PERMISSION && grantResults == [PERMISSION_GRANTED]
  {
    if requestCode == REQUEST_CAMERA_PERMISSION then
      var denied := |grantResults| != 1 || grantResults[0] != PERMISSION_GRANTED;
      PermissionOutcome(true, denied)
    else
      PermissionOutcome(false, false)
  }
}
