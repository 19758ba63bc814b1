/**
 * The camera handles `CamService` keeps in mutable fields, `cameraDevice`,
 * `captureSession` and `imageReader`, and the code that assigns them:
 * `initCam`/`start`, the device `stateCallback`, the field updates of
 * `createCaptureSession` and its `onConfigured` callback, and `stopCamera`.
 *
 * The host objects are opaque tokens. Every `close()` the service calls on
 * one of them is appended to `closeLog`, so that the order of closing is
 * part of the observable state.
 */
module CamHandles {
  import opened Wrappers
  import opened SizeSelection
  import opened CameraSearch

  /** Opaque host objects: a `CameraDevice`, a `CameraCaptureSession`, an `ImageReader`. */
  datatype Device = Device(deviceToken: nat)
  datatype Session = Session(sessionToken: nat)
  datatype Reader = Reader(readerToken: nat)

  /** A host object the service has called `close()` on. */
  datatype Closed = ClosedSession(s: Session) | ClosedDevice(d: Device) | ClosedReader(r: Reader)

  /** How `initCam` ends. */
  datatype InitOutcome =
    | NoFrontCamera        // `camId!!` throws: no camera faces front
    | PermissionMissing    // CAMERA permission not granted: returns without opening
    | OpenRequested(id: CameraId)

  /** The close calls `stopCamera` makes, in order: session, device, reader. */
  function StopCloses(session: Option<Session>, device: Option<Device>, reader: Option<Reader>): seq<Closed>
  {
    (if session.Some? then [ClosedSession(session.value)] else [])
    + (if device.Some? then [ClosedDevice(device.value)] else [])
    + (if reader.Some? then [ClosedReader(reader.value)] else [])
  }

  /** The three handles of a service are all released. */
  predicate AllReleased(session: Option<Session>, device: Option<Device>, reader: Option<Reader>) {
    session.None? && device.None? && reader.None?
  }

  /**
   * `stopCamera` closes every handle it holds, each exactly once, and the
   * session before the device before the reader.
   */
  lemma StopClosesInOrder(session: Option<Session>, device: Option<Device>, reader: Option<Reader>)
    ensures |StopCloses(session, device, reader)|
            == (if session.Some? then 1 else 0) + (if device.Some? then 1 else 0) + (if reader.Some? then 1 else 0)
    ensures session.Some? ==> StopCloses(session, device, reader)[0] == ClosedSession(session.value)
    ensures device.Some? ==>
      ClosedDevice(device.value) in StopCloses(session, device, reader)
      && forall k :: 0 <= k < |StopCloses(session, device, reader)| && StopCloses(session, device, reader)[k].ClosedReader? ==>
           k > 0 && StopCloses(session, device, reader)[k - 1] == ClosedDevice(device.value)
    ensures reader.Some? ==>
      StopCloses(session, device, reader)[|StopCloses(session, device, reader)| - 1] == ClosedReader(reader.value)
    ensures AllReleased(session, device, reader) ==> StopCloses(session, device, reader) == []
  {
  }

  class CamService {
    var cameraDevice: Option<Device>
    var captureSession: Option<Session>
    var imageReader: Option<Reader>
    var previewSize: Option<Size>
    var shouldShowPreview: bool
    /** The `close()` calls made so far, oldest first. */
    var closeLog: seq<Closed>

    /** A freshly created service holds no handle. */
    constructor ()
      ensures AllReleased(captureSession, cameraDevice, imageReader)
      ensures previewSize == None && shouldShowPreview && closeLog == []
    {
      cameraDevice := None;
      captureSession := None;
      imageReader := None;
      previewSize := None;
      shouldShowPreview := true;
      closeLog := [];
    }

    /**
     * `stopCamera`: close and null the session, then the device, then the
     * reader. A null handle is skipped (`?.close()`).
     */
    method StopCamera()
      modifies this
      ensures AllReleased(captureSession, cameraDevice, imageReader)
      ensures closeLog == old(closeLog) + StopCloses(old(captureSession), old(cameraDevice), old(imageReader))
      ensures previewSize == old(previewSize) && shouldShowPreview == old(shouldShowPreview)
    {
      if captureSession.Some? {
        closeLog := closeLog + [ClosedSession(captureSession.value)];
      }
      captureSession := None;

      if cameraDevice.Some? {
        closeLog := closeLog + [ClosedDevice(cameraDevice.value)];
      }
      cameraDevice := None;

      if imageReader.Some? {
        closeLog := closeLog + [ClosedReader(imageReader.value)];
      }
      imageReader := None;
    }

    /** `stateCallback.onOpened`: keep the device, then `createCaptureSession`. */
    method OnOpened(device: Device, reader: Reader)
      modifies this
      ensures cameraDevice == Some(device)
      ensures imageReader == Some(reader)
      ensures captureSession == old(captureSession) && closeLog == old(closeLog)
      ensures previewSize == old(previewSize) && shouldShowPreview == old(shouldShowPreview)
    {
      cameraDevice := Some(device);
      CreateCaptureSession(reader);
    }

    /**
     * The field update of `createCaptureSession`: a new `ImageReader` is
     * stored, replacing any earlier one without closing it.
     */
    method CreateCaptureSession(reader: Reader)
      modifies this`imageReader
      ensures imageReader == Some(reader)
    {
      imageReader := Some(reader);
    }

    /**
     * `stateCallback.onDisconnected` and `onError`: close the device the
     * callback reports and null the field.
     */
    method OnDisconnected(device: Device)
      modifies this
      ensures cameraDevice == None
      ensures closeLog == old(closeLog) + [ClosedDevice(device)]
      ensures captureSession == old(captureSession) && imageReader == old(imageReader)
      ensures previewSize == old(previewSize) && shouldShowPreview == old(shouldShowPreview)
    {
      closeLog := closeLog + [ClosedDevice(device)];
      cameraDevice := None;
    }

    method OnError(device: Device, error: int)
      modifies this
      ensures cameraDevice == None
      ensures closeLog == old(closeLog) + [ClosedDevice(device)]
      ensures captureSession == old(captureSession) && imageReader == old(imageReader)
      ensures previewSize == old(previewSize) && shouldShowPreview == old(shouldShowPreview)
    {
      closeLog := closeLog + [ClosedDevice(device)];
      cameraDevice := None;
    }

    /**
     * `onConfigured` of the session created by `createCaptureSession`: when
     * the device is already null the camera was closed and the new session
     * is ignored; otherwise it becomes `captureSession`.
     */
    method OnConfigured(session: Session)
      modifies this`captureSession
      ensures old(cameraDevice).None? ==> captureSession == old(captureSession)
      ensures old(cameraDevice).Some? ==> captureSession == Some(session)
    {
      if cameraDevice == None {
        return;
      }
      captureSession := Some(session);
    }

    /**
     * `initCam(width, height)`: find the front camera, pick the preview
     * size among its supported sizes, and ask for the device to be opened
     * when the CAMERA permission is granted. `outputSizes` gives each
     * listed camera's `getOutputSizes(SurfaceTexture)`.
     */
    method InitCam(cameras: seq<CameraEntry>, outputSizes: map<CameraId, seq<Size>>,
                   width: int, height: int, cameraPermitted: bool)
      returns (outcome: InitOutcome)
      requires forall k :: 0 <= k < |cameras| ==> cameras[k].id in outputSizes
      requires forall id :: id in outputSizes ==> AllValid(outputSizes[id])
      requires ValidSize(Size(width, height))
      modifies this`previewSize
      ensures FirstFront(cameras).None? ==> outcome == NoFrontCamera && previewSize == old(previewSize)
      ensures FirstFront(cameras).Some? ==>
        var id := FirstFront(cameras).value;
        id in outputSizes
        && previewSize == Some(ChooseSupportedSize(outputSizes[id], Size(width, height)))
        && outcome == (if cameraPermitted then OpenRequested(id) else PermissionMissing)
    {
      var camId := FindFrontCamera(cameras);
      if camId.None? {
        return NoFrontCamera;
      }
      FirstFrontIsFirst(cameras);
      previewSize := Some(ChooseSupportedSize(outputSizes[camId.value], Size(width, height)));
      if !cameraPermitted {
        return PermissionMissing;
      }
      outcome := OpenRequested(camId.value);
    }

    /** `start`: no preview, and a 320x200 target for the size selection. */
    method Start(cameras: seq<CameraEntry>, outputSizes: map<CameraId, seq<Size>>, cameraPermitted: bool)
      returns (outcome: InitOutcome)
      requires forall k :: 0 <= k < |cameras| ==> cameras[k].id in outputSizes
      requires forall id :: id in outputSizes ==> AllValid(outputSizes[id])
      modifies this`previewSize, this`shouldShowPreview
      ensures !shouldShowPreview
      ensures FirstFront(cameras).None? ==> outcome == NoFrontCamera && previewSize == old(previewSize)
      ensures FirstFront(cameras).Some? ==>
        var id := FirstFront(cameras).value;
        id in outputSizes
        && previewSize == Some(ChooseSupportedSize(outputSizes[id], Size(320, 200)))
        && outcome == (if cameraPermitted then OpenRequested(id) else PermissionMissing)
    {
      shouldShowPreview := false;
      outcome := InitCam(cameras, outputSizes, 320, 200, cameraPermitted);
    }

    /**
     * A second `stopCamera` right after the first closes nothing and
     * changes nothing.
     */
    method StopCameraTwice()
      modifies this
      ensures AllReleased(captureSession, cameraDevice, imageReader)
      ensures closeLog == old(closeLog) + StopCloses(old(captureSession), old(cameraDevice), old(imageReader))
      ensures previewSize == old(previewSize) && shouldShowPreview == old(shouldShowPreview)
    {
      StopCamera();
      ghost var afterFirst := closeLog;
      StopCamera();
      assert closeLog == afterFirst;
    }

    /**
     * A session configured after `stopCamera` (its callback was already
     * pending) is never stored: the handles stay released.
     */
    method StopThenLateConfigured(late: Session)
      modifies this
      ensures AllReleased(captureSession, cameraDevice, imageReader)
      ensures closeLog == old(closeLog) + StopCloses(old(captureSession), old(cameraDevice), old(imageReader))
      ensures previewSize == old(previewSize) && shouldShowPreview == old(shouldShowPreview)
    {
      StopCamera();
      OnConfigured(late);
    }
  }
}
