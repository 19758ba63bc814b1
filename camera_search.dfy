/**
 * The front-camera search at the start of `CamService.initCam`: walk the
 * camera ids in the order the camera manager lists them and keep the first
 * one whose `LENS_FACING` characteristic is FRONT.
 */
module CameraSearch {
  import opened Wrappers

  type CameraId = string

  /** The values of `CameraCharacteristics.LENS_FACING`. */
  datatype LensFacing = Front | Back | External

  /**
   * One camera as the camera manager reports it: its id and its facing,
   * which `characteristics.get` may return as null.
   */
  datatype CameraEntry = CameraEntry(id: CameraId, facing: Option<LensFacing>)

  predicate IsFront(e: CameraEntry) {
    e.facing == Some(Front)
  }

  /** The id of the first front-facing camera, if any. */
  function FirstFront(cameras: seq<CameraEntry>): (r: Option<CameraId>)
    ensures r.None? <==> forall e :: e in cameras ==> !IsFront(e)
    ensures r.Some? ==> exists e :: e in cameras && IsFront(e) && e.id == r.value
  {
    if cameras == [] then None
    else if IsFront(cameras[0]) then Some(cameras[0].id)
    else FirstFront(cameras[1..])
  }

  /**
   * What the search promises: it finds nothing exactly when no camera faces
   * front, and otherwise the id of a front camera before which no camera
   * faces front.
   */
  lemma {:induction false} FirstFrontIsFirst(cameras: seq<CameraEntry>)
    ensures FirstFront(cameras).None? <==> forall k :: 0 <= k < |cameras| ==> !IsFront(cameras[k])
    ensures FirstFront(cameras).Some? ==>
      exists k :: 0 <= k < |cameras| && IsFront(cameras[k])
        && cameras[k].id == FirstFront(cameras).value
        && forall j :: 0 <= j < k ==> !IsFront(cameras[j])
  {
    if cameras != [] && !IsFront(cameras[0]) {
      FirstFrontIsFirst(cameras[1..]);
      if FirstFront(cameras).Some? {
        var k :| 0 <= k < |cameras[1..]| && IsFront(cameras[1..][k])
          && cameras[1..][k].id == FirstFront(cameras).value
          && forall j :: 0 <= j < k ==> !IsFront(cameras[1..][j]);
        assert cameras[k + 1] == cameras[1..][k];
        forall j | 0 <= j < k + 1 ensures !IsFront(cameras[j]) {
          if j > 0 { assert cameras[j] == cameras[1..][j - 1]; }
        }
      }
      forall k | 0 <= k < |cameras[1..]| ensures cameras[1..][k] == cameras[k + 1] { }
    } else if cameras != [] {
      assert IsFront(cameras[0]);
    }
  }

  /** A front camera at index `k` with none before it is the one found. */
  lemma {:induction false} FirstFrontAt(cameras: seq<CameraEntry>, k: nat)
    requires k < |cameras| && IsFront(cameras[k])
    requires forall j :: 0 <= j < k ==> !IsFront(cameras[j])
    ensures FirstFront(cameras) == Some(cameras[k].id)
  {
    if k > 0 {
      assert !IsFront(cameras[0]);
      forall j | 0 <= j < k - 1 ensures !IsFront(cameras[1..][j]) {
        assert cameras[1..][j] == cameras[j + 1];
      }
      FirstFrontAt(cameras[1..], k - 1);
    }
  }

  /**
   * The loop of `initCam`: `camId` starts null, and the first front-facing
   * camera sets it and breaks out of the loop.
   */
  method FindFrontCamera(cameras: seq<CameraEntry>) returns (camId: Option<CameraId>)
    ensures camId == FirstFront(cameras)
  {
    camId := None;
    var i := 0;
    while i < |cameras|
      invariant 0 <= i <= |cameras|
      invariant camId == None
      invariant FirstFront(cameras) == FirstFront(cameras[i..])
    {
      assert cameras[i..] == [cameras[i]] + cameras[i + 1..];
      if IsFront(cameras[i]) {
        camId := Some(cameras[i].id);
        break;
      }
      i := i + 1;
    }
  }
}
