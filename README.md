# BackgroundRecord camera service: a Dafny model of `CamService`

`CamService` is an Android service that opens the front camera, can show a
preview overlay, and streams frames to an `ImageReader`. Almost all of it
calls into Camera2, the window manager, `MediaRecorder` and notifications.
This project models the parts that are logic of the service's own:

- **Preview size selection** (`chooseSupportedSize`), module `SizeSelection`.
  The camera's supported sizes are sorted by a stable sort with a two-key
  comparator. The first key is the distance between the candidate's aspect
  and the target aspect. The candidate's aspect is normalised to short side
  over long side. The second key is the distance between the target area and
  the candidate area. The first sorted size is chosen, or `320x200` when the
  camera reports no size. Kotlin's `sortedWith` is stable (it uses
  `java.util.Arrays.sort`, a stable merge sort). The model's sort (module
  `StableSort`) is a stable insertion sort by a key function. Under a total
  preorder every stable sort yields the same list, so the algorithm does not
  matter. The model proves that the sort orders and permutes its input. Of
  stability it proves only what the choice needs: the head is the earliest
  element with the least key.
- **Front-camera search** (the loop at the start of `initCam`), module
  `CameraSearch`. It is a `while` loop with `break`, proved equal to a
  recursive specification function. The model also proves what that
  function means.
- **Video file path** (`getVideoFilePath`), module `VideoPath`. The file is
  `"<millis>.mp4"`, placed in the external files directory when there is
  one. A parser is proved to recover both the time stamp and the directory
  from every path `getVideoFilePath` builds.
- **Handle bookkeeping**, module `CamHandles`. Class `CamService` holds the
  `cameraDevice`, `captureSession` and `imageReader` fields as `Option`s of
  opaque tokens. `stopCamera`, the device state callbacks, the
  `onConfigured` guard assign these fields; `initCam`/`start` assign
  `previewSize` and `shouldShowPreview`. Every
  `close()` call is appended to a `closeLog` field, so the close order of
  `stopCamera` is part of what is proved.

The target aspect is `width / height` and is NOT normalised (`CamService.kt`
line 249). Only the candidate aspect is normalised (lines 254-255). The model keeps this
asymmetry. So for a landscape target every candidate aspect is at most 1 and
the target aspect is at least 1, and the primary key then simply prefers the
squarest candidate (`LandscapeTargetChoosesSquarest`). With candidates
1920x1080, 1280x720 and 640x480 and the target 1280x720, the code chooses
640x480: the exact match 1280x720 is not chosen, and for a 16:9 landscape
target a 4:3 size beats a 16:9 one, because it is squarer
(`LandscapeTargetChoosesSquarest`, `LandscapeExampleChoosesSquarest`). For a
portrait or square target that is itself supported, a size with the
target's sides, in either orientation, wins; of the two, the one listed
first (`PortraitTargetSidesWin`, `PortraitExampleChoosesTargetSides`,
`TransposeListedFirstBeatsExactMatch`).

## Model

| member | source | states |
|---|---|---|
| `SizeSelection.TargetAspect` | app/src/main/java/eu/sisik/backgroundcam/CamService.kt:249 | the target aspect is width over height, positive, and at least 1 exactly when the target is landscape or square (not normalised) |
| `SizeSelection.AspectDistance` | app/src/main/java/eu/sisik/backgroundcam/CamService.kt:253-256 | the first selector is non-negative and zero exactly when the candidate's normalised aspect equals the target aspect |
| `SizeSelection.AreaDistance` | app/src/main/java/eu/sisik/backgroundcam/CamService.kt:248-260 | the second selector is non-negative and zero exactly when the candidate's area equals the target's |
| `SizeSelection.KeyOf` | app/src/main/java/eu/sisik/backgroundcam/CamService.kt:251-262 | a candidate's key is never below (0, 0), and is (0, 0) exactly when both aspect and area match the target; `SizeKey(t)` is this key as the function given to the sort |
| `StableSort.Insert` | app/src/main/java/eu/sisik/backgroundcam/CamService.kt:251-262 | inserting into a keyed list gives a keyed list one longer, with the inserted element added to its multiset |
| `SizeSelection.CandidateAspect` | app/src/main/java/eu/sisik/backgroundcam/CamService.kt:254-255 | a candidate's aspect is short side over long side, so it lies in (0, 1] whatever the orientation |
| `SizeSelection.SortNearestToFurthest` | app/src/main/java/eu/sisik/backgroundcam/CamService.kt:251-262 | the sorted list is a permutation of the supported sizes |
| `StableSort.SortedWith` | app/src/main/java/eu/sisik/backgroundcam/CamService.kt:251-262 | `sortedWith` returns a permutation of its input with the same length |
| `StableSort.SortedWithIsOrdered` | app/src/main/java/eu/sisik/backgroundcam/CamService.kt:251-262 | the sorted list is ordered by the first selector, then by the second |
| `StableSort.SortedWithHeadIsEarliestLeast` | app/src/main/java/eu/sisik/backgroundcam/CamService.kt:251-266 | the first sorted element is the earliest input element with the least key: every element before it compares strictly after it, no element from it on compares before it (stability of `sortedWith`) |
| `SizeSelection.SortIsNearestToFurthest` | app/src/main/java/eu/sisik/backgroundcam/CamService.kt:251-262 | the sorted sizes are ordered by aspect distance, then by area distance |
| `SizeSelection.ChooseStrictlyNearest` | app/src/main/java/eu/sisik/backgroundcam/CamService.kt:251-266 | a supported size strictly nearer than every other position is the one chosen |
| `SizeSelection.ChooseSupportedSize` | app/src/main/java/eu/sisik/backgroundcam/CamService.kt:234-269 | an empty list gives `Size(320, 200)`; otherwise the result is one of the supported sizes |
| `SizeSelection.ChooseIsEarliestNearest` | app/src/main/java/eu/sisik/backgroundcam/CamService.kt:248-266 | the chosen size sits at an index with no nearer size anywhere and only strictly further sizes before it |
| `SizeSelection.ChooseMinimisesAspectDistance` | app/src/main/java/eu/sisik/backgroundcam/CamService.kt:249-257 | no supported size has a smaller aspect distance to the un-normalised target aspect than the chosen size |
| `SizeSelection.ChooseMinimisesAreaAmongAspectTies` | app/src/main/java/eu/sisik/backgroundcam/CamService.kt:248-262 | among sizes with the chosen size's aspect distance, none has a smaller area distance (aspect dominates area) |
| `SizeSelection.ChooseKeepsEnumerationOrderOnTies` | app/src/main/java/eu/sisik/backgroundcam/CamService.kt:251-266 | a size that ties the chosen one on both keys does not come before the chosen size's first occurrence |
| `SizeSelection.LandscapeTargetChoosesSquarest` | app/src/main/java/eu/sisik/backgroundcam/CamService.kt:249-256 | for a target with width >= height, the chosen size has the largest short/long ratio of all supported sizes |
| `SizeSelection.PortraitTargetSidesWin` | app/src/main/java/eu/sisik/backgroundcam/CamService.kt:248-262 | for a target with width <= height that is itself supported, the result has the target's sides in one of the two orientations |
| `SizeSelection.LandscapeExampleChoosesSquarest` | app/src/main/java/eu/sisik/backgroundcam/CamService.kt:248-266 | 1920x1080, 1280x720, 640x480 with target 1280x720 yield 640x480 |
| `SizeSelection.PortraitExampleChoosesTargetSides` | app/src/main/java/eu/sisik/backgroundcam/CamService.kt:248-266 | the same sizes with target 720x1280 yield 1280x720, the target's sides turned landscape |
| `SizeSelection.TransposeListedFirstBeatsExactMatch` | app/src/main/java/eu/sisik/backgroundcam/CamService.kt:251-266 | with 1280x720 listed before 720x1280 and target 720x1280, both tie on both keys and 1280x720 is chosen, not the exact match |
| `CameraSearch.FirstFront` | app/src/main/java/eu/sisik/backgroundcam/CamService.kt:204-213 | the search finds nothing exactly when no camera faces front, and otherwise the id of some front camera |
| `CameraSearch.FirstFrontIsFirst` | app/src/main/java/eu/sisik/backgroundcam/CamService.kt:204-213 | the search finds nothing exactly when no camera faces front; otherwise it finds the id of a front camera with no front camera before it |
| `CameraSearch.FirstFrontAt` | app/src/main/java/eu/sisik/backgroundcam/CamService.kt:204-213 | the first front camera in enumeration order is the one found |
| `CameraSearch.FindFrontCamera` | app/src/main/java/eu/sisik/backgroundcam/CamService.kt:204-213 | the `for`/`break` loop returns the specified first front camera id, or null |
| `VideoPath.DecimalString` | app/src/main/java/eu/sisik/backgroundcam/CamService.kt:449 | the time stamp renders as a non-empty digit string without leading zeros |
| `VideoPath.DecimalRoundTrip` | app/src/main/java/eu/sisik/backgroundcam/CamService.kt:449 | reading the rendered time stamp back gives the time stamp |
| `VideoPath.VideoFileName` | app/src/main/java/eu/sisik/backgroundcam/CamService.kt:449 | the filename is a decimal numeral followed by `.mp4`, with no '/' in it |
| `VideoPath.VideoFilePath` | app/src/main/java/eu/sisik/backgroundcam/CamService.kt:448-457 | without a directory the path is the filename and has no '/'; with one, the '/' added after the directory is the path's last, the directory precedes it and the filename follows it |
| `VideoPath.VideoFilePathRoundTrip` | app/src/main/java/eu/sisik/backgroundcam/CamService.kt:448-457 | the path is `<millis>.mp4` without a directory and `<dir>/<millis>.mp4` with one: parsing it recovers both the time stamp and the directory, whatever the directory's characters |
| `CamHandles.StopClosesInOrder` | app/src/main/java/eu/sisik/backgroundcam/CamService.kt:374-388 | `stopCamera` closes each held handle exactly once, the session first, the device before the reader, the reader last, and nothing when all are null |
| `CamHandles.CamService.constructor` | app/src/main/java/eu/sisik/backgroundcam/CamService.kt:43-46 | a new service holds no device, session or reader |
| `CamHandles.CamService.StopCamera` | app/src/main/java/eu/sisik/backgroundcam/CamService.kt:374-388 | afterwards all three handles are null, and the close calls are session, device, reader, skipping null ones |
| `CamHandles.CamService.StopCameraTwice` | app/src/main/java/eu/sisik/backgroundcam/CamService.kt:374-388 | a second `stopCamera` closes nothing more and leaves all handles null |
| `CamHandles.CamService.OnOpened` | app/src/main/java/eu/sisik/backgroundcam/CamService.kt:103-106 | the opened device is stored, and `createCaptureSession` stores a new reader |
| `CamHandles.CamService.CreateCaptureSession` | app/src/main/java/eu/sisik/backgroundcam/CamService.kt:317-320 | the new `ImageReader` replaces the field without the old one being closed |
| `CamHandles.CamService.OnDisconnected` | app/src/main/java/eu/sisik/backgroundcam/CamService.kt:108-111 | the reported device is closed and `cameraDevice` becomes null; session and reader are untouched |
| `CamHandles.CamService.OnError` | app/src/main/java/eu/sisik/backgroundcam/CamService.kt:113-116 | the reported device is closed and `cameraDevice` becomes null; session and reader are untouched |
| `CamHandles.CamService.OnConfigured` | app/src/main/java/eu/sisik/backgroundcam/CamService.kt:342-348 | with a null device the configured session is ignored, otherwise it becomes `captureSession` |
| `CamHandles.CamService.StopThenLateConfigured` | app/src/main/java/eu/sisik/backgroundcam/CamService.kt:342-346 | a session configured after `stopCamera` is never stored: all handles stay null |
| `CamHandles.CamService.InitCam` | app/src/main/java/eu/sisik/backgroundcam/CamService.kt:200-232 | without a front camera `initCam` fails (the `!!` at line 215); otherwise the preview size is chosen among that camera's sizes and the open is requested exactly when the CAMERA permission is granted |
| `CamHandles.CamService.Start` | app/src/main/java/eu/sisik/backgroundcam/CamService.kt:158-163 | `start` turns the preview off and runs `initCam` with the 320x200 target |

## Left out

- Float rounding: the aspect key is computed with exact rationals. Kotlin computes it in 32-bit `Float`, which can order near-ties differently.
- Int overflow: sizes are required to have positive sides and an area that fits a Kotlin `Int` (`ValidSize`). Within that bound the area products and their difference do not wrap, so mathematical integers are exact. Larger sizes, where the source's products would wrap, are not modelled.
- A zero target height makes the source divide by zero in `Float` (Infinity, or NaN when the width is 0 too). A zero width gives target aspect 0 and area 0, which the source handles normally. `ValidSize` excludes both.
- Camera2 asynchronous plumbing: `openCamera`, `createCaptureSession`, `setRepeatingRequest`, the capture callbacks and the capture request parameters are host calls. Only their effects on the three handle fields are modelled. The callbacks are methods that a caller invokes in some order. Thread confinement is not modelled.
- `CameraAccessException` inside `createCaptureSession` and `onConfigured`, and exceptions from `close()` in `stopCamera`, are not modelled. The model takes every host call to succeed.
- `CamHandles.CamService.InitCam`: the permission check is a boolean parameter. `outputSizes` gives the supported sizes of every listed camera, as `getCameraCharacteristics` does for an id the manager lists.
- `startWithPreview` and the overlay (`initOverlay`, the `TextureView` listener) are window-manager calls. They are not modelled, apart from the target size they pass to `initCam`.
- `MediaRecorder`: `setUpMediaRecorder`, `startRecordingVideo`, `stopRecordingVideo` and the recording session's `onConfigured` are left out. They wrap the platform encoder, and their bitrate and frame-rate constants only pass through. Only `getVideoFilePath` is modelled.
- `getVideoFilePath`: the clock and `getExternalFilesDir` are parameters. The directory is its absolute path as a string.
- `VideoPath.VideoFilePath`: `millis` is a `nat`, while `System.currentTimeMillis()` is a `Long`; a negative clock value, which would render with a leading '-', is excluded.
- The `imageListener` frame callback only logs and closes the frame. The unused orientation tables, the notification, the toasts and the permission-result handling are left out.
