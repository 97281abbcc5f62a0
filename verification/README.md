# person_follower: detection-to-motion decision core

A Dafny model of the decision chain of the person-following robot: the
camera frame's width is split into LEFT, CENTER and RIGHT bands
(`VideoStream.split_into_zones`), the person detector picks the most
confident person row from the object detector's output and classifies the
centre of its box into a zone (the post-inference half of
`PersonDetector.detect`), and `decide_action` turns the resulting
`{found, zone, bbox}` record into one of four action strings.

Modules, one per source file:

- `Zones` (`person_follow/camera/video_stream.py`): the band split as a pure function.
- `Detection` (`person_follow/detection/detection.py`): the selection loop as a
  method with loop invariants, the centre, boundary choice and zone
  classification as functions, and `Detect` composing them.
- `Decision` (`person_follow/decision/decision.py`): `decide_action` as a function,
  with lemmas tying it to the detector's output.
- `Wrappers`: the `Option` type standing for Python's `None`.

Zones and actions stay strings, as in the source; the closed sets they come
from are proved. Python's `//` floors and Dafny's `/` is Euclidean; the two
agree whenever the divisor is positive, which holds for every division here
(by 3 for the bands, by 2 for the box centre, where pixel coordinates may be
negative).

## Model

| member | source | states |
|---|---|---|
| `Zones.SplitIntoZones` | person_follow/camera/video_stream.py:30-47 | reports the frame's width and height; bands start at 0 and end at `w`; contiguous (left end = center start, center end = right start); ordered within `[0, w]`; the cuts are the floors of `w/3` and `2w/3` |
| `Zones.BandsPartitionFrame` | person_follow/camera/video_stream.py:38-44 | every column `0 <= x < w` lies in exactly one of the three bands |
| `Zones.BandsNearlyEqual` | person_follow/camera/video_stream.py:30-44 | the bands are as equal as integer division allows: left band is `w // 3` wide, the others `w // 3` or `w // 3 + 1`, center no wider than right, widths sum to `w` |
| `Detection.SelectBest` | person_follow/detection/detection.py:54-75 | no box is kept iff no person row at or above the threshold beats confidence 0; otherwise the kept box and confidence are those of the first eligible row of maximal confidence (only class 15, `conf >= threshold`); with a positive threshold a box is kept iff some eligible row exists |
| `Detection.FirstBestUnique` | person_follow/detection/detection.py:65-75 | the first eligible row of maximal confidence is unique, so the selection is determined by the rows |
| `Detection.CenterX` | person_follow/detection/detection.py:86 | the centre is the floor of the box's horizontal midpoint and lies between `x1` and `x2` |
| `Detection.Boundaries` | person_follow/detection/detection.py:91-97 | without zone information the boundaries are the floors of `w/3` and `2w/3`, ordered within `[0, w]`; with it, the end of its left band and the end of its center band |
| `Detection.Classify` | person_follow/detection/detection.py:99-104 | LEFT iff `cx < left_end`; CENTER iff `left_end <= cx < right_start`; RIGHT iff `cx >= left_end` and `cx >= right_start`; always one of the three names |
| `Detection.ZoneOf` | person_follow/detection/detection.py:85-104 | the zone of a box is always LEFT, CENTER or RIGHT: LEFT iff its centre is left of the left boundary, CENTER iff between the boundaries, RIGHT iff at or past both |
| `Detection.Detect` | person_follow/detection/detection.py:54-110 | result is well formed (not found: zone and bbox None; found: a bbox and a zone in LEFT/CENTER/RIGHT); found iff an eligible row beats 0 (iff an eligible row exists when the threshold is positive); when found, bbox is the first best row's box and zone is `ZoneOf` that box (its centre classified against the chosen boundaries) |
| `Detection.SplitMatchesFallback` | person_follow/detection/detection.py:91-97 | passing the frame's own `split_into_zones` output gives the same boundaries, and the same zone, as passing no zone information |
| `Detection.ZoneIsBandOfCenter` | person_follow/detection/detection.py:99-104 | with the frame's own split, the zone is the band holding the box centre (LEFT also for centres left of the frame, RIGHT for centres at or past its right edge) |
| `Decision.DecideAction` | person_follow/decision/decision.py:3-32 | result is one of the four action strings; not found gives STOP; MOVE_FORWARD iff found with CENTER, TURN_LEFT iff found with LEFT, TURN_RIGHT iff found with RIGHT; STOP iff not found or the zone is missing or unrecognised |
| `Decision.DecideActionByTable` | person_follow/decision/decision.py:18-32 | the decision equals the zone-to-action table entry for a found, recognised zone, and STOP otherwise |
| `Decision.MovingActionDeterminesZone` | person_follow/decision/decision.py:21-30 | any action other than STOP comes from a found record whose zone is the unique zone mapped to that action |
| `Decision.DecideActionIgnoresBox` | person_follow/decision/decision.py:3-16 | the action depends only on `found` and `zone` |
| `Decision.StopIffNotFound` | person_follow/decision/decision.py:18-32 | on a well-formed detection record the action is STOP exactly when no person was found |
| `Decision.SteersTowardsPerson` | person_follow/decision/decision.py:21-30 | for a found box classified by the detector, TURN_LEFT iff its centre is left of the left boundary, MOVE_FORWARD iff between the boundaries, TURN_RIGHT iff at or past both; never STOP |

## Left out

- Model inference: building the ONNX session, `preprocess` and `session.run`
  (`person_follow/detection/detection.py:14-37, 49-52`) are a foreign neural
  network and float image processing; the model starts from the row sequence.
- The float-to-pixel conversion `int(x * w)` of the selected box
  (`person_follow/detection/detection.py:70-75`): rows carry pixel coordinates
  as integers, so the frame height is not needed. Confidences are reals used
  only in comparisons.
- The class id is a float in the detector's output and is truncated by `int`;
  the model takes it as an integer.
- `PersonDetector` holds the threshold, the ONNX session and the session's
  input name and shape (`person_follow/detection/detection.py:14-26`); lines
  54-110 read only the threshold, which the model passes as a parameter of
  `SelectBest` and `Detect`.
- A zone information dictionary without the `"left"` or `"center"` key, or a
  detection record without `"found"` or `"zone"`, raises `KeyError` in Python;
  the records here are datatypes that always have these entries.
- `VideoStream.__init__`, `get_frame` and `stop`
  (`person_follow/camera/video_stream.py:6-28, 49-52`): camera I/O.
- `person_follow/main.py`: the control loop (camera reads, frame skipping,
  sleeps, windows, FPS timing). It imports `PersonFollowerBrain` from
  `decision/decision.py` and `apply_motion_command` and `stop_bot` from
  `actions/actions.py`, but neither module defines them: `decision.py` defines
  only `decide_action`, and `actions.py` defines `move_forward`,
  `move_backward`, `turn_left`, `turn_right` and `stop`. With no definition to
  follow, the stateful brain and the motion commands are not modelled.
- `person_follow/actions/actions.py`: wrappers over a motor driver that is not
  part of this model.
- `person_follow/app_mssd.py`, `person_follow/web/web_ui.py`: HTTP servers,
  camera threads and drawing (I/O and concurrency).
- `person_follow/config/constants.py`: speed constants and float zone ratios
  that the modelled code does not use.
- `convert_to_onnx.py`, `test_onnx.py`: model export and a one-off inference script.
