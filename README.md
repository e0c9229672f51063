# FRC shot tracker: the tracking loop and its wire format, in Dafny

The shot tracker's server watches a camera. In every frame it finds
orange contours, reduces each one to the centroid of its bounding
rectangle, and tracks how fast that centroid moves from one contour to the
next. When the speed changes by more than a threshold, it reports a shot at
the current centroid by writing the line `x,y` to the connected client.
`server.py` also defines `send_corners`, which builds a `CORNERS:` message
announcing the frame's corners; nothing calls it.

The Dafny project models this core in four modules:

- `Wrappers` (`wrappers.dfy`): the `Option` type, standing for Python's `None`.
- `Wire` (`wire.dfy`): the text the server writes.
  - Integers are rendered as Python's `str` renders them.
  - `EventLine` is the shot line `f"{x},{y}\n"`.
  - `CornersMessage` is the corner announcement.
  - A client-side parser for each message comes with a round-trip lemma:
    every message parses back to the numbers it was built from.
- `Tracking` (`tracking.dfy`): the tracker as pure functions.
  - `Observe` is the body of the loop over contours.
  - `Feed` runs `Observe` contour after contour, from the two memos
    `prev_center` and `prev_velocity`.
  - `Centroids` and `WindowEvents` give an independent description: the list
    of qualifying centroids, and a window of three consecutive ones that fires
    when the speed between the last two differs from the speed between the
    first two by strictly more than the threshold.
  - `FeedFromInitial` proves that the running tracker and the description agree.
- `Server` (`server.dfy`): the stateful part.
  - `Session` is a class whose fields are the two memos and the list of
    messages written to the socket so far.
  - Its methods `ProcessContours` (the loop over one frame's contours),
    `ObserveContour` (that loop's body),
    `DetectShots` (the loop over frames) and `SendCorners` are imperative.
    Each is proved against the functions above.
  - `HandleClient` runs one client's session and states what the client
    receives.

The camera and OpenCV are the input: a list of frames, each the list of
contours found in it, each contour its bounding rectangle
(`x`, `y`, `w`, `h`) and its area. `np.sqrt` is a parameter `sqrt` of the
model. Where only the sign of a speed matters, a lemma requires
`NeverNegative(sqrt)`, which `np.sqrt` always meets. Where arithmetic on
speeds is needed, it requires `IsSquareRoot(sqrt)`: the root is never
negative and is exact on perfect squares.

The model follows the code where a design for tracking one marker would
read differently:

- The loop at `server.py:59-90` does not pick the largest contour of a frame.
  It feeds every contour of area above 100 to the tracker, in the order
  OpenCV lists them. Several contours in one frame therefore advance the
  memos several times, and the model does the same.
- The area test is strict (`> 100`, `server.py:60`), so a contour of area
  exactly 100 is ignored.

## Model

| member | source | states |
|---|---|---|
| Wire.EventLine | server.py:82 | the shot line `f"{x},{y}\n"`; what it promises is stated by Wire.EventLineRoundTrip (it parses back to exactly (x, y)) and Wire.IntToDecimal (neither number holds a `,` or a newline) |
| Wire.Join | server.py:17 | `','.join(...)`; specified by Wire.SplitJoin (splitting gives the fields back) and Wire.JoinSnoc (one more field adds the separator and that field) |
| Wire.CornersMessage | server.py:10-18 | the text `send_corners` writes; specified by Wire.CornersRoundTrip and Wire.JoinPairTexts |
| Wire.NatToDecimal | server.py:82 | the decimal text of a natural is non-empty and all digits; it is `0` for zero and otherwise has no leading zero |
| Wire.IntToDecimal | server.py:82 | the text of an integer is non-empty and holds no `,` and no newline; it starts with `-` exactly when the integer is negative |
| Wire.NatDecimalRoundTrip | server.py:82 | reading the decimal text of a natural gives back that natural |
| Wire.IntDecimalRoundTrip | server.py:82 | reading the text of any integer, negative ones included, gives back that integer |
| Wire.SplitJoin | server.py:17 | for a non-empty list of fields, none of which contains `,`, splitting their `,`-join on `,` gives back the fields |
| Wire.EventLineRoundTrip | server.py:82 | the shot line for (x, y) ends in a newline, has exactly two fields, and parses back to (x, y) |
| Wire.JoinPairTexts | server.py:17 | joining the `x,y` texts of the corners with `,` is the same text as joining all their coordinates with `,` |
| Wire.ParseIntsDecimals | server.py:17 | the decimal texts of a list of integers read back to that list |
| Wire.CornersCoordinates | server.py:10-15 | the corners' coordinates in order are 0, 0, w, 0, w, h, 0, h |
| Wire.CornersFields | server.py:17-18 | the corner message is at least nine characters, starts with `CORNERS:`, ends in a newline, and the text between splits on `,` into the decimal texts of the corners' coordinates |
| Wire.CornersRoundTrip | server.py:8-18 | the corner message starts with `CORNERS:`, ends in a newline, and parses to the eight coordinates (0,0), (w,0), (w,h), (0,h) in that order |
| Tracking.Qualifies | server.py:60 | a contour takes part exactly when its area is strictly above 100; see Tracking.SmallContourIgnored and Tracking.SendsIff |
| Tracking.Speed | server.py:72-74 | `np.sqrt(dx**2 + dy**2)` with `np.sqrt` the parameter `sqrt`; see Tracking.AxisSpeed, Tracking.EqualDisplacementEqualSpeed and Tracking.StillSpeed |
| Tracking.SpeedBetween | server.py:71-74 | the speed from the remembered centroid to the current one; see Tracking.StillSpeed and Tracking.FeedVelocityNonNegative |
| Tracking.Observe | server.py:60-90 | one pass of the loop body; see Tracking.SmallContourIgnored, Tracking.SendsIff and Tracking.ObserveMemo |
| Tracking.Feed | server.py:59-90 | the loop over contours as a function; see Tracking.FeedFromInitial, Tracking.FeedAppend, Tracking.FeedMemos and Tracking.FeedVelocityNonNegative, and Server.Session.ProcessContours, whose loop is proved equal to it |
| Tracking.Centroid | server.py:61-62 | the centroid is the rectangle's corner plus half its width and height, rounded down; for a rectangle of non-negative size it lies inside the rectangle |
| Tracking.FloorSqrtIsSquareRoot | server.py:74 | the integer square root rounded down meets `IsSquareRoot`, so the lemmas that assume it hold of at least one square root |
| Tracking.AxisSpeed | server.py:72-74 | a move of d along one axis only has speed \|d\| |
| Tracking.EqualDisplacementEqualSpeed | server.py:72-74 | two moves with the same dx²+dy² have the same speed, whatever `sqrt` is |
| Tracking.SmallContourIgnored | server.py:60 | a contour of area at most 100 changes neither memo and sends nothing |
| Tracking.SendsIff | server.py:71-83 | one contour sends if and only if it qualifies, both memos are set, and the speed changes by strictly more than the threshold; what it sends is its own centroid |
| Tracking.ObserveMemo | server.py:59-90 | from the memos left by the centroids q, a qualifying contour leaves the memos for q plus its centroid, and sends exactly when the last window of three fires |
| Tracking.FeedFromInitial | server.py:29-90 | run from empty memos, the loop ends with the memos for the qualifying centroids and sends exactly the window description's positions, in order |
| Tracking.WarmUp | server.py:71-87 | with fewer than three qualifying centroids nothing is sent; the memos after zero, one and two centroids are (None, None), (c, None) and (c2, speed c1 to c2) |
| Tracking.WindowEventsAreLater | server.py:76-83 | every position in the window description is a centroid from the third on |
| Tracking.EventsAreLaterCentroids | server.py:76-83 | the loop sends at most one position per qualifying centroid after the first two, and each one is such a centroid |
| Tracking.NextContourSends | server.py:59-90 | one more contour adds its centroid to what was sent exactly when it qualifies and, with the two centroids before it, fires; otherwise it adds nothing |
| Tracking.FeedAppend | server.py:35-90 | feeding two lists of contours in a row is the same as feeding their concatenation, so the memos carry over from frame to frame |
| Tracking.FeedMemos | server.py:86-90 | from any memos, `prev_center` ends at the last qualifying centroid, and `prev_velocity` ends at the speed into it (from the remembered centroid when it is the frame's only one); with no qualifying contour both memos stay unchanged |
| Tracking.FeedVelocityNonNegative | server.py:74-87 | for a square root that is never negative (`NeverNegative`, nothing more), `prev_velocity`, once set, stays non-negative across any list of contours, because it is only ever assigned a speed |
| Tracking.SteadyWindowNeverFires | server.py:76-80 | in the window description, centroids moving by a constant displacement never fire, for any threshold of at least 0 |
| Tracking.SteadyMotionNeverSends | server.py:70-83 | contours whose qualifying centroids move by a constant displacement never cause a send |
| Tracking.StillSpeed | server.py:72-74 | a centroid that did not move has speed 0 |
| Tracking.StartFromRestFires | server.py:76-83 | after two identical centroids, a move along x by more than the threshold sends the new centroid |
| Tracking.StopThenMoveCentroids | server.py:61-62 | three 20×20 rectangles at (90,90), (90,90) and (140,90) have centroids (100,100), (100,100) and (150,100) |
| Tracking.StopThenMoveSendsOnce | server.py:29-90 | with threshold 0, those three contours send exactly one position, (150,100) |
| Server.EventLinesParse | server.py:82-83 | there is one line per shot position, and each line parses back to its position |
| Server.Session.constructor | server.py:29-30 | a new session has written nothing and both memos are `None` |
| Server.Session.SendCorners | server.py:8-18 | the corner message for the frame size is appended to what was written; the memos are unchanged |
| Server.Session.ObserveContour | server.py:60-90 | one contour moves the memos as `Observe` does, and writes the shot line for the position `Observe` reports, or nothing when it reports none |
| Server.Session.ProcessContours | server.py:59-90 | after one frame the memos are those of `Feed` from the old memos, and what was written grew by the lines for `Feed`'s positions |
| Server.Session.DetectShots | server.py:29-90 | the memos restart empty; after all frames they are `Feed`'s memos for all contours in order, and what was written grew by one line per position `Feed` reports; for a square root that is never negative (`NeverNegative`), the final `prev_velocity` is never negative |
| Server.HandleClient | server.py:101-108 | a client receives one line per position of the window description over all frames' qualifying centroids, and each line parses back to one of those centroids from the third on |

## Left out

- Camera and image processing (`server.py:22-27`, `36-56`, and the camera release at `98`): capture, HSV conversion, colour mask, background subtraction, thresholding and `findContours` are OpenCV calls. The model takes their result as input: the contours of each frame, each with its bounding rectangle and area.
- The end of the frame loop (`server.py:37-38`, `95-96`) is the end of the frame list. A failed read and the `q` key both just stop it.
- Drawing and display (`server.py:65-68`, `93`, `99`) and the `print` calls only produce output on the server's own screen, so they are left out.
- The local `current_velocity` (`server.py:58`) is assigned and never read, so it is left out.
- Sockets, threads and signals (`server.py:110-138`) are left out, as are the exception handler and the socket close in `handle_client` (`server.py:104-108`). A socket is modelled as the list of messages written to it. `send` is taken to write the whole message. The byte encoding of the text (UTF-8, which is ASCII for these characters) is left out.
- Floating point: areas and speeds are exact reals, and `np.sqrt` is the parameter `sqrt`. Speed lemmas that need arithmetic only assume that it is never negative and exact on perfect squares. Rounding of `dx**2 + dy**2` beyond 2^53 and of float subtraction is not modelled.
- Tracking.AxisSpeed, Tracking.StillSpeed, Tracking.StartFromRestFires, Tracking.StopThenMoveSendsOnce: these hold for a `sqrt` that is exact on perfect squares, as `IsSquareRoot` asks (Tracking.FloorSqrtIsSquareRoot shows one exists). The model does not check this against IEEE `np.sqrt`, which is exact on perfect squares only up to 2^53.
- Server.Session.SendCorners: the frame size is taken as an integer. `send_corners` is never called in `server.py`. Called with `cap.get` results, which are floats, Python would write `640.0` rather than `640`.
- Four offline scripts are not part of this model; `server.py` calls none of them, and none of them writes to a client.
  - `camera_calibration/calibrate_vel_threashold.py` runs a copy of the contour and velocity loop under a threshold trackbar and only draws on screen. Its threshold is the trackbar's value, not a constant. Unlike `server.py`, it sets `prev_velocity` even when there is no previous centroid (its line 76), where `velocity` is still unbound on the first qualifying contour.
  - `collect_data.py` runs the contour pipeline on the camera and only draws on screen.
  - `camera_calibration/calibrate_camera_colors.py` only tunes an HSV colour mask on a still image with trackbars.
  - `calculate_accuracy.py` only computes distance statistics over a hard-coded list of points, without OpenCV.
