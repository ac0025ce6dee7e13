# Photo-booth session logic in Dafny

A model of the session logic of the `piggybooth` photo booth (`booth.py`).
Rendering, the camera, the GUI and the network are stripped away.

The booth waits for a start (the Return key, or the big red button reported over
serial). It then runs a timed shoot sequence: get ready, 3, 2, 1, shoot. The
sequence repeats from 3 until three photos are taken. The booth composites the
photos into a portrait strip and asks for an email address. It hands the strip
to a background mailer if the address passes its exclusion test. It then shows
thanks and goes back to waiting, under a new session number.

Modules, one per part of the script:

- `Phases` (`phases.dfy`): the `ShootPhase` enum and its cyclic successor.
- `Geometry` (`geometry.dfy`): the scale-to-cover arithmetic of
  `get_resize_transform` and the centred crop box used by `generate_strip`.
- `Strip` (`strip.dfy`): the slot layout and the loop of `generate_strip`.
- `Naming` (`naming.dfy`): the capture and strip file names. `str.format` is
  modelled as a list of fields (text, `{}` of an integer, `{:0Nd}` of an
  integer), with Python's decimal and zero-padded formatting written out. It
  also has a parser for capture names.
- `EmailPolicy` (`email_policy.dfy`): the test that decides whether an
  address gets a mail.
- `Events` (`events.dfy`): the polled input events and the serial listener's
  mapping from a line to an event.
- `Booth` (`booth.dfy`): class `BoothView`, which holds the fields
  `switch_state`, `shoot_state`, `collect_email` and the `run` loop update in
  place. Its invariant `Valid()` says:
  - photos taken plus photos left is always `SHOT_COUNT`;
  - a shooting session always has a photo left to take;
  - the shot counter numbers the current session's photos;
  - photo `k` of a session is named after that session and `k`;
  - each phase's wait is the one its place in the sequence calls for (5 s for
    get ready, 2 s after a shot, 1 s otherwise).
- `Wrappers` (`wrappers.dfy`): `Option`.

Modelling choices:

- Time is a parameter. Each tick receives an integer clock reading `now`, and
  every `time.time()` call within one tick reads that value.
- The email prompt's answer is an `Option<string>` parameter.
- The size the image decoder reports for a capture is a function parameter
  `sizeOf`. PIL's `rotate(-90)` without `expand` keeps an image's size.
  `generate_strip` needs a positive size only for the images it is given.
  The booth's per-tick operations need it for every name the booth can
  capture to (`CapturesDecode`), because the session and shot are not known
  in advance.
- A capture is "append the generated file name".
- The script is Python 2 (`print` statements). So `crop[0]/2` on the int crop
  is floor division, which is Dafny's `/` for a divisor of 2.
- Python floats are modelled as exact reals. `int()` of a positive value is
  its floor.

Behaviour of the script the model keeps:

- Scaled sizes are truncated, not rounded, and negative crops are not clamped.
  With exact reals no negative crop arises.
- After a shot the phase goes back to three, not to get ready.
- `ShootPhase` numbers its phases 4, 3, 2, 1, 5, and `__next__` counts down
  by value.
- `generate_strip` fails (with `IndexError`) only when there are fewer images
  than slots. It uses only the first three images and ignores any extra ones.
- A failed capture is not retried. The script has no failure path, so the
  model has none.

## Model

| member | source | states |
|---|---|---|
| `Phases.Value` | booth.py:47-52 | each phase's enum value is between 1 and 5, and only shoot has 5 |
| `Phases.FromValue` | booth.py:59 | the lookup `ShootPhase(v)` succeeds exactly for 1..5 and returns the phase with that value |
| `Phases.Next` | booth.py:54-59 | the successor is never get ready; it is shoot exactly when the phase is one; any other countdown phase steps its value down by one |
| `Phases.StepsToShoot` | booth.py:47-59 | from any phase other than shoot, shoot is reached after exactly as many advances as the phase's value (the number on screen) and not before; from get ready that is four |
| `Phases.CaptureCycle` | booth.py:54-59 | after a shot the phases repeat with period four |
| `Geometry.Max` | booth.py:328 | Python's `max` of two ratios is one of them and at least both |
| `Geometry.ResizeTransform` | booth.py:322-333 | for positive sizes the scaled size covers the target on both axes; the crop is scaled size minus target, both non-negative; the axis that decided the scale is not cropped |
| `Geometry.FloorDiv` | booth.py:329 | `int()` of a non-negative quotient of integers is their floor division |
| `Geometry.RatioOrder` | booth.py:326-328 | the width ratio is the larger exactly when `desired.w * current.h >= desired.h * current.w`, so the choice needs no division |
| `Geometry.WidthDecides` | booth.py:326-333 | when the width ratio is at least the height ratio, the image is scaled to exactly the target width and to height `current.h * desired.w // current.w` |
| `Geometry.HeightDecides` | booth.py:326-333 | when the height ratio is larger, the image is scaled to exactly the target height and to width `current.w * desired.h // current.h` |
| `Geometry.ResizeIdentity` | booth.py:326-333 | an image already of the target size gets the target size and a zero crop |
| `Geometry.CropBox` | booth.py:244 | the box is exactly the piece size; with a non-negative crop its origin is non-negative and it lies inside the scaled image; it is centred to within one pixel |
| `Geometry.CoverThenCrop` | booth.py:242-244 | scaling to cover and cropping the centred box yields exactly the target size, taken from inside the scaled image |
| `Strip.Place` | booth.py:239-245 | each photo is scaled to the size `get_resize_transform` gives for a 533x833 piece; the cropped piece is exactly 533x833, lies inside the scaled photo and is centred in it to within one pixel on each axis |
| `Strip.SlotsDisjoint` | booth.py:237-238 | the three pasted pieces do not overlap on the template |
| `Strip.GenerateStrip` | booth.py:233-249 | the strip is produced exactly when there are at least as many images as slots; slot k holds image k placed as `Place` says; the strip is saved under the session's strip name; only the images given need a positive decoded size |
| `Naming.DigitChar` | booth.py:152 | a digit below ten becomes the character of that digit |
| `Naming.Decimal` | booth.py:152 | the decimal text of a number is a non-empty run of digits with no leading zero |
| `Naming.ZeroPad` | booth.py:152-153 | `{:04d}`/`{:02d}` give digits only, at least the requested width, longer only when the number needs it |
| `Naming.FormatAppend` | booth.py:152-154 | formatting two runs of fields one after the other is formatting them together |
| `Naming.CaptureNameShape` | booth.py:152-154 | a capture is written to `images/Booth`, then the decimal process id, a dash, the session padded to four digits, the shot padded to two, then `.jpg` |
| `Naming.StripNameShape` | booth.py:247 | the strip is written to `images/Booth`, then the decimal process id, a dash, the session padded to four digits, `-Strip`, then `.jpg` |
| `Naming.CaptureIsStoredJpeg` | booth.py:152-154 | every capture file is a `.jpg` in the `images` directory whose name starts with `Booth` |
| `Naming.StripIsStoredJpeg` | booth.py:247 | every strip file is a `.jpg` in the `images` directory whose name starts with `Booth` |
| `Naming.DecimalValue` | booth.py:152 | reading back the decimal text of a number gives the number |
| `Naming.ZeroPadValue` | booth.py:152-153 | reading back a zero-padded number gives the number |
| `Naming.CaptureNameRoundTrip` | booth.py:152-154 | every capture name parses back to the process id, session and shot it was built from (shots below 100) |
| `Naming.CaptureNamesDistinct` | booth.py:152-156 | two different captures never share a file name |
| `Naming.StripIsNotACapture` | booth.py:247 | a strip name never parses as a capture name |
| `Naming.StripNeverOverwritesCapture` | booth.py:247-248 | the strip file is never one of the capture files |
| `EmailPolicy.EndsWith` | booth.py:184 | `endswith` holds exactly when the suffix fits and the address's last characters match it one by one |
| `EmailPolicy.EndsWithIff` | booth.py:184 | `endswith` holds exactly when the address is some string followed by the suffix |
| `EmailPolicy.ShouldSend` | booth.py:183-187 | only an entered address can be mailed to; an entered address is mailed to exactly when it is not empty, not `null@catalyst.net.nz` and does not end in `example.com`, whatever order the tests run in |
| `EmailPolicy.SendPolicy` | booth.py:183-189 | an entered address is mailed to exactly when it is not empty, not `null@catalyst.net.nz` and not any string followed by `example.com` |
| `EmailPolicy.CancelSendsNothing` | booth.py:184-185 | a cancelled prompt (`None`) sends nothing |
| `Events.IsStop` | booth.py:108-112 | a window close or Escape stops the loop, and no stopping event is a start |
| `Events.IsStart` | booth.py:113-118 | Return or the serial button starts a session; the only key that does is Return |
| `Events.RStrip` | booth.py:316 | `rstrip` gives the longest prefix that does not end in white space, and only white space is removed |
| `Events.SerialEvent` | booth.py:316-320 | a line posts an event exactly when it strips to `d`, and that event is the button press; `r` and anything else post nothing |
| `Events.ButtonLine` | booth.py:316-318 | `d` followed by any line ending or trailing blanks posts the button event, which is a start event |
| `Events.SerialOnlyStarts` | booth.py:316-320 | every event the serial listener posts starts a session and none stops the main loop |
| `Booth.BoothView.constructor` | booth.py:84-102 | a new booth is waiting at get ready with a full quota, no images, shot counter 0, session 1 and the idle frame rate |
| `Booth.BoothView.SwitchState` | booth.py:290-305 | entering shooting sets get ready, the 5 s wait, full quota, no images, the phase start `now` and 60 fps; entering waiting restores the idle frame rate; only leaving thanks resets the shot counter and adds one to the session number |
| `Booth.BoothView.HandleEvents` | booth.py:107-118 | the loop goes on exactly when no event is a quit or Escape; a start event starts a session only from waiting, and otherwise nothing changes |
| `Booth.BoothView.ShootState` | booth.py:142-164 | (`ShootStepped`) nothing changes unless `now` is strictly past phase start plus wait; a countdown phase advances to the next phase with the 1 s wait and nothing else changes; the shoot phase takes a shot as `TakeShot` says; the invariant is kept |
| `Booth.BoothView.TakeShot` | booth.py:146-163 | (`ShotTaken`) a shot appends exactly the capture name of this session and shot, takes one from the quota, adds one to the shot counter, returns to three with the 2 s wait, and moves to email exactly when the quota is used up; the session number and frame rate are kept; the invariant is kept |
| `Booth.BoothView.CollectEmail` | booth.py:170-195 | (`EmailCollected`) the strip holds exactly the session's three photos in capture order, each placed as `Place` says, under the session's strip name; the mailer is handed (address, strip) exactly when the address passes the policy; the state becomes thanks and no other field changes |
| `Booth.BoothView.Step` | booth.py:121-129 | waiting changes nothing; shooting has `ShootState`'s full effect; email has `CollectEmail`'s full effect and yields the strip and dispatch; thanks goes to waiting with the idle frame rate and shot counter 0; only email yields a strip or a dispatch; the session number moves only out of thanks, by exactly one |
| `Booth.BoothView.Tick` | booth.py:106-133 | one loop iteration: it goes on exactly when no event is a quit or Escape; a stopping tick that did not begin in waiting changes nothing; a start from waiting leaves a fresh session; a running tick has the effect `Step` states for its state; the dispatch is exactly (address, this session's strip) for a running email tick whose address passes the policy; the new state is one `MayFollow` allows; the session number rises by one exactly when a running tick leaves thanks |
| `Booth.RunSoFarStep` | booth.py:104-133 | one more tick, with the effect `Tick` states, extends a legal run trace by the state it began in, its dispatch and its share of the session count |
| `Booth.TraceStep` | booth.py:104-133 | extending the trace by one tick extends the mail by that tick's dispatch and the count of thanks states left by that tick's |
| `Booth.MailedPassPolicy` | booth.py:183-191 | every address a run hands to the mailer passed the policy |
| `Booth.BoothView.Run` | booth.py:104-135 | ticks run until one carries a quit or the inputs end; `began` records the state each tick began in, starting from the initial one, and each tick's successor is one `MayFollow` allows; the mailer is handed exactly `Mailed`, one dispatch per running email tick with an accepted address, carrying that session's strip; every address mailed to passed the policy; the session number rose by exactly the number of running ticks that began in thanks; the invariant holds |
| `Booth.StartAndCountDown` | booth.py:113-149 | a start at time 0 then steps at 5, 6, 8, 10, 12: the step at 5 changes nothing (strict comparison), and shoot is reached with no photos |
| `Booth.ShotAndCountDown` | booth.py:142-164 | a shot followed by three, two, one (doubled wait after the shot) appends the next capture name and returns to shoot |
| `Booth.SessionScenario` | booth.py:104-195 | a whole session produces one strip named for session 1 holding captures 0, 1, 2 of session 1 in order, mails it to an accepted address, and the next tick opens session 2 |

## Left out

- Rendering: `update_image`, `draw_centered_text`, `wait_state`'s dimmed preview, blitting, `display.flip`, `clock.tick` and the FPS caption. This is pixel and UI work; only the `fps` field is kept.
- The camera driver: `capture_preview` and `capture_image`. A capture is modelled as appending the generated file name, and capture errors are not modelled.
- PIL in `generate_strip`: opening the template, decoding, rotating, resampling, pasting and saving pixels. Only the box arithmetic, the slot order and the output name are modelled. Each capture's decoded size is a parameter.
- `send_strip`: MIME construction and the SMTP session. This is network I/O. The model stops at the `(address, strip path)` pair handed to the mail thread.
- The email thread and the serial listener thread. This is concurrency plus serial-port I/O. Only the mapping from one serial line to an event is modelled. Opening the port and its failure are not.
- The `easygui.enterbox` prompt and the full-screen toggles around it. The prompt's answer is an `Option<string>` parameter.
- The wall clock: `time.time()` becomes an integer `now` per tick. Fractional seconds are not modelled.
- `Geometry.ResizeTransform`: it uses exact reals where the script divides and multiplies IEEE doubles. Rounding in the doubles could leave a scaled side one pixel short, which would give a negative crop. The exact model cannot show this.
- `Phases.Next`: the model follows `ShootPhase.__next__` as Python 3's `next()` would call it. The script is Python 2 (the `print` statements at booth.py:69-70). In Python 2, `next()` at booth.py:149 and booth.py:159 looks for a `next` method, finds none on the enum, and raises `TypeError` at the first advance of a session. `next()` would work under Python 3, though the file as written does not parse there; and under Python 3 `crop[0]/2` and `crop[1]/2` at booth.py:244 become true division, so the crop offsets would no longer be floor halves. The model keeps Python 2's floor division there.
- `Geometry.ResizeTransform`: the script's tuple-length check raises `ValueError`. A `Dims` pair always has two components, so that check cannot fail here. Zero or negative sizes, which the script would divide by or scale meaninglessly, are excluded by the precondition.
- Startup: the `os.access` check on the preview directory, argparse, `os.mkdir` of the store directory and the `__main__` block.
- `quit_pressed`, which nothing calls.
- `BoothState.quit`, which nothing ever enters. It is declared in the datatype and excluded by `Valid()`.
- Logging `print` calls, including the timing of strip generation.
