# ArduPlane experimental-mode gate

This project models `Plane::set_experimental_mode` from ArduPlane. The function is the gate that switches the aircraft's "experimental mode" on and off. That mode hands throttle control to a machine-learned controller (`g2.mlController`).

- The gate reads one permission flag, `allow_experimental_mode`. It never writes it.
- It owns one flag, `experimental_mode_enabled`.
- Without permission, every call forces the mode off and returns false. It never touches the controller, even when asked to enable.
- With permission, the call applies the requested mode and returns true. This holds for a plain disable too.
- Every permitted request to enable calls `reset()` and then `throttle_freeze()` on the controller. This happens even when the mode is already on: enabling is not edge-triggered.

The model has one module, `ExperimentalMode`, in `experimental_mode.dfy`:

- `Plane` is a class with the two flags and a `const controller`. Its method `SetExperimentalMode` follows the C++ body line by line: the same branches, the same field writes and the same controller calls, in the same order.
- `MlController` stands in for the throttle controller. It keeps only a ghost log of the lifecycle calls it receives. `Reset` and `ThrottleFreeze` each append one entry to that log.
- `Transition` is the same gate written as a pure function of the permission flag and the request. `SetExperimentalMode` is proved to act exactly as `Transition` says, through the ghost `Snapshot` and `After`.
- `Run` applies a series of calls in order. Each call carries the permission flag in force at that moment, so a permission revoked between calls is covered. The lemmas about `Run` state what holds across many calls.
- `CallSeries` calls `SetExperimentalMode` once for each entry of such a series. It is proved to leave the `Plane` in the state `Run` gives, so the `Run` lemmas apply to the class.

A permitted call returns `true` even when it turns the mode off (ArduPlane/ExperimentalMode.cpp:17). The result is the permission flag, not the mode that was applied.

## Model

| member | source | states |
|---|---|---|
| ExperimentalMode.Transition | ArduPlane/ExperimentalMode.cpp:6-17 | Without permission the mode ends off, no controller call is made and the result is false, whatever was requested. With permission the mode ends equal to the request and the result is true, so a permitted disable also returns true. The controller is called exactly when the mode ends on, and then with reset followed by freeze. |
| ExperimentalMode.After | ArduPlane/ExperimentalMode.cpp:6-16 | After one call, the mode is on exactly when the call was permitted and asked to enable. The controller log then gains a reset/freeze pair, and it gains nothing otherwise. |
| ExperimentalMode.Plane.SetExperimentalMode | ArduPlane/ExperimentalMode.cpp:3-18 | The permission flag is unchanged. The result equals the permission flag. The mode ends equal to `allow && requested`, so `!allow ==> !enabled` after every call. The controller log gains exactly `[Reset, Freeze]` on a permitted enable and nothing otherwise. The new state is the one `Transition` prescribes. |
| ExperimentalMode.MlController.Reset | ArduPlane/ExperimentalMode.cpp:13 | The controller call log gains one `Reset` entry at its end. |
| ExperimentalMode.MlController.ThrottleFreeze | ArduPlane/ExperimentalMode.cpp:15 | The controller call log gains one `Freeze` entry at its end. |
| ExperimentalMode.RunSnoc | ArduPlane/ExperimentalMode.cpp:3-18 | Running one more call after a series gives the same state as running the longer series. |
| ExperimentalMode.RunEnabled | ArduPlane/ExperimentalMode.cpp:6-10 | After any non-empty series of calls, the mode is on exactly when the last call was permitted and asked to enable. Earlier calls leave no trace on the mode. |
| ExperimentalMode.EnabledOnlyIfPermitted | ArduPlane/ExperimentalMode.cpp:6-9 | After any non-empty series of calls, the mode can be on only if the last call was made with permission. A revoked permission is enforced at the very next call. |
| ExperimentalMode.RunLog | ArduPlane/ExperimentalMode.cpp:11-16 | A series of calls only appends to the controller's log, and it appends each call's own controller calls in call order. |
| ExperimentalMode.EntriesShape | ArduPlane/ExperimentalMode.cpp:11-16 | The controller sees only reset/freeze pairs, reset first. There is exactly one pair per call that asked to enable while permitted, re-enables included, and nothing for any other call. |
| ExperimentalMode.RevokedIsInert | ArduPlane/ExperimentalMode.cpp:6-9 | A series of calls made without permission leaves the controller log unchanged, even if they ask to enable. If there was at least one call, the mode ends off. |
| ExperimentalMode.ReenableRetriggers | ArduPlane/ExperimentalMode.cpp:10-16 | Two permitted enables in a row leave the mode on after each call. The controller log gains `[Reset, Freeze, Reset, Freeze]`. |
| ExperimentalMode.CallSeries | ArduPlane/ExperimentalMode.cpp:3-18 | Calling the gate on a `Plane` once per invocation, with the permission flag set as each invocation says, leaves the `Plane` in the state `Run` gives. The log gains `Entries` of the series. After a non-empty series the mode equals the last call's `allow && requested`. Each result equals that call's permission flag. The `Plane`'s permission flag ends as the last call's flag, or unchanged for an empty series. |

## Left out

- What `reset()` and `throttle_freeze()` compute inside the controller: its learning algorithm and its floating-point throttle average. The controller class is not part of this model, so only the order and number of calls are recorded. `reset()` and `throttle_freeze()` are assumed not to change the `Plane`'s flags.
- The rest of `Plane` and `Plane.h`. `Plane.h` declares `experimental_mode_enabled` and is not part of this model. The modelled code does not give the field's initial value, so the `Plane` constructor takes it as a parameter.
- Where `allow_experimental_mode` is declared and what sets it. Neither is part of this model. The gate reads the flag at line 6 and never writes it. Here it is a plain field. Changes of the flag between calls appear only as `Invocation` values in the `Run` lemmas and as the write of `p.allow` before each call in `CallSeries`.
- The callers named in the source's comments: waypoint entry, failsafe and mode switches. They are not part of this model.
- Scheduling and threading of the control loop. Each call is one synchronous step.
