# monitro: display-configuration requests and the focus-mode toggle

monitro is a Windows tray tool that switches a workstation between "focus
mode" (desktop icons hidden, one topology) and normal mode (icons shown,
extended desktop). This project models its two pieces of OS-independent logic
in Dafny and proves properties of them:

- **The `SetDisplayConfig` request encoder** (`src/sdc.rs`). A request `Sdc` is
  an action (`Apply { no_optimization }` or `Validate`), a configuration
  source (`SuppliedConfig`, `SuppliedTopology` or `Database` with a selector of
  stored topologies) and an `allow_changes` switch. `Sdc::flags` turns it into
  the SDC_* flag word. `paths()` and `modes()` choose the buffers passed along.
  Module `DisplayConfig` (`display_config.dfy`) models these. Module `SdcFlags`
  (`sdc_flags.dfy`) holds the SDC_* constants with their wingdi.h values,
  0x1 (SDC_TOPOLOGY_INTERNAL) to 0x2000 (SDC_ALLOW_PATH_ORDER_CHANGES).
  `Sdc::flags` is modelled as the set of flags the request carries.
  `Encode` turns a flag set into the 32-bit word the OS receives, by OR-ing
  the flags' values. The constants share no bit (`BitsDisjoint`), so a flag's
  bit is set in the word exactly when the flag is in the set (`EncodeHas`),
  and the word's bits above the fourteen low ones are clear (`EncodeBits`).
  `WordTable` states the encoding table on the word itself.
- **The focus-mode controller** (`src/main.rs`), module `FocusMode`
  (`focus_mode.dfy`):
  - `sdc_config` builds the database request for each mode.
  - `enter_focus_mode` hides the icons, then applies the focus request.
  - `exit_focus_mode` applies the normal request, then shows the icons.
  - `toggle_focus_mode` flips the static `ON` bit with `fetch_xor` and runs
    `exit` if the bit was on and `enter` if it was off.

  The OS is a parameter `os: nat -> Status`: `os(n)` is the answer to the
  n-th OS call of the process, so every pattern of successes and failures is
  covered. Each attempted call (hide icons, show icons, or one
  `SetDisplayConfig` with its buffers and flags) is appended to a log with
  its answer. A `Machine` holds the `ON` bit and that log.

The `assert!` in `Sdc::flags` panics when `force_mode_enumeration` is set
without the apply bit. It becomes the precondition
`ForceModeEnumerationAllowed`, and `Flags` re-checks the same assertion at the
point where the source makes it.

Behaviour the model keeps from the program:

- A forbidden force-mode-enumeration request is a panicking `assert!`, not a
  returned error.
- `ON` starts `false`, whatever the displays are showing at start-up.
- Focus mode asks the database for SDC_TOPOLOGY_EXTERNAL and normal mode for
  SDC_TOPOLOGY_EXTEND.
- `enter`, `exit` and `toggle` have no preconditions on the current state.
  `toggle` is the only caller, and it picks the operation from the bit.
- No call is retried and nothing is rolled back on a partial failure.

## Model

| member | source | states |
|---|---|---|
| `DisplayConfig.Flags` | src/sdc.rs:77-133 | Each SDC flag is in the result exactly when its row of the encoding table (`Selects`) holds for the request. No other flag is ever set. Requires the force-mode rule that the source's `assert!` enforces. |
| `DisplayConfig.WordTable` | src/sdc.rs:77-133 | The `u32` the encoder returns has a flag's bit set exactly when the encoding table (`Selects`) selects that flag for the request. |
| `DisplayConfig.Paths` | src/sdc.rs:135-143 | A supplied configuration or a supplied topology forwards its own paths. A database request forwards no paths. |
| `DisplayConfig.Modes` | src/sdc.rs:145-151 | A supplied configuration forwards its own modes. A supplied topology or a database request forwards no modes. |
| `DisplayConfig.ActionFlags` | src/sdc.rs:91-97 | `Apply` always sets SDC_APPLY, sets SDC_NO_OPTIMIZATION iff `no_optimization`, and never sets SDC_VALIDATE. `Validate` sets SDC_VALIDATE and neither SDC_APPLY nor SDC_NO_OPTIMIZATION. |
| `DisplayConfig.SuppliedConfigFlags` | src/sdc.rs:99-112 | A supplied configuration always sets SDC_USE_SUPPLIED_DISPLAY_CONFIG. It sets SDC_FORCE_MODE_ENUMERATION iff `force_mode_enumeration` and SDC_SAVE_TO_DATABASE iff `save_to_database`. It sets no topology, topology-supplied, path-order or persist bit. |
| `DisplayConfig.SuppliedTopologyFlags` | src/sdc.rs:113-119 | A supplied topology always sets SDC_TOPOLOGY_SUPPLIED and sets SDC_ALLOW_PATH_ORDER_CHANGES iff `allow_path_order_changes`. It sets no supplied-config, force, save, database-topology or persist bit. |
| `DisplayConfig.DatabaseFlags` | src/sdc.rs:120-129 | A database request sets each of the four topology bits iff its selector field is true, and SDC_PATH_PERSIST_IF_REQUIRED iff `path_persist_if_required`. It sets no source-selection bit. |
| `DisplayConfig.AllowChangesFlag` | src/sdc.rs:131 | SDC_ALLOW_CHANGES is set iff `allow_changes`, and changing the action or the source never changes that bit. |
| `DisplayConfig.DefaultFlags` | src/sdc.rs:11-74 | The default request (`Apply` without no-optimization, `Database` with `CURRENT`, no persist, no allow-changes) encodes to SDC_APPLY plus the four topology bits (word 0x8F), with empty path and mode buffers. |
| `DisplayConfig.BuffersFollowFlags` | src/sdc.rs:135-151 | The buffers agree with the flags. With SDC_USE_SUPPLIED_DISPLAY_CONFIG, the supplied paths and modes are forwarded. With SDC_TOPOLOGY_SUPPLIED, the supplied paths and no modes are forwarded. Paths are only forwarded with one of those two bits, and modes only with the first. A database request forwards both buffers empty. |
| `SdcFlags.BitsDisjoint` | src/sdc.rs:78-89 | Distinct SDC constants share no bit, so each step of `flags` that ORs in an SDC constant adds exactly that flag to the word. |
| `SdcFlags.EncodeHas` | src/sdc.rs:78-89 | In the word built by OR-ing in the constants of a flag set, a flag's bit is set exactly when the flag is in the set. |
| `SdcFlags.EncodeBits` | src/sdc.rs:78-89 | The word's layout: each of the fourteen SDC bits is set exactly when its flag is in the set, and every higher bit is clear. |
| `FocusMode.SdcConfigFor` | src/main.rs:29-47 | `sdc_config(f)` is an `Apply` without no-optimization, with a `Database` source, no persist and no allow-changes. It satisfies the force-mode rule. Its flags are exactly SDC_APPLY plus SDC_TOPOLOGY_EXTERNAL when `f`, or plus SDC_TOPOLOGY_EXTEND when not. Both buffers are empty. |
| `FocusMode.ApplyCall` | src/sdc.rs:154-157 | `set_display_config` passes the OS the request's paths, its modes and its flags. The flags are exactly those the encoding table selects. The paths are empty for a database request and the supplied ones otherwise. The modes are the supplied ones only for a supplied configuration. |
| `FocusMode.SdcConfigWords` | src/main.rs:29-47 | The words the OS receives are 0x88 for focus mode and 0x84 for normal mode. |
| `FocusMode.EnterFocusMode` | src/main.rs:49-53 | The calls made are a non-empty prefix of [hide icons, apply focus request], in that order. Every call before the last succeeded, the run stops early only on a failure, and the result is the status of the last call made. |
| `FocusMode.EnterFocusModeSteps` | src/main.rs:49-53 | If hiding the icons fails, no display call is made and the hide error is returned. Otherwise the focus request is applied next, and its status is the result. |
| `FocusMode.ExitFocusMode` | src/main.rs:55-59 | The calls made are a non-empty prefix of [apply normal request, show icons], with the same stop-at-first-failure and result rules as `enter`. |
| `FocusMode.ExitFocusModeSteps` | src/main.rs:55-59 | If the apply fails, showing the icons is not attempted and the apply error is returned. Otherwise the icons are shown next, and that call's status is the result. |
| `FocusMode.ToggleFocusMode` | src/main.rs:61-69 | The bit is always flipped, whatever the outcome. The toggle dispatches to `exit` iff the old bit was on and to `enter` otherwise. |
| `FocusMode.ToggleFollowsPlan` | src/main.rs:61-69 | A toggle makes exactly the calls of the dispatched operation's plan, under the same stop-at-first-failure rules, starting from the already flipped state. Its result is that operation's status. |
| `FocusMode.ToggleFlipsDespiteFailure` | src/main.rs:63-67 | When the first OS call of a toggle fails, the bit stays flipped, that error is returned, and only one call was made. |
| `FocusMode.ToggleSucceeds` | src/main.rs:61-69 | A toggle whose two OS calls both succeed returns `Ok`. |
| `FocusMode.Toggles` | src/main.rs:61-69 | After n serialised toggles, the bit is flipped iff n is odd, and one dispatch and one status are recorded per toggle. |
| `FocusMode.TogglesAlternate` | src/main.rs:61-69 | Whatever the OS answers, serialised toggles dispatch alternately to `exit` and `enter`. The first is `exit` if the bit was on and `enter` if it was off. |
| `FocusMode.ToggleTwice` | src/main.rs:61-69 | Two toggles from any state restore the bit. They run exactly one `enter` and one `exit`, and the starting bit fixes the order. |
| `FocusMode.ToggleConsistency` | src/main.rs:49-69 | Start from a state where the bit agrees with the desktop the log shows (icons, last applied request). After a toggle, bit and desktop still agree exactly when the toggle returned `Ok`. Any failure leaves them disagreeing, because nothing is rolled back. |
| `FocusMode.TogglesStayConsistent` | src/main.rs:49-69 | When every OS call succeeds, any number of toggles from a consistent state all return `Ok` and keep bit and desktop consistent. |
| `FocusMode.StartConsistent` | src/main.rs:62 | The start-up state (`ON` false, nothing called) is consistent with icons shown and nothing applied. |
| `FocusMode.FailedFirstToggle` | src/main.rs:62-66 | If the very first toggle fails to hide the icons, `ON` is left true while the desktop is unchanged. The result is the hide error, and bit and desktop disagree. |

## Left out

- `set_display_config` and the `WinErrorExt`/`win_result` status mapping (src/sdc.rs:154-159, src/main.rs:15-23): the Win32 call is a foreign effect. It is modelled only as a logged call whose answer comes from the `os` parameter.
- `icons::hide` / `icons::unhide`: the COM navigation chain in src/icons.rs is foreign. Hiding and showing the icons are opaque logged calls that may succeed or fail.
- src/qdc.rs (buffer-size negotiation and `QueryDisplayConfig`) is not part of this model. The controller never calls it.
- `sleep_displays`, `log_err`, `wrap`, `setup_tray`, `setup` and `main`: a thread sleep, a window-message broadcast, file I/O, tray UI and process exit. None of them carries logic of the core. `Toggles` assumes the `wrap` handler logs a failure and carries on, rather than exiting the process.
- `AtomicBool` memory ordering (`Ordering::Relaxed`) and real concurrency: `fetch_xor` is one atomic step, and concurrent toggles are modelled as some serial order of toggles.
- `FocusMode.Effect` (and with it `ToggleConsistency`, `TogglesStayConsistent`, `FailedFirstToggle`): assumes a failed OS call changes nothing on the desktop and that icons start shown. The OS promises neither.
- `DisplayConfig.Flags`: returns the flag set rather than the `u32`. The `u32` is `SdcFlags.Encode` of that set, and `WordTable` ties its bits to the encoding table.
- The path and mode records (`DISPLAYCONFIG_PATH_INFO`, `DISPLAYCONFIG_MODE_INFO`) are opaque byte strings. They are forwarded and never inspected.
