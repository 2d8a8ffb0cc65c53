# Rosalina system-configuration menu, modelled in Dafny

This project models the core of Rosalina's system-configuration menu
(`sysmodules/rosalina/source/menus/sysconfig.c` in Luma3DS). It covers:

- the menu table, whose item 0 switches between "connect to Wi-Fi" and "disable the
  forced connection";
- the process-wide `isConnectionForced` flag and the reference the menu holds on the
  ac (network configuration) session;
- the Wi-Fi slot selector and its `>N<` character buffer;
- the forced-connection handshake;
- the LED and power-button read-modify-write toggles;
- the wireless toggle, gated by a scan of the process list for the `nwm` service.

Hardware and services are oracles. Each menu loop `do { draw; poll; act } while
(!menuShouldExit)` runs over a finite script of `Frame`s, one per pass. A frame holds
the buttons the poll reports, the memory-mapped wireless status byte, what the ac
services answer if this pass connects, and the value of `menuShouldExit` at the loop
test. The microcontroller registers are fields of an `Mcu` object. The
wireless-management service is the list of commands sent to it.

Files:

- `common.dfy` (module `MenuWorld`): frames, buttons, service answers, and `RunToggle`.
  `RunToggle` specifies the "A: commit, B: back" loop that the LED, wireless and
  power-button menus share.
- `registers.dfy` (module `Registers`): the two bit transforms and their iteration
  lemmas.
- `selector.dfy` (module `Selector`): the cyclic slot cursor, the buffer it prints,
  and the `SlotSelector` class that edits that buffer in place.
- `detector.dfy` (module `Detector`): the `strncmp` test and the bounded process scan.
- `sysconfig.dfy` (module `SysConfig`): the `SysConfigMenu` class, the menu methods,
  `RunWifi` (the specification of the slot-selector loop) and its lemmas.

Two behaviours of the code are easy to misread, and the model keeps them as written:

- `DisableForcedWifiConnection` does not clear `isConnectionForced`. Only
  `ForceWifiConnection` resets it, on entry.
- The presence test `strncmp(name, "nwm", 4)` matches the name `nwm` exactly. It is not
  a prefix test.

## Model

| member | source | states |
|---|---|---|
| `MenuWorld.RunToggle` | sysmodules/rosalina/source/menus/sysconfig.c:55-81 | A commits only when armed and takes priority over B; a disarmed loop commits nothing; every commit is an A press; the loop never ends "connected"; if the script runs out, every A press committed |
| `MenuWorld.ToggleBackIff` | sysmodules/rosalina/source/menus/sysconfig.c:78-81 | the loop returns on B if and only if some pass presses B without an armed A, and no earlier pass pressed B alone or saw the exit signal |
| `Registers.InvertLeds` | sysmodules/rosalina/source/menus/sysconfig.c:73-75 | the byte written back differs from the byte read in every bit |
| `Registers.InvertLedsInvolutive` | sysmodules/rosalina/source/menus/sysconfig.c:73-75 | two LED commits restore the register |
| `Registers.LedsAfterParity` | sysmodules/rosalina/source/menus/sysconfig.c:69-77 | after n commits the LED register holds its first value if n is even, and its complement if n is odd |
| `Registers.TogglePowerButton` | sysmodules/rosalina/source/menus/sysconfig.c:265-267 | the mask written back has bit 0 flipped and bits 1 to 31 unchanged |
| `Registers.TogglePowerButtonInvolutive` | sysmodules/rosalina/source/menus/sysconfig.c:265-267 | two power-button commits restore the mask |
| `Registers.ToggleFlipsDisplay` | sysmodules/rosalina/source/menus/sysconfig.c:255 | each commit flips the displayed state; "disabled" is shown exactly while bit 0 is 1 |
| `Registers.MaskAfterParity` | sysmodules/rosalina/source/menus/sysconfig.c:262-269 | after n commits bit 0 is the first bit 0 XOR (n mod 2), and bits 1 to 31 are unchanged |
| `Selector.Left` | sysmodules/rosalina/source/menus/sysconfig.c:316-318 | the previous slot modulo 3, so LEFT from 0 gives 2 |
| `Selector.Right` | sysmodules/rosalina/source/menus/sysconfig.c:326-328 | the next slot modulo 3, so RIGHT from 2 gives 0 |
| `Selector.LeftRightInverse` | sysmodules/rosalina/source/menus/sysconfig.c:312-331 | LEFT undoes RIGHT and RIGHT undoes LEFT |
| `Selector.RightTimesIsRotation` | sysmodules/rosalina/source/menus/sysconfig.c:322-331 | n RIGHT presses move the cursor forward by n modulo 3, so three return to the start |
| `Selector.LeftTimesIsRotation` | sysmodules/rosalina/source/menus/sysconfig.c:312-321 | n LEFT presses move the cursor back by n modulo 3, so three return to the start |
| `Selector.Render` | sysmodules/rosalina/source/menus/sysconfig.c:284-285 | the 12-character buffer for a slot has `>` at slot*4 and `<` at slot*4+2; the marker positions of the other slots are blank; the digits 1, 2, 3 are at 1, 5, 9; a NUL is at 11 |
| `Selector.InitialTextRendersFirstSlot` | sysmodules/rosalina/source/menus/sysconfig.c:283-285 | the printed initial text plus its NUL is the buffer for slot 0 |
| `Selector.RenderInjective` | sysmodules/rosalina/source/menus/sysconfig.c:314-330 | the buffer determines the selected slot |
| `Selector.SlotSelector.constructor` | sysmodules/rosalina/source/menus/sysconfig.c:283-285 | a fresh buffer holding the initial text with slot 0 selected, satisfying the buffer-slot invariant |
| `Selector.SlotSelector.MoveLeft` | sysmodules/rosalina/source/menus/sysconfig.c:314-320 | erasing the markers, stepping back with wraparound and re-marking keeps the buffer equal to the rendering of the new slot |
| `Selector.SlotSelector.MoveRight` | sysmodules/rosalina/source/menus/sysconfig.c:324-330 | the same for stepping forward |
| `Detector.IsNwmExact` | sysmodules/rosalina/source/menus/sysconfig.c:109 | `strncmp(name, "nwm", 4) == 0` holds if and only if the first four characters are `n`, `w`, `m`, NUL |
| `Detector.PrefixDoesNotMatch` | sysmodules/rosalina/source/menus/sysconfig.c:109 | a name that only starts with `nwm` (here `nwm2`) does not match |
| `Detector.ListedCount` | sysmodules/rosalina/source/menus/sysconfig.c:93-96 | the kernel lists at most 0x40 pids, and lists all of them when there are fewer |
| `Detector.GetProcessList` | sysmodules/rosalina/source/menus/sysconfig.c:93-96 | the 0x40-entry buffer holds the first listed processes, and the count is the listed count |
| `Detector.StockProcessesLackNwm` | sysmodules/rosalina/source/menus/sysconfig.c:96-114 | none of `loader`, `fs`, `pm`, `menu`, `home` is taken for the service |
| `Detector.DetectNwm` | sysmodules/rosalina/source/menus/sysconfig.c:96-114 | running if and only if some listed, openable process is named exactly `nwm`; pids that fail to open are skipped; the scan stops at the first match and looks at no more than the listed count |
| `SysConfig.Mcu.WriteLeds` | sysmodules/rosalina/source/menus/sysconfig.c:75 | a write of register 0x28 replaces its value and touches nothing else |
| `SysConfig.Mcu.WriteIrqMask` | sysmodules/rosalina/source/menus/sysconfig.c:267 | a write of register 0x18 replaces its value and touches nothing else |
| `SysConfig.NwmExt.ControlWirelessEnabled` | sysmodules/rosalina/source/menus/sysconfig.c:145 | each call appends its argument to the commands the service has received |
| `SysConfig.ToggleLeds` | sysmodules/rosalina/source/menus/sysconfig.c:48-82 | the loop ends as `RunToggle` says; each commit reads the register's current value and writes back its complement, so the LED register ends up complemented once per commit |
| `SysConfig.TogglePowerButtonMenu` | sysmodules/rosalina/source/menus/sysconfig.c:235-274 | the loop ends as `RunToggle` says; each commit re-reads the register's current value and writes it back with bit 0 flipped, so the interrupt mask ends up toggled once per commit; the displayed mask is the register's value |
| `SysConfig.ToggleWireless` | sysmodules/rosalina/source/menus/sysconfig.c:84-152 | the service counts as running exactly as the detector says; a command goes out only when it is running, one per committing A, each with argument `!wireless` for the status byte read in that pass; when it is not running, no command is ever sent |
| `SysConfig.ConnectConfig` | sysmodules/rosalina/source/menus/sysconfig.c:178-182 | network area 2, EULA version requested, and an access-point type mask with exactly one bit, the slot's |
| `SysConfig.ConnectConfigSeparatesSlots` | sysmodules/rosalina/source/menus/sysconfig.c:181 | different slots request disjoint access-point types |
| `SysConfig.RunWifi` | sysmodules/rosalina/source/menus/sysconfig.c:286-335 | a run records each attempt with the slot selected when A was pressed; it ends "connected" only after an attempt, and then the last attempt was on the final slot; it makes at most one attempt per frame |
| `SysConfig.OnlyLastAttemptSucceeds` | sysmodules/rosalina/source/menus/sysconfig.c:299-311 | every attempt but the last fails, and the last succeeds exactly when the loop leaves connected, so a failed attempt keeps the loop running |
| `SysConfig.ConnectedIff` | sysmodules/rosalina/source/menus/sysconfig.c:299-311 | the selector loop leaves with a forced connection if and only if some A press succeeds before B alone or the exit signal ended the loop; a failed attempt stays in the loop |
| `SysConfig.RightPressesRotate` | sysmodules/rosalina/source/menus/sysconfig.c:322-331 | n RIGHT-only passes leave the loop running with slot (s + n) mod 3 |
| `SysConfig.LeftPressesRotate` | sysmodules/rosalina/source/menus/sysconfig.c:312-321 | n LEFT-only passes leave the loop running with slot (s - n) mod 3 |
| `SysConfig.RightThenConnect` | sysmodules/rosalina/source/menus/sysconfig.c:299-331 | n RIGHT presses followed by a successful A connect on slot (s + n) mod 3, and the one request sent is that slot's configuration |
| `SysConfig.SysConfigMenu.constructor` | sysmodules/rosalina/source/menus/sysconfig.c:35-46 | the initial table (connect, LED, wireless, power button, terminator), the flag false, no ac reference held |
| `SysConfig.SysConfigMenu.UpdateStatus` | sysmodules/rosalina/source/menus/sysconfig.c:154-168 | `true` sets item 0 to (connect title, `ControlWifi`) and `false` to (disconnect title, `DisableForcedWifiConnection`); items 1 to 4 are untouched, so `true` after `false` restores the initial item 0 |
| `SysConfig.SysConfigMenu.AcInit` | sysmodules/rosalina/source/menus/sysconfig.c:175 | a successful `acInit` takes one reference on the ac session; a failed one takes none |
| `SysConfig.SysConfigMenu.AcExit` | sysmodules/rosalina/source/menus/sysconfig.c:201 | `acExit` drops one reference |
| `SysConfig.SysConfigMenu.ForceWifiConnection` | sysmodules/rosalina/source/menus/sysconfig.c:170-233 | returns true if and only if `acInit`, the connect request, the wait and `GetSSID` all succeed; the flag equals the result; item 0 becomes the disconnect item only on success; the ac reference is kept on success and released on failure; one event is created exactly when `acInit` succeeds, and it is closed on both paths; if `acInit` fails nothing else changes and no request is sent; the result line shows the SSID or slot + 1 |
| `SysConfig.SysConfigMenu.DisableForcedWifiConnection` | sysmodules/rosalina/source/menus/sysconfig.c:338-358 | drops the ac reference and restores the connect item, leaving `isConnectionForced` unchanged |
| `SysConfig.SysConfigMenu.SelectorPass` | sysmodules/rosalina/source/menus/sysconfig.c:297-333 | the buttons of one pass: A attempts a connection on the selected slot, LEFT and RIGHT move the cursor, B alone leaves; measured against the whole run of `RunWifi`, the pass either completes it or leaves it to be resumed from the next frame; the logs and the event count grow by the attempt made |
| `SysConfig.SysConfigMenu.ControlWifi` | sysmodules/rosalina/source/menus/sysconfig.c:276-336 | runs as `RunWifi` says; on exit the buffer is the rendering of the final slot; attempt by attempt, the request sent is the configuration of the slot selected at that A press (none when `acInit` fails) and the line shown is that attempt's SSID or slot + 1; one event is created per attempt whose `acInit` succeeds; item 0 is the disconnect item exactly after a forced connection; the flag is true after success and false after any failed attempt; the ac reference is held exactly after success; kernel handles are balanced |
| `SysConfig.SysConfigMenu.Activate` | sysmodules/rosalina/source/menus/sysconfig.c:35-44 | whichever item the menu runs, the ac reference is held exactly while item 0 offers to disconnect, and only a forced connection offers that; only item 0 can change the table or the ac reference, and only connecting can change the flag; the LED item changes only the LED register, the power-button item only the interrupt mask, the wireless item only the commands sent to the service, and the item-0 actions neither register nor the service |

## Left out

- Drawing: the `Draw_*` calls, the framebuffer lock, colours and the Japanese screen
  text. The menu and item titles are kept.
- Blocking and time: `waitInputWithTimeout` is the `pressed` field of a frame. The
  unbounded `svcWaitSynchronization` is an oracle success or failure.
  `menuShouldExit` is an arbitrary boolean per pass.
- Loop length: every loop also ends when its script runs out (`Exhausted`). The source
  polls forever.
- Result screens: the result screen of `ForceWifiConnection` (lines 203-230) and the
  confirmation screen of `DisableForcedWifiConnection` (lines 348-358) wait for B or the
  exit signal. They change no state, so the frames they would consume are not modelled.
  The `exitSignal` of a frame whose A press attempts a connection stands for the flag as
  it is after that result screen.
  `ForceWifiConnection` returns the line its screen shows as a `Report`; `sprintf`
  formatting is not modelled.
- Service sessions: `mcuHwcInit`/`mcuHwcExit` and `nwmExtInit`/`nwmExtExit` pairs are not
  tracked. A failed register write or wireless command is not modelled: the source does
  not check these results.
- Failed reads: the source ignores the results of `mcuHwcInit` and `MCUHWC_ReadRegister`
  (lines 71-73, 244-245 and 264-265). In the model a read always returns the register's
  value. After a failed read the LED commit would write the complement of the
  uninitialised `result`, and the power-button commit would flip the stale local mask.
  `LedsAfterParity` and `MaskAfterParity` therefore describe the program only while every
  read succeeds.
- Failed process listing: a failing `svcGetProcessList` (line 96) leaves `processAmount`
  uninitialised. In the model the listing always succeeds.
- Register writers: the MCU registers change only through this menu. Other writers,
  such as the reset in sleep mode, are not modelled.
- Wireless status: the memory-mapped byte at 0x90140180 is an input per frame. Its
  relation to the command sent to the service is not modelled.
- Process handles: opening and closing them in the detector is not counted, and a
  failing `svcGetProcessInfo` is not modelled. Process names are the eight-byte buffer
  the kernel fills.
- Event creation: a failing `svcCreateEvent` is not modelled. Only the number of live
  kernel handles and the number of events created are tracked.
- Connection configuration: only the three settings this code makes (network area,
  access-point type, EULA version) are modelled. The rest of `ACU_CreateDefaultConfig`
  is not.
- SSID: the 0x20-character limit of the SSID buffer is not modelled.
- Buttons: the poll's bitmask is reduced to four booleans. `KEY_LEFT` and `KEY_RIGHT`
  each mean the D-pad or the circle pad.
- ac references: `acRefCount` counts only the references this menu takes. Other users
  of the shared libctru counter are not modelled.
- The generic menu framework (menu.c) is not part of this model. `Activate` stands for
  its call through the selected item's method pointer.
