/** The system-configuration menu: its item table, the forced-connection flag, the ac
    session it may hold, and the four menu actions (Wi-Fi connect with its slot selector,
    LED toggle, wireless toggle, power-button toggle) plus the disconnect action that
    replaces the connect item while a connection is forced. */
module SysConfig {
  import opened MenuWorld
  import opened Registers
  import opened Selector
  import opened Detector

  // ---------------------------------------------------------------------------------
  // Hardware and services the menu drives

  /** The microcontroller's two registers that the menu reads and writes. */
  class Mcu {
    /** Register 0x28, the notification LED. */
    var leds: bv8
    /** Register 0x18, the interrupt mask (four bytes). */
    var irqMask: bv32

    constructor (leds: bv8, irqMask: bv32)
      ensures this.leds == leds && this.irqMask == irqMask
    {
      this.leds := leds;
      this.irqMask := irqMask;
    }

    method ReadLeds() returns (r: bv8)
      ensures r == leds
    {
      r := leds;
    }

    method WriteLeds(v: bv8)
      modifies this`leds
      ensures leds == v
    {
      leds := v;
    }

    method ReadIrqMask() returns (m: bv32)
      ensures m == irqMask
    {
      m := irqMask;
    }

    method WriteIrqMask(v: bv32)
      modifies this`irqMask
      ensures irqMask == v
    {
      irqMask := v;
    }
  }

  /** The wireless-management extension service, seen through the commands sent to it. */
  class NwmExt {
    /** The arguments of every `ControlWirelessEnabled` call, in order. */
    var commands: seq<bool>

    constructor ()
      ensures commands == []
    {
      commands := [];
    }

    method ControlWirelessEnabled(enable: bool)
      modifies this
      ensures commands == old(commands) + [enable]
    {
      commands := commands + [enable];
    }
  }

  // ---------------------------------------------------------------------------------
  // LED, power-button and wireless menus

  /** The LED menu: every A reads register 0x28, complements it and writes it back; B
      returns. The register ends up complemented once per commit. */
  method ToggleLeds(mcu: Mcu, frames: seq<Frame>) returns (ending: Ending)
    modifies mcu`leds
    ensures ending == RunToggle(frames, true).ending
    ensures mcu.leds == LedsAfter(old(mcu.leds), |RunToggle(frames, true).commits|)
  {
    ghost var commits := 0;
    var i := 0;
    assert frames[i..] == frames;
    while i < |frames|
      invariant 0 <= i <= |frames|
      invariant RunToggle(frames, true).ending == RunToggle(frames[i..], true).ending
      invariant |RunToggle(frames, true).commits| == commits + |RunToggle(frames[i..], true).commits|
      invariant mcu.leds == LedsAfter(old(mcu.leds), commits)
    {
      assert frames[i..][1..] == frames[i + 1..];
      var pressed := frames[i].pressed;
      if pressed.a {
        var result := mcu.ReadLeds();
        result := InvertLeds(result);
        mcu.WriteLeds(result);
        commits := commits + 1;
      } else if pressed.b {
        return Back;
      }
      if frames[i].exitSignal {
        return Signalled;
      }
      i := i + 1;
    }
    return Exhausted;
  }

  /** The power-button menu: the mask in register 0x18 is read once for display; every A
      re-reads it, flips bit 0 and writes it back; B returns. `shown` is the mask the menu
      displays when it leaves, which is the register's value. */
  method TogglePowerButtonMenu(mcu: Mcu, frames: seq<Frame>) returns (ending: Ending, shown: bv32)
    modifies mcu`irqMask
    ensures ending == RunToggle(frames, true).ending
    ensures mcu.irqMask == MaskAfter(old(mcu.irqMask), |RunToggle(frames, true).commits|)
    ensures shown == mcu.irqMask
  {
    var mcuIrqMask := mcu.ReadIrqMask();
    ghost var commits := 0;
    var i := 0;
    assert frames[i..] == frames;
    while i < |frames|
      invariant 0 <= i <= |frames|
      invariant RunToggle(frames, true).ending == RunToggle(frames[i..], true).ending
      invariant |RunToggle(frames, true).commits| == commits + |RunToggle(frames[i..], true).commits|
      invariant mcu.irqMask == MaskAfter(old(mcu.irqMask), commits)
      invariant mcuIrqMask == mcu.irqMask
    {
      assert frames[i..][1..] == frames[i + 1..];
      var pressed := frames[i].pressed;
      if pressed.a {
        mcuIrqMask := mcu.ReadIrqMask();
        mcuIrqMask := TogglePowerButton(mcuIrqMask);
        mcu.WriteIrqMask(mcuIrqMask);
        commits := commits + 1;
      } else if pressed.b {
        return Back, mcuIrqMask;
      }
      if frames[i].exitSignal {
        return Signalled, mcuIrqMask;
      }
      i := i + 1;
    }
    return Exhausted, mcuIrqMask;
  }

  /** The argument of the wireless command issued in a frame: enable when the status byte
      read in that frame says the radio is off. */
  function EnableArgument(f: Frame): bool
  {
    f.wifiStatus == 0
  }

  /** The commands a run of the wireless menu issues: one per committing frame, each the
      opposite of the radio state read in that frame. */
  function Commands(commits: seq<Frame>): seq<bool>
  {
    seq(|commits|, k requires 0 <= k < |commits| => EnableArgument(commits[k]))
  }

  lemma CommandsAppend(commits: seq<Frame>, f: Frame)
    ensures Commands(commits + [f]) == Commands(commits) + [EnableArgument(f)]
  {
  }

  /** The wireless menu: detect the wireless-management service once, then every A sends
      the opposite of the radio state just read, but only when the service was detected; B
      returns. */
  method ToggleWireless(live: seq<Process>, nwm: NwmExt, frames: seq<Frame>)
    returns (nwmRunning: bool, ending: Ending)
    modifies nwm
    ensures nwmRunning <==> exists k: nat :: k < ListedCount(live) && Matches(live, k)
    ensures ending == RunToggle(frames, nwmRunning).ending
    ensures nwm.commands == old(nwm.commands) + Commands(RunToggle(frames, nwmRunning).commits)
    ensures !nwmRunning ==> nwm.commands == old(nwm.commands)
  {
    var scanned;
    nwmRunning, scanned := DetectNwm(live);
    ghost var done: seq<Frame> := [];
    var i := 0;
    assert frames[i..] == frames;
    while i < |frames|
      invariant 0 <= i <= |frames|
      invariant RunToggle(frames, nwmRunning).ending == RunToggle(frames[i..], nwmRunning).ending
      invariant RunToggle(frames, nwmRunning).commits == done + RunToggle(frames[i..], nwmRunning).commits
      invariant nwm.commands == old(nwm.commands) + Commands(done)
    {
      ToggleStep(frames, i, nwmRunning, done);
      var wireless := frames[i].wifiStatus;
      var pressed := frames[i].pressed;
      if pressed.a && nwmRunning {
        nwm.ControlWirelessEnabled(wireless == 0);
        CommandsAppend(done, frames[i]);
        done := done + [frames[i]];
      } else if pressed.b {
        return nwmRunning, Back;
      }
      if frames[i].exitSignal {
        return nwmRunning, Signalled;
      }
      i := i + 1;
    }
    assert frames[i..] == [];
    return nwmRunning, Exhausted;
  }

  /** One pass of a toggle loop, seen from the frames already done. */
  lemma ToggleStep(frames: seq<Frame>, i: nat, armed: bool, done: seq<Frame>)
    requires i < |frames|
    requires RunToggle(frames, armed).commits == done + RunToggle(frames[i..], armed).commits
    requires RunToggle(frames, armed).ending == RunToggle(frames[i..], armed).ending
    ensures var f := frames[i];
      var done' := if f.pressed.a && armed then done + [f] else done;
      if !(f.pressed.a && armed) && f.pressed.b then
        RunToggle(frames, armed).commits == done && RunToggle(frames, armed).ending == Back
      else if f.exitSignal then
        RunToggle(frames, armed).commits == done' && RunToggle(frames, armed).ending == Signalled
      else
        && RunToggle(frames, armed).commits == done' + RunToggle(frames[i + 1..], armed).commits
        && RunToggle(frames, armed).ending == RunToggle(frames[i + 1..], armed).ending
  {
    assert frames[i..][1..] == frames[i + 1..];
    if frames[i].pressed.a && armed && !frames[i].exitSignal {
      var rest := RunToggle(frames[i + 1..], armed).commits;
      assert done + ([frames[i]] + rest) == (done + [frames[i]]) + rest;
    }
  }

  // ---------------------------------------------------------------------------------
  // The menu table

  datatype ItemKind = MenuEnd | Method

  /** The closed set of functions a menu item can point to (`NoMethod` is a null pointer). */
  datatype Action =
    | NoMethod
    | CallControlWifi
    | CallToggleLeds
    | CallToggleWireless
    | CallTogglePowerButton
    | CallDisableForcedWifiConnection

  datatype MenuItem = MenuItem(title: string, kind: ItemKind, action: Action)

  const MenuTitle: string := "システム設定"
  const ConnectItem: MenuItem := MenuItem("Wi-Fi接続", Method, CallControlWifi)
  const DisconnectItem: MenuItem := MenuItem("Wi-Fi接続解除", Method, CallDisableForcedWifiConnection)
  /** The all-zero item that ends the table. */
  const Terminator: MenuItem := MenuItem("", MenuEnd, NoMethod)

  /** The table as the program starts. */
  const InitialItems: seq<MenuItem> := [
    ConnectItem,
    MenuItem("LED切り替え", Method, CallToggleLeds),
    MenuItem("Wi-Fi切り替え", Method, CallToggleWireless),
    MenuItem("電源ボタンの状態", Method, CallTogglePowerButton),
    Terminator
  ]

  // ---------------------------------------------------------------------------------
  // The connection request

  /** The fields of the connection configuration the menu sets. */
  datatype AcuConfig = AcuConfig(networkArea: int, allowApType: bv8, eulaVersionRequested: bool)

  /** The configuration for a forced connection on `slot`: network area 2, the single
      access-point type bit of the slot, and the EULA version requested. */
  function ConnectConfig(slot: Slot): (c: AcuConfig)
    ensures c.networkArea == 2 && c.eulaVersionRequested
    ensures c.allowApType != 0 && c.allowApType & (c.allowApType - 1) == 0
    ensures (c.allowApType >> slot) & 1 == 1
  {
    AcuConfig(2, 1 << slot, true)
  }

  /** Different slots request disjoint access-point types. */
  lemma ConnectConfigSeparatesSlots(s: Slot, t: Slot)
    requires s != t
    ensures ConnectConfig(s).allowApType & ConnectConfig(t).allowApType == 0
  {
  }

  /** The line the result screen shows: the SSID on success, the 1-based slot on failure. */
  datatype Report = Joined(ssid: string) | NotJoined(slotNumber: int)

  // ---------------------------------------------------------------------------------
  // The slot selector loop, as a function of its input

  /** One connection attempt: the slot selected when A was pressed, and what the services
      answered. */
  datatype Attempt = Attempt(slot: Slot, link: Link)

  /** A run of the slot-selector loop: how it ended, the slot selected then, and the
      connection attempts it made, in order. */
  datatype WifiRun = WifiRun(ending: Ending, slot: Slot, attempts: seq<Attempt>)

  /** The slot-selector loop over `frames` from `slot`. A tries to connect on the selected
      slot and leaves the loop on success; LEFT and RIGHT move the cursor; B returns; after
      every pass that did not leave, the exit signal ends the loop. */
  function RunWifi(frames: seq<Frame>, slot: Slot): (run: WifiRun)
    ensures |run.attempts| <= |frames|
    ensures run.ending == Connected ==>
      |run.attempts| > 0 && run.attempts[|run.attempts| - 1].slot == run.slot
    decreases |frames|
  {
    if frames == [] then WifiRun(Exhausted, slot, [])
    else
      var f := frames[0];
      var attempt := Attempt(slot, f.link);
      if f.pressed.a then
        if LinkUp(f.link) then WifiRun(Connected, slot, [attempt])
        else if f.exitSignal then WifiRun(Signalled, slot, [attempt])
        else
          var rest := RunWifi(frames[1..], slot);
          rest.(attempts := [attempt] + rest.attempts)
      else if f.pressed.left || f.pressed.right || !f.pressed.b then
        var next := if f.pressed.left then Left(slot) else if f.pressed.right then Right(slot) else slot;
        if f.exitSignal then WifiRun(Signalled, next, []) else RunWifi(frames[1..], next)
      else WifiRun(Back, slot, [])
  }

  /** Every attempt of `run` but the last fails, and the last succeeds exactly when the run
      ends connected. */
  ghost predicate OnlyLastSucceeds(run: WifiRun)
  {
    forall k | 0 <= k < |run.attempts| ::
      LinkUp(run.attempts[k].link) <==> run.ending == Connected && k == |run.attempts| - 1
  }

  /** The loop stays after a failed attempt and leaves after a successful one. */
  lemma {:induction false} OnlyLastAttemptSucceeds(frames: seq<Frame>, slot: Slot)
    ensures OnlyLastSucceeds(RunWifi(frames, slot))
    decreases |frames|
  {
    if frames != [] {
      var f := frames[0];
      if f.pressed.a && !LinkUp(f.link) && !f.exitSignal {
        var rest := RunWifi(frames[1..], slot);
        OnlyLastAttemptSucceeds(frames[1..], slot);
        var run := RunWifi(frames, slot);
        assert run == rest.(attempts := [Attempt(slot, f.link)] + rest.attempts);
        forall k | 1 <= k < |run.attempts|
          ensures LinkUp(run.attempts[k].link) <==> run.ending == Connected && k == |run.attempts| - 1
        {
          assert run.attempts[k] == rest.attempts[k - 1];
        }
      } else if !f.pressed.a && (f.pressed.left || f.pressed.right || !f.pressed.b) && !f.exitSignal {
        var next := if f.pressed.left then Left(slot) else if f.pressed.right then Right(slot) else slot;
        OnlyLastAttemptSucceeds(frames[1..], next);
        assert RunWifi(frames, slot) == RunWifi(frames[1..], next);
      }
    }
  }

  /** The connection request an attempt sends: none when `acInit` fails, otherwise the
      configuration of its slot. */
  function Request(a: Attempt): Option<AcuConfig>
  {
    if a.link.acInit then Some(ConnectConfig(a.slot)) else None
  }

  /** The line the result screen of an attempt shows: none when `acInit` fails, otherwise
      the SSID or the 1-based slot. */
  function Outcome(a: Attempt): Option<Report>
  {
    if !a.link.acInit then None
    else if LinkUp(a.link) then Some(Joined(a.link.ssid.value))
    else Some(NotJoined(a.slot + 1))
  }

  /** The requests a sequence of attempts sends, one entry per attempt. */
  function Requests(attempts: seq<Attempt>): seq<Option<AcuConfig>>
  {
    seq(|attempts|, k requires 0 <= k < |attempts| => Request(attempts[k]))
  }

  /** The result lines a sequence of attempts shows, one entry per attempt. */
  function Outcomes(attempts: seq<Attempt>): seq<Option<Report>>
  {
    seq(|attempts|, k requires 0 <= k < |attempts| => Outcome(attempts[k]))
  }

  /** The number of attempts whose `acInit` succeeded, each of which creates one event. */
  function InitCount(attempts: seq<Attempt>): nat
    decreases |attempts|
  {
    if attempts == [] then 0
    else InitCount(attempts[..|attempts| - 1]) + (if attempts[|attempts| - 1].link.acInit then 1 else 0)
  }

  lemma AttemptsAppend(attempts: seq<Attempt>, a: Attempt)
    ensures Requests(attempts + [a]) == Requests(attempts) + [Request(a)]
    ensures Outcomes(attempts + [a]) == Outcomes(attempts) + [Outcome(a)]
    ensures InitCount(attempts + [a]) == InitCount(attempts) + (if a.link.acInit then 1 else 0)
  {
    assert (attempts + [a])[..|attempts|] == attempts;
  }

  /** A frame that ends the selector loop without a connection: B alone, or the exit
      signal. */
  predicate StopsWifi(f: Frame)
  {
    f.exitSignal || (!f.pressed.a && !f.pressed.left && !f.pressed.right && f.pressed.b)
  }

  /** The pass over `frames[k]` forces a connection, and no earlier pass ended the loop. */
  ghost predicate ConnectsAt(frames: seq<Frame>, k: nat)
    requires k < |frames|
  {
    && frames[k].pressed.a && LinkUp(frames[k].link)
    && forall j :: 0 <= j < k ==> !StopsWifi(frames[j])
  }

  lemma ConnectsAtShift(frames: seq<Frame>, k: nat)
    requires k + 1 < |frames|
    ensures ConnectsAt(frames, k + 1) <==> !StopsWifi(frames[0]) && ConnectsAt(frames[1..], k)
  {
  }

  /** The selector loop leaves with a forced connection exactly when some A press succeeds
      before B or the exit signal ended the loop; a failed attempt keeps it in the loop. */
  lemma {:induction false} ConnectedIff(frames: seq<Frame>, slot: Slot)
    ensures RunWifi(frames, slot).ending == Connected <==>
      exists k: nat :: k < |frames| && ConnectsAt(frames, k)
    decreases |frames|
  {
    if frames == [] {
    } else if ConnectsAt(frames, 0) {
    } else if StopsWifi(frames[0]) {
      forall k: nat | 0 < k < |frames| ensures !ConnectsAt(frames, k) {
        assert StopsWifi(frames[0]);
      }
    } else {
      var f := frames[0];
      var next := if f.pressed.a then slot else if f.pressed.left then Left(slot)
        else if f.pressed.right then Right(slot) else slot;
      assert RunWifi(frames, slot).ending == RunWifi(frames[1..], next).ending;
      ConnectedIff(frames[1..], next);
      forall k: nat | k + 1 < |frames| ensures ConnectsAt(frames, k + 1) <==> ConnectsAt(frames[1..], k) {
        ConnectsAtShift(frames, k);
      }
      if RunWifi(frames, slot).ending == Connected {
        var k: nat :| k < |frames[1..]| && ConnectsAt(frames[1..], k);
        assert ConnectsAt(frames, k + 1);
      } else if exists k: nat :: k < |frames| && ConnectsAt(frames, k) {
        var k: nat :| k < |frames| && ConnectsAt(frames, k);
        assert ConnectsAt(frames[1..], k - 1);
      }
    }
  }

  /** A frame in which only RIGHT acts and the loop goes on. */
  predicate RightOnly(f: Frame)
  {
    !f.pressed.a && !f.pressed.left && f.pressed.right && !f.exitSignal
  }

  /** A frame in which only LEFT acts and the loop goes on. */
  predicate LeftOnly(f: Frame)
  {
    !f.pressed.a && f.pressed.left && !f.exitSignal
  }

  /** `n` RIGHT presses move the selection `n` slots forward, wrapping around. */
  lemma {:induction false} RightPressesRotate(frames: seq<Frame>, slot: Slot)
    requires forall k | 0 <= k < |frames| :: RightOnly(frames[k])
    ensures RunWifi(frames, slot) == WifiRun(Exhausted, (slot + |frames|) % 3, [])
    decreases |frames|
  {
    if frames != [] {
      assert RightOnly(frames[0]);
      RightPressesRotate(frames[1..], Right(slot));
    }
  }

  /** `n` LEFT presses move the selection `n` slots back, wrapping around. */
  lemma {:induction false} LeftPressesRotate(frames: seq<Frame>, slot: Slot)
    requires forall k | 0 <= k < |frames| :: LeftOnly(frames[k])
    ensures RunWifi(frames, slot) == WifiRun(Exhausted, (slot - |frames|) % 3, [])
    decreases |frames|
  {
    if frames != [] {
      assert LeftOnly(frames[0]);
      LeftPressesRotate(frames[1..], Left(slot));
    }
  }

  /** Moving the cursor with `n` RIGHT presses and then pressing A connects on slot
      `(s + n) % 3`: the request sent is that slot's configuration. */
  lemma {:induction false} RightThenConnect(moves: seq<Frame>, f: Frame, slot: Slot)
    requires forall k | 0 <= k < |moves| :: RightOnly(moves[k])
    requires f.pressed.a && LinkUp(f.link)
    ensures RunWifi(moves + [f], slot) ==
      WifiRun(Connected, (slot + |moves|) % 3, [Attempt((slot + |moves|) % 3, f.link)])
    ensures Requests(RunWifi(moves + [f], slot).attempts) == [Some(ConnectConfig((slot + |moves|) % 3))]
    decreases |moves|
  {
    if moves != [] {
      assert RightOnly(moves[0]);
      assert (moves + [f])[1..] == moves[1..] + [f];
      RightThenConnect(moves[1..], f, Right(slot));
    }
  }

  /** The run `run` is the attempts `done` followed by the run `rest`, which ends it. */
  ghost predicate Resumes(run: WifiRun, done: seq<Attempt>, rest: WifiRun)
  {
    run.ending == rest.ending && run.slot == rest.slot && run.attempts == done + rest.attempts
  }

  /** One pass of the selector loop, seen from the attempts already made: either the loop
      leaves and `run` is complete, or it goes on from the next frame. */
  lemma WifiStep(run: WifiRun, frames: seq<Frame>, i: nat, slot: Slot, done: seq<Attempt>)
    requires i < |frames| && Resumes(run, done, RunWifi(frames[i..], slot))
    ensures var f := frames[i];
      var next := if f.pressed.a then slot else if f.pressed.left then Left(slot)
        else if f.pressed.right then Right(slot) else slot;
      var done' := if f.pressed.a then done + [Attempt(slot, f.link)] else done;
      if f.pressed.a && LinkUp(f.link) then run == WifiRun(Connected, slot, done')
      else if !f.pressed.a && !f.pressed.left && !f.pressed.right && f.pressed.b then
        run == WifiRun(Back, slot, done)
      else if f.exitSignal then run == WifiRun(Signalled, next, done')
      else Resumes(run, done', RunWifi(frames[i + 1..], next))
  {
    assert frames[i..][1..] == frames[i + 1..];
    var a := Attempt(slot, frames[i].link);
    if frames[i].pressed.a && !LinkUp(frames[i].link) && !frames[i].exitSignal {
      var rest := RunWifi(frames[i + 1..], slot).attempts;
      assert done + ([a] + rest) == (done + [a]) + rest;
    }
  }

  /** The wireless-management service is among the listed, openable processes. */
  ghost predicate NwmListed(live: seq<Process>)
  {
    exists k: nat :: k < ListedCount(live) && Matches(live, k)
  }

  // ---------------------------------------------------------------------------------
  // The menu state

  class SysConfigMenu {
    const title: string
    /** The item table; it is never resized, only item 0 is rewritten. */
    const items: array<MenuItem>
    /** `isConnectionForced`. */
    var isConnectionForced: bool
    /** The references this menu holds on the ac session (libctru's reference count). */
    var acRefCount: int
    /** Kernel handles this menu has created and not yet closed. */
    var liveHandles: int
    /** How many connect events this menu has created. */
    ghost var eventsCreated: nat

    /** Items 1 to 4 are as at startup and item 0 is the connect or the disconnect item. */
    ghost predicate Shaped()
      reads this, items
    {
      && items.Length == |InitialItems|
      && items[1..] == InitialItems[1..]
      && (items[0] == ConnectItem || items[0] == DisconnectItem)
    }

    /** The ac session is held exactly while item 0 offers to disconnect, and only a forced
        connection offers that. */
    ghost predicate Valid()
      reads this, items
    {
      && Shaped()
      && acRefCount == (if items[0] == DisconnectItem then 1 else 0)
      && (items[0] == DisconnectItem ==> isConnectionForced)
    }

    constructor ()
      ensures Valid() && fresh(items)
      ensures title == MenuTitle && items[..] == InitialItems
      ensures !isConnectionForced && acRefCount == 0 && liveHandles == 0 && eventsCreated == 0
    {
      title := MenuTitle;
      items := new MenuItem[|InitialItems|](i => if 0 <= i < |InitialItems| then InitialItems[i] else Terminator);
      isConnectionForced := false;
      acRefCount := 0;
      liveHandles := 0;
      eventsCreated := 0;
      new;
      assert items[..] == InitialItems;
    }

    /** Point item 0 at the connect action (`control`) or at the disconnect action. */
    method UpdateStatus(control: bool)
      requires Shaped()
      modifies items
      ensures Shaped()
      ensures items[0] == if control then ConnectItem else DisconnectItem
      ensures items[1..] == old(items[1..])
    {
      if control {
        items[0] := items[0].(title := ConnectItem.title);
        items[0] := items[0].(action := CallControlWifi);
      } else {
        items[0] := items[0].(title := DisconnectItem.title);
        items[0] := items[0].(action := CallDisableForcedWifiConnection);
      }
      assert items[1..] == old(items[1..]);
    }

    /** `acInit`: a successful call takes one reference on the session. */
    method AcInit(answer: bool) returns (ok: bool)
      modifies this`acRefCount
      ensures ok == answer
      ensures acRefCount == old(acRefCount) + (if ok then 1 else 0)
    {
      ok := answer;
      if ok {
        acRefCount := acRefCount + 1;
      }
    }

    /** `acExit`: drop one reference on the session. */
    method AcExit()
      modifies this`acRefCount
      ensures acRefCount == old(acRefCount) - 1
    {
      acRefCount := acRefCount - 1;
    }

    /** One forced-connection attempt on `slot`, with the services answering `link`. The
        flag is cleared first; when `acInit` fails nothing else happens. Otherwise the
        connect request for the slot is sent, its event is created and always closed, and
        the attempt succeeds when the request, the wait and the SSID query all do. Success
        sets the flag, offers the disconnect item and keeps the ac reference; failure
        drops it. `sent` is the request sent, `report` the line of the result screen. */
    method ForceWifiConnection(slot: Slot, link: Link)
      returns (ok: bool, sent: Option<AcuConfig>, report: Option<Report>)
      requires Shaped()
      modifies this`isConnectionForced, this`acRefCount, this`liveHandles, this`eventsCreated, items
      ensures Shaped()
      ensures ok == LinkUp(link)
      ensures isConnectionForced == ok
      ensures items[0] == (if ok then DisconnectItem else old(items[0]))
      ensures items[1..] == old(items[1..])
      ensures acRefCount == old(acRefCount) + (if ok then 1 else 0)
      ensures liveHandles == old(liveHandles)
      ensures eventsCreated == old(eventsCreated) + (if link.acInit then 1 else 0)
      ensures sent == if link.acInit then Some(ConnectConfig(slot)) else None
      ensures report == if !link.acInit then None
                        else if ok then Some(Joined(link.ssid.value))
                        else Some(NotJoined(slot + 1))
    {
      isConnectionForced := false;
      var initialized := AcInit(link.acInit);
      if !initialized {
        return false, None, None;
      }
      var config := ConnectConfig(slot);
      liveHandles := liveHandles + 1;   // svcCreateEvent, one-shot
      eventsCreated := eventsCreated + 1;
      var forcedConnection := false;
      sent := Some(config);
      if link.connect {
        if link.wait && link.ssid.Some? {
          forcedConnection := true;
        }
      }
      liveHandles := liveHandles - 1;   // svcCloseHandle on the event
      if forcedConnection {
        isConnectionForced := true;
        UpdateStatus(false);
      } else {
        AcExit();
      }
      report := Some(if forcedConnection then Joined(link.ssid.value) else NotJoined(slot + 1));
      ok := forcedConnection;
    }

    /** Release the forced connection: drop the ac reference and offer the connect item
        again. The flag is left as it was. */
    method DisableForcedWifiConnection()
      requires Shaped()
      modifies this`acRefCount, items
      ensures Shaped()
      ensures acRefCount == old(acRefCount) - 1
      ensures items[0] == ConnectItem && items[1..] == old(items[1..])
      ensures isConnectionForced == old(isConnectionForced)
    {
      AcExit();
      UpdateStatus(true);
    }

    /** The buttons of one pass of the selector loop over `f`, which is `frames[i]`: A attempts a forced
        connection on the selected slot, LEFT and RIGHT move the cursor, B alone leaves.
        `leave` is the ending when the pass leaves the loop (a connection or B). `done`
        grows by the attempt made, if any; the logs stay the requests and lines of the
        attempts so far, and `eventsCreated` keeps counting from `base`. Measured against
        the whole run `run`, the pass either completes it or leaves it to be resumed from
        the next frame. */
    method SelectorPass(selector: SlotSelector, f: Frame, ghost run: WifiRun, ghost frames: seq<Frame>, ghost i: nat,
                        ghost done: seq<Attempt>, ghost base: nat,
                        requests: seq<Option<AcuConfig>>, reports: seq<Option<Report>>)
      returns (leave: Option<Ending>, requests': seq<Option<AcuConfig>>, reports': seq<Option<Report>>,
               ghost done': seq<Attempt>)
      requires Valid() && items[0] == ConnectItem && selector.Valid()
      requires i < |frames| && f == frames[i] && Resumes(run, done, RunWifi(frames[i..], selector.slot))
      requires requests == Requests(done) && reports == Outcomes(done)
      requires eventsCreated == base + InitCount(done)
      modifies this`isConnectionForced, this`acRefCount, this`liveHandles, this`eventsCreated, items
      modifies selector, selector.text
      ensures selector.Valid()
      ensures leave.Some? ==> run == WifiRun(leave.value, selector.slot, done')
      ensures leave.None? && frames[i].exitSignal ==> run == WifiRun(Signalled, selector.slot, done')
      ensures leave.None? && !frames[i].exitSignal ==>
        Resumes(run, done', RunWifi(frames[i + 1..], selector.slot))
      ensures requests' == Requests(done') && reports' == Outcomes(done')
      ensures eventsCreated == base + InitCount(done')
      ensures done' == done || |done'| == |done| + 1
      ensures Valid() && items[0] == (if leave == Some(Connected) then DisconnectItem else ConnectItem)
      ensures isConnectionForced == (leave == Some(Connected) || (old(isConnectionForced) && done' == done))
      ensures liveHandles == old(liveHandles)
    {
      ghost var selected := selector.slot;
      leave, requests', reports', done' := None, requests, reports, done;
      var pressed := f.pressed;
      if pressed.a {
        var ok, sent, report := ForceWifiConnection(selector.slot, f.link);
        assert Valid() && items[0] == (if ok then DisconnectItem else ConnectItem);
        AttemptsAppend(done, Attempt(selector.slot, f.link));
        done' := done + [Attempt(selector.slot, f.link)];
        requests', reports' := requests + [sent], reports + [report];
        if ok {
          leave := Some(Connected);
        }
      } else if pressed.left {
        selector.MoveLeft();
      } else if pressed.right {
        selector.MoveRight();
      } else if pressed.b {
        leave := Some(Back);
      }
      assert Valid() && items[0] == (if leave == Some(Connected) then DisconnectItem else ConnectItem);
      WifiStep(run, frames, i, selected, done);
    }

    /** The Wi-Fi connect menu: the slot selector loop. It leaves after a forced connection
        (so the ac reference is not taken twice) and stays after a failed one. `buffer` is
        the selector text when it leaves; `requests` and `reports` are what each attempt
        sent and showed, in order. */
    method ControlWifi(frames: seq<Frame>)
      returns (ending: Ending, slot: Slot, buffer: seq<char>,
               requests: seq<Option<AcuConfig>>, reports: seq<Option<Report>>)
      requires Valid() && items[0] == ConnectItem
      modifies this`isConnectionForced, this`acRefCount, this`liveHandles, this`eventsCreated, items
      ensures Valid()
      ensures ending == RunWifi(frames, 0).ending && slot == RunWifi(frames, 0).slot
      ensures buffer == Render(slot)
      ensures requests == Requests(RunWifi(frames, 0).attempts)
      ensures reports == Outcomes(RunWifi(frames, 0).attempts)
      ensures items[0] == (if ending == Connected then DisconnectItem else ConnectItem)
      ensures isConnectionForced ==
        (ending == Connected || (old(isConnectionForced) && |RunWifi(frames, 0).attempts| == 0))
      ensures liveHandles == old(liveHandles)
      ensures eventsCreated == old(eventsCreated) + InitCount(RunWifi(frames, 0).attempts)
    {
      ghost var run := RunWifi(frames, 0);
      var selector := new SlotSelector();
      ghost var done: seq<Attempt> := [];
      requests, reports := [], [];
      var i := 0;
      assert frames[i..] == frames;
      while i < |frames|
        invariant 0 <= i <= |frames|
        invariant selector.Valid() && fresh(selector.text)
        invariant Valid() && items[0] == ConnectItem
        invariant liveHandles == old(liveHandles)
        invariant Resumes(run, done, RunWifi(frames[i..], selector.slot))
        invariant requests == Requests(done) && reports == Outcomes(done)
        invariant eventsCreated == old(eventsCreated) + InitCount(done)
        invariant isConnectionForced == (old(isConnectionForced) && |done| == 0)
      {
        var leave;
        leave, requests, reports, done :=
          SelectorPass(selector, frames[i], run, frames, i, done, old(eventsCreated), requests, reports);
        if leave.Some? {
          return leave.value, selector.slot, selector.text[..], requests, reports;
        }
        if frames[i].exitSignal {
          return Signalled, selector.slot, selector.text[..], requests, reports;
        }
        i := i + 1;
      }
      assert frames[i..] == [];
      assert run.attempts == done + [];
      assert done + [] == done;
      return Exhausted, selector.slot, selector.text[..], requests, reports;
    }

    /** The menu framework selecting item `index`: run the function it points to. Whatever
        is selected, the session is held exactly while item 0 offers to disconnect; each
        action changes only the state its function changes. */
    method Activate(index: nat, frames: seq<Frame>, live: seq<Process>, mcu: Mcu, nwm: NwmExt)
      requires Valid() && index < items.Length - 1
      modifies this`isConnectionForced, this`acRefCount, this`liveHandles, this`eventsCreated, items, mcu, nwm
      ensures Valid()
      ensures liveHandles == old(liveHandles)
      ensures old(items[index].action) != CallControlWifi ==>
        isConnectionForced == old(isConnectionForced)
      ensures index != 0 ==> items[..] == old(items[..]) && acRefCount == old(acRefCount)
      ensures old(items[index].action) == CallToggleLeds ==>
        && mcu.leds == LedsAfter(old(mcu.leds), |RunToggle(frames, true).commits|)
        && mcu.irqMask == old(mcu.irqMask) && nwm.commands == old(nwm.commands)
      ensures old(items[index].action) == CallTogglePowerButton ==>
        && mcu.irqMask == MaskAfter(old(mcu.irqMask), |RunToggle(frames, true).commits|)
        && mcu.leds == old(mcu.leds) && nwm.commands == old(nwm.commands)
      ensures old(items[index].action) == CallToggleWireless ==>
        && nwm.commands == old(nwm.commands) + Commands(RunToggle(frames, NwmListed(live)).commits)
        && mcu.leds == old(mcu.leds) && mcu.irqMask == old(mcu.irqMask)
      ensures old(items[index].action) in {CallControlWifi, CallDisableForcedWifiConnection} ==>
        && mcu.leds == old(mcu.leds) && mcu.irqMask == old(mcu.irqMask)
        && nwm.commands == old(nwm.commands)
    {
      match items[index].action
      case CallControlWifi =>
        assert index == 0;
        var ending, slot, buffer, requests, reports := ControlWifi(frames);
      case CallDisableForcedWifiConnection =>
        assert index == 0;
        DisableForcedWifiConnection();
      case CallToggleLeds =>
        var ending := ToggleLeds(mcu, frames);
      case CallToggleWireless =>
        var running, ending := ToggleWireless(live, nwm, frames);
      case CallTogglePowerButton =>
        var ending, shown := TogglePowerButtonMenu(mcu, frames);
      case NoMethod =>
        assert false;
    }
  }
}
