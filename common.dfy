/** The outside world as the system-configuration menu sees it: the buttons a poll
    reports, the answers of the services it calls, and the exit signal it polls. Every
    menu here is a `do { draw; poll; act } while (!menuShouldExit)` loop; a run of such a
    loop is driven by a finite script of frames, one frame per pass. */
module MenuWorld {

  datatype Option<+T> = None | Some(value: T)

  /** The buttons `waitInputWithTimeout` reports as newly pressed in one poll
      (all false when the poll timed out). */
  datatype Buttons = Buttons(a: bool, b: bool, left: bool, right: bool)

  /** What the network-configuration service answers to one connection attempt:
      `acInit`, `ACU_ConnectAsync`, the wait on the connect event, and `ACU_GetSSID`
      (None when that call fails). */
  datatype Link = Link(acInit: bool, connect: bool, wait: bool, ssid: Option<string>)

  /** One pass of a menu loop: the poll's result, the memory-mapped wireless status byte
      read while drawing, the answers of the ac services should this pass connect, and the
      value of `menuShouldExit` at the loop's test. */
  datatype Frame = Frame(pressed: Buttons, wifiStatus: bv8, link: Link, exitSignal: bool)

  /** How a menu loop ended: B pressed, the exit signal seen at the loop test, the script
      ran out, or (slot selector only) a connection was forced. */
  datatype Ending = Back | Signalled | Exhausted | Connected

  /** True when every step of a connection attempt succeeds. */
  predicate LinkUp(link: Link)
  {
    link.acInit && link.connect && link.wait && link.ssid.Some?
  }

  /** A run of an "A: commit, B: cancel" loop: the frames whose pass committed, in order,
      and how the loop ended. */
  datatype ToggleRun = ToggleRun(commits: seq<Frame>, ending: Ending)

  /** The run of the loop shared by the LED, wireless and power-button menus over
      `frames`. A press of A commits when `armed` (the wireless menu arms it only when the
      wireless-management service is running, the others always); otherwise B returns; after
      every pass that did not return, the exit signal ends the loop. */
  function RunToggle(frames: seq<Frame>, armed: bool): (run: ToggleRun)
    ensures run.ending != Connected
    ensures |run.commits| <= |frames|
    ensures !armed ==> run.commits == []
    ensures forall k | 0 <= k < |run.commits| :: run.commits[k].pressed.a
    ensures armed && run.ending == Exhausted ==> |run.commits| == CountA(frames)
    decreases |frames|
  {
    if frames == [] then ToggleRun([], Exhausted)
    else
      var f := frames[0];
      if f.pressed.a && armed then
        if f.exitSignal then ToggleRun([f], Signalled)
        else
          var rest := RunToggle(frames[1..], armed);
          ToggleRun([f] + rest.commits, rest.ending)
      else if f.pressed.b then ToggleRun([], Back)
      else if f.exitSignal then ToggleRun([], Signalled)
      else RunToggle(frames[1..], armed)
  }

  /** The number of frames in which A is pressed. */
  function CountA(frames: seq<Frame>): nat
  {
    if frames == [] then 0 else (if frames[0].pressed.a then 1 else 0) + CountA(frames[1..])
  }

  /** A frame that makes a toggle loop leave without committing: B alone, or the exit
      signal. */
  predicate StopsToggle(f: Frame, armed: bool)
  {
    (!(f.pressed.a && armed) && f.pressed.b) || f.exitSignal
  }

  /** The pass over `frames[k]` is the one that returns: B pressed without an armed A,
      and no earlier frame stopped the loop. */
  ghost predicate ReturnsAt(frames: seq<Frame>, k: nat, armed: bool)
    requires k < |frames|
  {
    && !(frames[k].pressed.a && armed) && frames[k].pressed.b
    && forall j :: 0 <= j < k ==> !StopsToggle(frames[j], armed)
  }

  lemma ReturnsAtShift(frames: seq<Frame>, k: nat, armed: bool)
    requires k + 1 < |frames|
    ensures ReturnsAt(frames, k + 1, armed) <==>
      !StopsToggle(frames[0], armed) && ReturnsAt(frames[1..], k, armed)
  {
  }

  /** A toggle loop returns on B exactly when some pass returns before anything else
      stopped it. */
  lemma {:induction false} ToggleBackIff(frames: seq<Frame>, armed: bool)
    ensures RunToggle(frames, armed).ending == Back <==>
      exists k: nat :: k < |frames| && ReturnsAt(frames, k, armed)
    decreases |frames|
  {
    if frames == [] {
    } else if StopsToggle(frames[0], armed) {
      forall k: nat | 0 < k < |frames| ensures !ReturnsAt(frames, k, armed) {
        assert StopsToggle(frames[0], armed);
      }
      if RunToggle(frames, armed).ending == Back {
        assert ReturnsAt(frames, 0, armed);
      }
    } else {
      ToggleBackIff(frames[1..], armed);
      forall k: nat | k + 1 < |frames|
        ensures ReturnsAt(frames, k + 1, armed) <==> ReturnsAt(frames[1..], k, armed)
      {
        ReturnsAtShift(frames, k, armed);
      }
      if RunToggle(frames, armed).ending == Back {
        var k: nat :| k < |frames[1..]| && ReturnsAt(frames[1..], k, armed);
        assert ReturnsAt(frames, k + 1, armed);
      } else if exists k: nat :: k < |frames| && ReturnsAt(frames, k, armed) {
        var k: nat :| k < |frames| && ReturnsAt(frames, k, armed);
        assert ReturnsAt(frames[1..], k - 1, armed);
      }
    }
  }
}
