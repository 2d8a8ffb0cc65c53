/** The wireless-management presence detector of the wireless menu: a bounded scan of the
    kernel's process list for a process whose name is exactly "nwm". */
module Detector {

  /** Capacity of the pid buffer handed to the kernel. */
  const MaxProcesses: nat := 0x40

  /** The eight bytes of a process name, NUL padded. */
  type ProcessName = s: seq<char> | |s| == 8 witness "\0\0\0\0\0\0\0\0"

  /** What the kernel answers about one listed pid: whether it can be opened and, if it
      can, the name it reports. */
  datatype Process = Process(pid: nat, opens: bool, name: ProcessName)

  /** The name compared against, NUL included. */
  const Nwm: string := "nwm\0"

  /** `strncmp(s, t, n) == 0`: the first `n` characters agree, stopping early at a NUL they
      share. */
  function StrnEqual(s: seq<char>, t: seq<char>, n: nat): bool
    requires n <= |s| && n <= |t|
  {
    if n == 0 then true
    else if s[0] != t[0] then false
    else if s[0] == '\0' then true
    else StrnEqual(s[1..], t[1..], n - 1)
  }

  /** The comparison the detector makes: `strncmp(name, "nwm", 4) == 0`. */
  predicate IsNwm(name: ProcessName)
  {
    StrnEqual(name, Nwm, 4)
  }

  /** Because the literal's NUL is inside the four compared characters, the name must be
      exactly "nwm": a longer name with that prefix does not match. */
  lemma IsNwmExact(name: ProcessName)
    ensures IsNwm(name) <==> name[..4] == Nwm
  {
    assert StrnEqual(name[3..], Nwm[3..], 1) <==> name[3] == '\0';
    assert StrnEqual(name[2..], Nwm[2..], 2) <==> name[2] == 'm' && name[3] == '\0';
    assert StrnEqual(name[1..], Nwm[1..], 3) <==> name[1..4] == "wm\0";
  }

  lemma PrefixDoesNotMatch()
    ensures !IsNwm("nwm2\0\0\0\0")
  {
  }

  /** Five system processes, none of them the wireless-management service. */
  const StockProcesses: seq<Process> := [
    Process(3, true, "loader\0\0"), Process(2, true, "fs\0\0\0\0\0\0"),
    Process(1, true, "pm\0\0\0\0\0\0"), Process(4, true, "menu\0\0\0\0"),
    Process(5, true, "home\0\0\0\0")
  ]

  lemma StockProcessesLackNwm()
    ensures forall k: nat | k < ListedCount(StockProcesses) :: !Matches(StockProcesses, k)
  {
  }

  /** How many pids the kernel lists: all, up to the buffer's capacity. */
  function ListedCount(live: seq<Process>): (n: nat)
    ensures n <= MaxProcesses && n <= |live|
    ensures n < MaxProcesses ==> n == |live|
  {
    if |live| < MaxProcesses then |live| else MaxProcesses
  }

  /** The listed entry `k` is the wireless-management service. */
  predicate Matches(live: seq<Process>, k: nat)
    requires k < |live|
  {
    live[k].opens && IsNwm(live[k].name)
  }

  /** `svcGetProcessList` into a buffer of `MaxProcesses` entries: the kernel fills the
      buffer with the first listed processes and reports how many it wrote. */
  method GetProcessList(live: seq<Process>) returns (amount: nat, pidList: array<Process>)
    ensures pidList.Length == MaxProcesses && amount == ListedCount(live)
    ensures pidList[..amount] == live[..amount]
  {
    pidList := new Process[MaxProcesses](_ => Process(0, false, "\0\0\0\0\0\0\0\0"));
    amount := ListedCount(live);
    forall k | 0 <= k < amount {
      pidList[k] := live[k];
    }
  }

  /** The scan: walk the listed pids in order, skip those that fail to open, and stop at the
      first whose name is "nwm". `scanned` is how many entries were looked at. The service
      counts as running exactly when some listed, openable process is named "nwm", and the
      scan stops at the first one. */
  method DetectNwm(live: seq<Process>) returns (running: bool, scanned: nat)
    ensures running <==> exists k: nat :: k < ListedCount(live) && Matches(live, k)
    ensures scanned <= ListedCount(live)
    ensures running ==> 0 < scanned && Matches(live, scanned - 1)
    ensures forall k: nat | k < scanned - (if running then 1 else 0) :: !Matches(live, k)
  {
    var amount, pidList := GetProcessList(live);
    running := false;
    var i := 0;
    while i < amount
      invariant 0 <= i <= amount
      invariant pidList[..amount] == live[..amount]
      invariant forall k: nat | k < i :: !Matches(live, k)
    {
      assert pidList[i] == live[i];
      if !pidList[i].opens {
        i := i + 1;
        continue;
      }
      var processName := pidList[i].name;
      if IsNwm(processName) {
        running := true;
        break;
      }
      i := i + 1;
    }
    if running {
      assert i < ListedCount(live) && Matches(live, i);
    }
    scanned := if running then i + 1 else i;
  }
}
