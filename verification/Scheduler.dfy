/** Round-robin scheduling over process slots. */
module Scheduler {

  const MAX_PROC: nat := 64

  datatype Status = Empty | Ready | Running | Blocked | Zombie

  datatype Slots = Slots(status: seq<Status>, current: nat)

  /** The current slot exists, and no other slot is running. */
  ghost predicate Valid(s: Slots) {
    && |s.status| == MAX_PROC && s.current < MAX_PROC
    && forall k :: 0 <= k < MAX_PROC && k != s.current ==> s.status[k] != Running
  }

  /** How many steps after `c` the rotation reaches `k`; a full turn for `c` itself. */
  function Distance(c: nat, k: nat): (d: nat)
    requires c < MAX_PROC && k < MAX_PROC
    ensures 1 <= d <= MAX_PROC && (d == MAX_PROC <==> c == k)
  {
    if k > c then k - c else MAX_PROC + k - c
  }

  function At(c: nat, d: nat): (k: nat)
    requires c < MAX_PROC
    ensures k < MAX_PROC
  {
    (c + d) % MAX_PROC
  }

  lemma {:induction false} AtDistance(c: nat, k: nat)
    requires c < MAX_PROC && k < MAX_PROC
    ensures At(c, Distance(c, k)) == k
  {
  }

  lemma {:induction false} DistanceAt(c: nat, d: nat)
    requires c < MAX_PROC && 1 <= d <= MAX_PROC
    ensures Distance(c, At(c, d)) == d
  {
  }

  /** `k` is the first ready slot of the rotation that starts after `c`. */
  ghost predicate IsNext(s: Slots, k: int) {
    && |s.status| == MAX_PROC && s.current < MAX_PROC && -1 <= k < MAX_PROC
    && (k >= 0 ==> s.status[k] == Ready)
    && forall j: nat :: j < MAX_PROC && s.status[j] == Ready ==>
         k >= 0 && Distance(s.current, k) <= Distance(s.current, j)
  }

  /** One call of the scheduler. */
  ghost function Switched(s: Slots, k: int): Slots
    requires |s.status| == MAX_PROC && s.current < MAX_PROC && k < MAX_PROC
  {
    if k < 0 || k == s.current then s
    else
      var freed := if s.status[s.current] == Running then s.status[s.current := Ready] else s.status;
      Slots(freed[k := Running], k)
  }

  class Table {
    const status: array<Status>
    var current: nat

    ghost function View(): Slots
      reads this, status
    {
      Slots(status[..], current)
    }

    constructor (s: seq<Status>, c: nat)
      requires Valid(Slots(s, c))
      ensures View() == Slots(s, c) && status.Length == MAX_PROC && fresh(status)
    {
      status := new Status[|s|](i requires 0 <= i < |s| => s[i]);
      current := c;
      new;
      assert status[..] == s;
    }

    method FindNextReady() returns (k: int)
      requires status.Length == MAX_PROC && current < MAX_PROC
      ensures IsNext(View(), k)
    {
      var i := 1;
      while i <= MAX_PROC
        invariant 1 <= i <= MAX_PROC + 1
        invariant forall d: nat :: 1 <= d < i ==> status[At(current, d)] != Ready
      {
        if status[At(current, i)] == Ready {
          k := At(current, i);
          DistanceAt(current, i);
          forall j: nat | j < MAX_PROC && status[j] == Ready ensures i <= Distance(current, j) {
            AtDistance(current, j);
          }
          return;
        }
        i := i + 1;
      }
      forall j: nat | j < MAX_PROC ensures status[j] != Ready { AtDistance(current, j); }
      k := -1;
    }

    method Schedule() returns (ghost k: int)
      requires status.Length == MAX_PROC && Valid(View())
      modifies this, status
      ensures Valid(View()) && IsNext(old(View()), k) && View() == Switched(old(View()), k)
    {
      var next := FindNextReady();
      k := next;
      if next == -1 || next == current { return; }
      if status[current] == Running { status[current] := Ready; }
      status[next] := Running;
      current := next;
    }
  }

  // ---- bounded waiting ---------------------------------------------------------------------------------

  /** A scheduler call, or a state change of any slot: the current one may block, exit or be made ready, but no
      other one starts running by itself. */
  datatype Step = Tick(k: int) | Change(i: nat, to: Status)

  ghost predicate Enabled(s: Slots, t: Step) {
    match t
    case Tick(k) => IsNext(s, k)
    case Change(i, to) => i < |s.status| && (to == Running ==> i == s.current)
  }

  ghost function After(s: Slots, t: Step): Slots
    requires |s.status| == MAX_PROC && s.current < MAX_PROC && Enabled(s, t)
  {
    match t
    case Tick(k) => Switched(s, k)
    case Change(i, to) => s.(status := s.status[i := to])
  }

  /** Every step keeps the invariant. */
  lemma {:induction false} StepValid(s: Slots, t: Step)
    requires Valid(s) && Enabled(s, t)
    ensures Valid(After(s, t))
  {
  }

  /** The run is possible, slot `k` staying ready until it is picked. */
  ghost predicate Waits(s: Slots, run: seq<Step>, k: nat)
    decreases |run|
  {
    && Valid(s) && k < MAX_PROC && s.status[k] == Ready && s.current != k
    && (run != [] ==> Enabled(s, run[0]) && Waits(After(s, run[0]), run[1..], k))
  }

  function Ticks(run: seq<Step>): nat { if run == [] then 0 else (if run[0].Tick? then 1 else 0) + Ticks(run[1..]) }

  /** A call that does not pick the waiting slot brings the rotation closer to it. */
  lemma {:induction false} TickCloser(s: Slots, n: int, k: nat)
    requires Valid(s) && k < MAX_PROC && s.status[k] == Ready && s.current != k && IsNext(s, n)
    ensures var s' := Switched(s, n); s'.current == k || Distance(s'.current, k) < Distance(s.current, k)
  {
    assert Distance(s.current, n) <= Distance(s.current, k);
  }

  /** A slot that stays ready is passed over by fewer calls than its distance: it is picked within 63. */
  lemma {:induction false} BoundedWaiting(s: Slots, run: seq<Step>, k: nat)
    requires Waits(s, run, k)
    ensures Ticks(run) < Distance(s.current, k) <= MAX_PROC - 1
    decreases |run|
  {
    if run != [] {
      var s' := After(s, run[0]);
      BoundedWaiting(s', run[1..], k);
      if run[0].Tick? { TickCloser(s, run[0].k, k); }
    }
  }

  // ---- nobody gets lost --------------------------------------------------------------------------------

  predicate Runnable(st: Status) { st == Ready || st == Running }

  /** A call makes no slot runnable and takes none out of the running; the one picked runs and is current. */
  lemma {:induction false} RunnableKept(s: Slots, k: int)
    requires Valid(s) && IsNext(s, k)
    ensures var s' := Switched(s, k);
            && |s'.status| == MAX_PROC
            && (forall j :: 0 <= j < MAX_PROC ==> Runnable(s'.status[j]) == Runnable(s.status[j]))
            && (forall j :: 0 <= j < MAX_PROC && !Runnable(s.status[j]) ==> s'.status[j] == s.status[j])
            && (k >= 0 && k != s.current ==> s'.current == k && s'.status[k] == Running)
  {
  }

  /** The run is possible, and no step of it is about slot `c` or makes it current. */
  ghost predicate PassesOver(s: Slots, run: seq<Step>, c: nat)
    decreases |run|
  {
    && Valid(s) && s.current != c
    && (run != [] ==>
          && Enabled(s, run[0]) && !(run[0].Change? && run[0].i == c)
          && PassesOver(After(s, run[0]), run[1..], c))
  }

  lemma {:induction false} StillWaits(s: Slots, run: seq<Step>, c: nat)
    requires PassesOver(s, run, c) && c < MAX_PROC && s.status[c] == Ready
    ensures Waits(s, run, c)
    decreases |run|
  {
    if run != [] {
      StepValid(s, run[0]);
      StillWaits(After(s, run[0]), run[1..], c);
    }
  }

  /** A slot that is preempted while running is picked again within 63 calls, unless it is changed meanwhile. */
  lemma {:induction false} PickedAgain(s: Slots, k: int, run: seq<Step>)
    requires Valid(s) && s.status[s.current] == Running && IsNext(s, k) && k >= 0 && k != s.current
    requires PassesOver(Switched(s, k), run, s.current)
    ensures Ticks(run) < 63
  {
    StillWaits(Switched(s, k), run, s.current);
    BoundedWaiting(Switched(s, k), run, s.current);
  }
}
