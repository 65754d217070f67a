// The connection limit: one listener that loads the counter and adds to it in separate
// atomic steps, and any number of handler threads that subtract from it when they end.

module Connections {

  const MAX_CONNECTIONS: nat := 1024
  const WORD: nat := 0x1_0000_0000_0000_0000

  /** Where the listener is in its loop. */
  datatype Listener = Head | GotSocket | Loaded(current: nat) | CountedTotal | CountedCurrent

  /** The three counters (64-bit words), the sockets accepted and the live handler threads. */
  datatype Net = Net(at: Listener, curr: nat, total: nat, rejected: nat, accepted: nat, live: nat)

  datatype Move = Accept | AcceptError | Load | Reject | AddTotal | AddCurrent | Spawn | HandlerEnds

  const START := Net(Head, 0, 0, 0, 0, 0)

  predicate Enabled(n: Net, m: Move) {
    match m
    case Accept => n.at.Head?
    case AcceptError => n.at.Head?
    case Load => n.at.GotSocket?
    case Reject => n.at.Loaded? && n.at.current >= MAX_CONNECTIONS
    case AddTotal => n.at.Loaded? && n.at.current < MAX_CONNECTIONS
    case AddCurrent => n.at.CountedTotal?
    case Spawn => n.at.CountedCurrent?
    case HandlerEnds => n.live > 0
  }

  function Take(n: Net, m: Move): Net
    requires Enabled(n, m)
  {
    match m
    case Accept => n.(at := GotSocket, accepted := n.accepted + 1)
    case AcceptError => n
    case Load => n.(at := Loaded(n.curr))
    case Reject => n.(at := Head, rejected := n.rejected + 1)
    case AddTotal => n.(at := CountedTotal, total := n.total + 1)
    case AddCurrent => n.(at := CountedCurrent, curr := (n.curr + 1) % WORD)
    case Spawn => n.(at := Head, live := n.live + 1)
    case HandlerEnds => n.(curr := (n.curr + WORD - 1) % WORD, live := n.live - 1)
  }

  /** A run is an enabled sequence of moves; threads interleave freely. */
  predicate IsRun(ms: seq<Move>)
    decreases |ms|, 0
  {
    ms == [] || (IsRun(ms[..|ms| - 1]) && Enabled(After(ms[..|ms| - 1]), ms[|ms| - 1]))
  }

  function After(ms: seq<Move>): Net
    requires IsRun(ms)
    decreases |ms|, 1
  {
    if ms == [] then START else Take(After(ms[..|ms| - 1]), ms[|ms| - 1])
  }

  /** What holds at every point of the loop; the loaded value may be stale, but only too high. */
  predicate Safe(n: Net) {
    && n.curr == n.live + (if n.at.CountedCurrent? then 1 else 0)
    && n.curr <= MAX_CONNECTIONS
    && (n.at.Loaded? ==> n.curr <= n.at.current)
    && (n.at.CountedTotal? ==> n.curr < MAX_CONNECTIONS)
    && n.accepted == n.total + n.rejected + (if n.at.GotSocket? || n.at.Loaded? then 1 else 0)
  }

  lemma {:induction false} AlwaysSafe(ms: seq<Move>)
    requires IsRun(ms)
    ensures Safe(After(ms))
  {
    if ms != [] { AlwaysSafe(ms[..|ms| - 1]); }
  }

  /**
   * In every reachable state the connection counter is at most 1024 and exceeds the live
   * handlers by at most the one spawn in progress; at the loop head it equals them, and every
   * accepted socket has been counted as served or rejected.
   */
  lemma ConnectionLimit(ms: seq<Move>)
    requires IsRun(ms)
    ensures After(ms).curr <= 1024 && After(ms).live <= 1024
    ensures After(ms).live <= After(ms).curr <= After(ms).live + 1
    ensures After(ms).at.Head? ==>
      After(ms).curr == After(ms).live && After(ms).accepted == After(ms).total + After(ms).rejected
  {
    AlwaysSafe(ms);
  }

  /** A socket is turned away only if 1024 handlers were live when the counter was loaded. */
  lemma RejectedOnlyWhenFull(ms: seq<Move>)
    requires IsRun(ms) && ms != [] && ms[|ms| - 1].Load?
    ensures Enabled(After(ms), Reject) <==> After(ms).live == 1024
  {
    AlwaysSafe(ms[..|ms| - 1]);
    AlwaysSafe(ms);
  }
}
