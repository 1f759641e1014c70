/** The decisions of the master's event loop, one iteration at a time: the
    idle-timeout test, the "no active source" test, the outcome of the
    multiplexed wait, and the round-robin service of every ready agent.
    The wait, the reads and the clock are inputs; the decisions taken on
    them are modelled. */
module EventLoop {
  import opened Common
  import opened Master

  /** The master's record of one agent's pipe. */
  datatype Pipe = Pipe(readFd: int, writeFd: int, pid: int, alive: bool)

  /** What the multiplexed wait reports: a failure (interrupted by a signal or
      not), a timeout with nothing readable, or the players whose pipe is
      readable. */
  datatype WaitResult = WaitFailed(interrupted: bool) | WaitTimedOut | WaitReady(ready: set<nat>)

  /** What reading one byte from an agent's pipe gives: end of stream, a
      failure (would-block or another error), or the direction byte. */
  datatype ReadResult = ReadEof | ReadFailed(wouldBlock: bool) | ReadByte(dir: byte)

  /** How an iteration ends: the loop goes on, the wait is retried, the
      match finishes (with the pids of the agents to kill), or the master
      dies with an exit code. */
  datatype Verdict = KeepRunning | RetryWait | Finished(killed: seq<int>) | Fatal(exitCode: int)

  /** The decision an iteration takes before it serves anybody. */
  datatype Phase =
    | IdleTimeout
    | NoActiveSource
    | Interrupted
    | WaitError
    | NothingReady
    | Serve(ready: set<nat>)

  predicate Ends(phase: Phase)
  {
    phase.IdleTimeout? || phase.NoActiveSource? || phase.NothingReady?
  }

  /** The order of the tests at the top of the loop: the idle timeout first,
      then the set of active sources, then what the wait reports. */
  function Decide(elapsed: int, timeoutS: int, anyActive: bool, wait: WaitResult): (phase: Phase)
    ensures phase.IdleTimeout? <==> elapsed >= timeoutS
    ensures phase.Serve? ==> anyActive && wait == WaitReady(phase.ready)
  {
    if elapsed >= timeoutS then IdleTimeout
    else if !anyActive then NoActiveSource
    else match wait
      case WaitFailed(interrupted) => if interrupted then Interrupted else WaitError
      case WaitTimedOut => NothingReady
      case WaitReady(ready) => Serve(ready)
  }

  /** The match ends exactly when the idle time has reached the timeout,
      when no source is active, or when the wait times out; a wait failure
      never ends it. */
  lemma EndsIff(elapsed: int, timeoutS: int, anyActive: bool, wait: WaitResult)
    ensures Ends(Decide(elapsed, timeoutS, anyActive, wait)) <==>
      elapsed >= timeoutS || !anyActive || wait.WaitTimedOut?
    ensures Decide(elapsed, timeoutS, anyActive, wait).Serve? <==>
      elapsed < timeoutS && anyActive && wait.WaitReady?
  {
  }

  /** Some registered player is not blocked and still has an open pipe. */
  predicate HasActive(blocked: seq<bool>, pipes: seq<Pipe>, n: nat)
    requires n <= |blocked| && n <= |pipes|
  {
    exists i :: 0 <= i < n && !blocked[i] && pipes[i].readFd >= 0
  }

  /** The loop counting the readable sources it will wait on. */
  method CountActive(blocked: seq<bool>, pipes: array<Pipe>, n: nat) returns (count: nat)
    requires n <= |blocked| && n <= pipes.Length
    ensures count <= n
    ensures count == 0 <==> !HasActive(blocked, pipes[..], n)
  {
    count := 0;
    for i := 0 to n
      invariant count <= i
      invariant count == 0 <==> !HasActive(blocked, pipes[..], i)
    {
      if !blocked[i] && pipes[i].readFd >= 0 {
        count := count + 1;
      }
    }
  }

  /** The visiting order of one round: every index from start on, wrapping
      modulo n. */
  function RoundRobin(start: nat, n: nat): (order: seq<nat>)
    requires n > 0
    ensures |order| == n
    ensures forall s :: 0 <= s < n ==> order[s] < n
  {
    seq(n, s => (start + s) % n)
  }

  /** No multiple of n lies strictly between 0 and n. */
  lemma NoMultipleBelow(k: int, n: nat)
    requires n > 0
    ensures k * n <= 0 || k * n >= n
  {
    if k >= 1 {
      MulLeq(1, k, n);
    } else {
      MulLeq(k, 0, n);
    }
  }

  /** Euclidean remainder is determined by any quotient-remainder split. */
  lemma ModUnique(a: int, n: nat, q: int, r: int)
    requires n > 0 && a == q * n + r && 0 <= r < n
    ensures a % n == r
  {
    var q0, r0 := a / n, a % n;
    assert (q - q0) * n == r0 - r;
    if q != q0 {
      if q > q0 {
        MulLeq(1, q - q0, n);
      } else {
        MulLeq(1, q0 - q, n);
      }
      assert false;
    }
  }

  /** One round visits every player index exactly once, starting at start. */
  lemma {:induction false} RoundRobinVisitsEachOnce(start: nat, n: nat)
    requires n > 0
    ensures RoundRobin(start, n)[0] == start % n
    ensures forall i :: 0 <= i < n ==> i in RoundRobin(start, n)
    ensures forall s1, s2 :: 0 <= s1 < s2 < n ==> RoundRobin(start, n)[s1] != RoundRobin(start, n)[s2]
  {
    var order := RoundRobin(start, n);
    forall i | 0 <= i < n
      ensures i in order
    {
      var q, s := (i - start) / n, (i - start) % n;
      assert start + s == (-q) * n + i;
      ModUnique(start + s, n, -q, i);
      assert order[s] == i;
    }
    forall s1, s2 | 0 <= s1 < s2 < n
      ensures order[s1] != order[s2]
    {
      var a, b := start + s1, start + s2;
      if a % n == b % n {
        assert a == (a / n) * n + a % n;
        assert b == (b / n) * n + b % n;
        assert (b / n - a / n) * n == s2 - s1;
        NoMultipleBelow(b / n - a / n, n);
      }
    }
  }

  /** The state one round of service changes. */
  datatype Round = Round(players: seq<Player>, board: seq<int>, pipes: seq<Pipe>, anyValid: bool)

  predicate Shaped(r: Round, w: nat, h: nat)
  {
    |r.players| == MAX_PLAYERS && |r.pipes| == MAX_PLAYERS && |r.board| == w * h
  }

  /** End of stream or a hard read error: the player is blocked and its
      pipe closed. */
  function Retire(r: Round, i: nat): (r': Round)
    requires i < |r.players| && i < |r.pipes|
    ensures r'.board == r.board && r'.anyValid == r.anyValid
    ensures |r'.players| == |r.players| && |r'.pipes| == |r.pipes|
    ensures r'.players[i].isBlocked && r'.players[i].(isBlocked := false) == r.players[i].(isBlocked := false)
    ensures r'.pipes[i].readFd == -1 && !r'.pipes[i].alive
    ensures r'.pipes[i].pid == r.pipes[i].pid && r'.pipes[i].writeFd == r.pipes[i].writeFd
    ensures forall j :: 0 <= j < |r.players| && j != i ==> r'.players[j] == r.players[j]
    ensures forall j :: 0 <= j < |r.pipes| && j != i ==> r'.pipes[j] == r.pipes[j]
  {
    r.(players := r.players[i := r.players[i].(isBlocked := true)],
       pipes := r.pipes[i := r.pipes[i].(readFd := -1, alive := false)])
  }

  /** The service of player i within a round, given the blocked flags
      snapshotted before the wait, the readable set and what its read gives. */
  function Service(w: nat, h: nat, r: Round, i: nat, blocked: seq<bool>, ready: set<nat>, rd: ReadResult): (r': Round)
    requires Shaped(r, w, h) && i < MAX_PLAYERS && i < |blocked|
    ensures Shaped(r', w, h)
  {
    if r.pipes[i].readFd < 0 || blocked[i] || i !in ready then r
    else match rd
      case ReadEof => Retire(r, i)
      case ReadFailed(wouldBlock) => if wouldBlock then r else Retire(r, i)
      case ReadByte(dir) =>
        var m := Move(r.board, w, h, r.players[i], i, dir);
        r.(players := r.players[i := m.player], board := m.board, anyValid := r.anyValid || m.applied)
  }

  /** Serving a player only ever sets the valid-move flag; everything else
      it does is independent of the flag's previous value. */
  lemma ServiceCarriesFlag(w: nat, h: nat, r: Round, i: nat, blocked: seq<bool>, ready: set<nat>, rd: ReadResult)
    requires Shaped(r, w, h) && i < MAX_PLAYERS && i < |blocked|
    ensures var clean := Service(w, h, r.(anyValid := false), i, blocked, ready, rd);
            Service(w, h, r, i, blocked, ready, rd) == clean.(anyValid := r.anyValid || clean.anyValid)
  {
  }

  predicate OrderFits(order: seq<nat>, blocked: seq<bool>, outcomes: seq<ReadResult>)
  {
    forall s :: 0 <= s < |order| ==> order[s] < MAX_PLAYERS && order[s] < |blocked| && order[s] < |outcomes|
  }

  /** A round: the players of order served one after another. */
  function ServiceAll(w: nat, h: nat, r: Round, order: seq<nat>, blocked: seq<bool>, ready: set<nat>,
                      outcomes: seq<ReadResult>): (r': Round)
    requires Shaped(r, w, h) && OrderFits(order, blocked, outcomes)
    ensures Shaped(r', w, h)
    decreases |order|
  {
    if order == [] then r
    else
      var last := order[|order| - 1];
      Service(w, h, ServiceAll(w, h, r, order[..|order| - 1], blocked, ready, outcomes), last, blocked, ready, outcomes[last])
  }

  lemma EvolvesReflexive(r: Round)
    ensures Evolves(r, r)
  {
  }

  /** Serving one more player of the order extends the round by one service. */
  lemma ServiceAllExtend(w: nat, h: nat, r: Round, order: seq<nat>, k: nat, blocked: seq<bool>, ready: set<nat>,
                         outcomes: seq<ReadResult>)
    requires Shaped(r, w, h) && OrderFits(order, blocked, outcomes) && k < |order|
    ensures OrderFits(order[..k], blocked, outcomes) && OrderFits(order[..k + 1], blocked, outcomes)
    ensures ServiceAll(w, h, r, order[..k + 1], blocked, ready, outcomes) ==
      Service(w, h, ServiceAll(w, h, r, order[..k], blocked, ready, outcomes), order[k], blocked, ready, outcomes[order[k]])
  {
    assert order[..k + 1][..k] == order[..k];
  }

  /** What may only grow between two states of the match: scores and move
      counters never decrease, a blocked player stays blocked, a closed pipe
      stays closed, and a captured cell keeps its owner. */
  ghost predicate Evolves(a: Round, b: Round)
  {
    |a.players| == |b.players| && |a.pipes| == |b.pipes| && |a.board| == |b.board| &&
    (forall i :: 0 <= i < |a.players| ==>
       b.players[i].score >= a.players[i].score &&
       b.players[i].validMoves >= a.players[i].validMoves &&
       b.players[i].invalidMoves >= a.players[i].invalidMoves &&
       (a.players[i].isBlocked ==> b.players[i].isBlocked)) &&
    (forall i :: 0 <= i < |a.pipes| && a.pipes[i].readFd < 0 ==> b.pipes[i].readFd < 0) &&
    (forall k :: 0 <= k < |a.board| && CellIsCaptured(a.board[k]) ==> b.board[k] == a.board[k])
  }

  lemma {:induction false} ServicePreserves(w: nat, h: nat, r: Round, i: nat, blocked: seq<bool>, ready: set<nat>,
                                           rd: ReadResult, n: nat)
    requires Shaped(r, w, h) && i < n <= MAX_PLAYERS && i < |blocked|
    requires PlayersInBounds(r.players, n, w, h) && BoardWellFormed(r.board, n)
    ensures var r' := Service(w, h, r, i, blocked, ready, rd);
            PlayersInBounds(r'.players, n, w, h) && BoardWellFormed(r'.board, n) && Evolves(r, r')
  {
    if r.pipes[i].readFd >= 0 && !blocked[i] && i in ready && rd.ReadByte? {
      MoveKeepsInvariants(r.board, w, h, r.players[i], i, rd.dir, n);
    }
  }

  /** A round keeps every player on the board and every cell free or owned
      by a registered player, and only moves the state forward. */
  lemma {:induction false} ServiceAllPreserves(w: nat, h: nat, r: Round, order: seq<nat>, blocked: seq<bool>,
                                              ready: set<nat>, outcomes: seq<ReadResult>, n: nat)
    requires Shaped(r, w, h) && OrderFits(order, blocked, outcomes) && n <= MAX_PLAYERS
    requires forall s :: 0 <= s < |order| ==> order[s] < n
    requires PlayersInBounds(r.players, n, w, h) && BoardWellFormed(r.board, n)
    ensures var r' := ServiceAll(w, h, r, order, blocked, ready, outcomes);
            PlayersInBounds(r'.players, n, w, h) && BoardWellFormed(r'.board, n) && Evolves(r, r')
    decreases |order|
  {
    if order != [] {
      var prefix := order[..|order| - 1];
      var last := order[|order| - 1];
      ServiceAllPreserves(w, h, r, prefix, blocked, ready, outcomes, n);
      var mid := ServiceAll(w, h, r, prefix, blocked, ready, outcomes);
      ServicePreserves(w, h, mid, last, blocked, ready, outcomes[last], n);
    }
  }

  /** The display handshake after a byte was read is always due: a move is
      either valid or has changed the invalid-move counter. */
  lemma DisplayHandshakeAlwaysDue(board: seq<int>, w: nat, h: nat, p: Player, i: nat, dir: byte)
    requires |board| == w * h
    ensures var m := Move(board, w, h, p, i, dir);
            m.applied || m.player.invalidMoves != p.invalidMoves
  {
  }

  /** The pids of the live agents, in index order: those finish kills. */
  function Doomed(pipes: seq<Pipe>): (killed: seq<int>)
    ensures |killed| <= |pipes|
    ensures forall j :: 0 <= j < |killed| ==> killed[j] > 0
  {
    if pipes == [] then []
    else
      var last := pipes[|pipes| - 1];
      Doomed(pipes[..|pipes| - 1]) + (if last.alive && last.pid > 0 then [last.pid] else [])
  }

  /** finish kills exactly the agents still alive with a real pid. */
  lemma {:induction false} DoomedExactlyLive(pipes: seq<Pipe>)
    ensures forall pid :: pid in Doomed(pipes) <==>
      exists i :: 0 <= i < |pipes| && pipes[i].alive && pipes[i].pid > 0 && pipes[i].pid == pid
  {
    if pipes != [] {
      var prefix := pipes[..|pipes| - 1];
      DoomedExactlyLive(prefix);
      assert forall i :: 0 <= i < |prefix| ==> prefix[i] == pipes[i];
    }
  }

  /** The snapshot of the blocked flags of the first n players. */
  function BlockedFlags(players: seq<Player>, n: nat): (flags: seq<bool>)
    requires n <= |players|
    ensures |flags| == n && forall i :: 0 <= i < n ==> flags[i] == players[i].isBlocked
  {
    seq(n, i requires 0 <= i < n => players[i].isBlocked)
  }

  /** The master's event loop state: the game state it writes, its pipe
      records, the rotating fairness index and the time of the last valid
      move. */
  class Orchestrator {
    const gs: GameState
    const pipes: array<Pipe>
    const timeoutS: int
    var nextIdx: nat
    var lastValid: int

    ghost predicate Valid()
      reads this, gs, gs.players, gs.board
    {
      gs.Valid() && pipes.Length == MAX_PLAYERS &&
      1 <= gs.numPlayers && nextIdx < gs.numPlayers &&
      gs.InBounds() && gs.WellFormed()
    }

    ghost function Snapshot(anyValid: bool): Round
      reads this, gs, gs.players, gs.board, pipes
    {
      Round(gs.players[..], gs.board[..], pipes[..], anyValid)
    }

    /** The loop's starting point: the clock is read and the fairness index
        is zero. */
    constructor (state: GameState, agentPipes: array<Pipe>, timeout: int, clock: int)
      requires state.Valid() && agentPipes.Length == MAX_PLAYERS && 1 <= state.numPlayers
      requires state.InBounds() && state.WellFormed()
      ensures Valid() && gs == state && pipes == agentPipes && timeoutS == timeout
      ensures nextIdx == 0 && lastValid == clock
    {
      gs, pipes, timeoutS := state, agentPipes, timeout;
      nextIdx, lastValid := 0, clock;
    }

    /** finish: mark the match finished and name the agents to kill. */
    method Finish() returns (killed: seq<int>)
      requires Valid()
      modifies gs
      ensures gs.finished && gs.numPlayers == old(gs.numPlayers)
      ensures killed == Doomed(pipes[..gs.numPlayers])
    {
      gs.finished := true;
      killed := [];
      for i := 0 to gs.numPlayers
        invariant killed == Doomed(pipes[..i])
      {
        assert pipes[..i + 1][..i] == pipes[..i];
        if pipes[i].alive && pipes[i].pid > 0 {
          killed := killed + [pipes[i].pid];
        }
      }
    }

    /** The blocked flags of the registered players, read under the reader
        lock before the wait. */
    method SnapshotBlocked() returns (blocked: seq<bool>)
      requires Valid()
      ensures blocked == BlockedFlags(gs.players[..], gs.numPlayers)
    {
      blocked := [];
      for i := 0 to gs.numPlayers
        invariant |blocked| == i && forall j :: 0 <= j < i ==> blocked[j] == gs.players[j].isBlocked
      {
        blocked := blocked + [gs.players[i].isBlocked];
      }
    }

    /** The service of player i: EOF or a hard read error blocks it and
        closes its pipe, would-block skips it, a byte is applied as a move. */
    method ServeOne(i: nat, blocked: seq<bool>, ready: set<nat>, rd: ReadResult, moveClock: int)
      returns (applied: bool)
      requires gs.Valid() && pipes.Length == MAX_PLAYERS && i < gs.numPlayers && i < |blocked|
      modifies this`lastValid, gs.players, gs.board, pipes
      ensures Snapshot(applied) == Service(gs.width, gs.height, old(Snapshot(false)), i, blocked, ready, rd)
      ensures lastValid == if applied then moveClock else old(lastValid)
    {
      applied := false;
      if pipes[i].readFd >= 0 && !blocked[i] && i in ready {
        match rd {
          case ReadEof =>
            gs.players[i] := gs.players[i].(isBlocked := true);
            pipes[i] := pipes[i].(readFd := -1, alive := false);
          case ReadFailed(wouldBlock) =>
            if !wouldBlock {
              gs.players[i] := gs.players[i].(isBlocked := true);
              pipes[i] := pipes[i].(readFd := -1, alive := false);
            }
          case ReadByte(dir) =>
            applied := gs.ApplyMove(i, dir);
            if applied {
              lastValid := moveClock;
            }
        }
      }
    }

    /** The round-robin pass over the players once the wait reports some
        pipes readable: starting at nextIdx, each index is visited once. */
    method ServeRound(blocked: seq<bool>, ready: set<nat>, outcomes: seq<ReadResult>, moveClock: int)
      returns (anyValid: bool)
      requires Valid() && |outcomes| == gs.numPlayers
      requires blocked == BlockedFlags(gs.players[..], gs.numPlayers)
      modifies this`lastValid, gs.players, gs.board, pipes
      ensures Valid()
      ensures Snapshot(anyValid) ==
        ServiceAll(gs.width, gs.height, old(Snapshot(false)), RoundRobin(nextIdx, gs.numPlayers),
                   blocked, ready, outcomes)
      ensures lastValid == if anyValid then moveClock else old(lastValid)
      ensures Evolves(old(Snapshot(false)), Snapshot(false))
    {
      ghost var start := Snapshot(false);
      anyValid := VisitAll(blocked, ready, outcomes, moveClock);
      ServiceAllPreserves(gs.width, gs.height, start, RoundRobin(nextIdx, gs.numPlayers),
                          blocked, ready, outcomes, gs.numPlayers);
    }

    /** The loop of the round-robin pass. */
    method VisitAll(blocked: seq<bool>, ready: set<nat>, outcomes: seq<ReadResult>, moveClock: int)
      returns (anyValid: bool)
      requires gs.Valid() && pipes.Length == MAX_PLAYERS && 1 <= gs.numPlayers
      requires |outcomes| == gs.numPlayers && |blocked| == gs.numPlayers
      modifies this`lastValid, gs.players, gs.board, pipes
      ensures Snapshot(anyValid) ==
        ServiceAll(gs.width, gs.height, old(Snapshot(false)), RoundRobin(nextIdx, gs.numPlayers),
                   blocked, ready, outcomes)
      ensures lastValid == if anyValid then moveClock else old(lastValid)
    {
      var n := gs.numPlayers;
      ghost var order := RoundRobin(nextIdx, n);
      ghost var start := Snapshot(false);
      anyValid := false;
      var step := 0;
      while step < n
        invariant 0 <= step <= n
        invariant lastValid == if anyValid then moveClock else old(lastValid)
        invariant Snapshot(anyValid) == ServiceAll(gs.width, gs.height, start, order[..step], blocked, ready, outcomes)
      {
        var i := (nextIdx + step) % n;
        assert i == order[step];
        ghost var before := Snapshot(anyValid);
        var applied := ServeOne(i, blocked, ready, outcomes[i], moveClock);
        ServiceCarriesFlag(gs.width, gs.height, before, i, blocked, ready, outcomes[i]);
        ServiceAllExtend(gs.width, gs.height, start, order, step, blocked, ready, outcomes);
        anyValid := anyValid || applied;
        step := step + 1;
      }
      assert order[..n] == order;
    }

    /** One iteration of the loop. now is the clock at the top of the
        iteration, moveClock the clock read after a valid move; wait is what
        the multiplexed wait reports and outcomes[i] what reading player i's
        pipe gives. */
    method Step(now: int, moveClock: int, wait: WaitResult, outcomes: seq<ReadResult>) returns (v: Verdict)
      requires Valid() && |outcomes| == gs.numPlayers
      modifies this, gs, gs.players, gs.board, pipes
      ensures Valid() && gs.numPlayers == old(gs.numPlayers)
      ensures var phase := Decide(now - old(lastValid), timeoutS,
                                  HasActive(BlockedFlags(old(gs.players[..]), gs.numPlayers), old(pipes[..]), gs.numPlayers),
                                  wait);
        && (Ends(phase) ==> v == Finished(Doomed(old(pipes[..gs.numPlayers]))) && gs.finished)
        && (phase.Interrupted? ==> v == RetryWait)
        && (phase.WaitError? ==> v == Fatal(ERROR_SELECT))
        && (!Ends(phase) ==> gs.finished == old(gs.finished))
        && (!phase.Serve? ==>
              gs.players[..] == old(gs.players[..]) && gs.board[..] == old(gs.board[..]) &&
              pipes[..] == old(pipes[..]) && nextIdx == old(nextIdx) && lastValid == old(lastValid))
        && (phase.Serve? ==>
              var r := ServiceAll(gs.width, gs.height, Round(old(gs.players[..]), old(gs.board[..]), old(pipes[..]), false),
                                  RoundRobin(old(nextIdx), gs.numPlayers),
                                  BlockedFlags(old(gs.players[..]), gs.numPlayers), phase.ready, outcomes);
              v == KeepRunning &&
              Snapshot(r.anyValid) == r &&
              nextIdx == (old(nextIdx) + 1) % gs.numPlayers &&
              lastValid == (if r.anyValid then moveClock else old(lastValid)))
      ensures Evolves(old(Snapshot(false)), Snapshot(false))
    {
      var n := gs.numPlayers;
      EvolvesReflexive(Snapshot(false));
      if now - lastValid >= timeoutS {
        var killed := Finish();
        return Finished(killed);
      }
      var blocked := SnapshotBlocked();
      var active := CountActive(blocked, pipes, n);
      if active == 0 {
        var killed := Finish();
        return Finished(killed);
      }
      match wait {
        case WaitFailed(interrupted) =>
          if interrupted {
            return RetryWait;
          }
          return Fatal(ERROR_SELECT);
        case WaitTimedOut =>
          var killed := Finish();
          return Finished(killed);
        case WaitReady(ready) =>
          ServeAndAdvance(blocked, ready, outcomes, moveClock);
          return KeepRunning;
      }
    }

    /** The tail of an iteration that found readable pipes: one round, then
        the fairness index moves on by one. */
    method ServeAndAdvance(blocked: seq<bool>, ready: set<nat>, outcomes: seq<ReadResult>, moveClock: int)
      requires Valid() && |outcomes| == gs.numPlayers
      requires blocked == BlockedFlags(gs.players[..], gs.numPlayers)
      modifies this, gs.players, gs.board, pipes
      ensures Valid()
      ensures var r := ServiceAll(gs.width, gs.height, old(Snapshot(false)), RoundRobin(old(nextIdx), gs.numPlayers),
                                  blocked, ready, outcomes);
              Snapshot(r.anyValid) == r &&
              nextIdx == (old(nextIdx) + 1) % gs.numPlayers &&
              lastValid == (if r.anyValid then moveClock else old(lastValid))
      ensures Evolves(old(Snapshot(false)), Snapshot(false))
    {
      var anyValid := ServeRound(blocked, ready, outcomes, moveClock);
      nextIdx := (nextIdx + 1) % gs.numPlayers;
    }
  }
}
