# A verified model of the arena game's core

The game is a multi-process arena. A master process owns a rectangular board of reward cells
and up to nine agent processes. Each agent repeatedly picks one of eight compass directions and
sends it to the master through a pipe. The master applies each move to a game state kept in a
named shared-memory region. A second region holds the semaphores that order the master, the agents
and an optional display.

This project models, in Dafny, four sequential parts of that system and proves properties of them:

- **common.dfy** (module `Common`): the board and direction primitives.
  - The row-major cell index and the bounds test.
  - The 8-way compass table and direction validation.
  - The cell encoding. A free cell holds a reward in [1, 9]. A captured cell holds minus its owner's index.
  - The size of the game-state region.
- **master.dfy** (module `Master`): the master's game rules.
  - Argument clamping and validation, and the `-p` option.
  - The seeded board fill and the placement of players.
  - `apply_move`, as an in-place update of a `GameState` object proved equal to a pure `Move` function.
- **event_loop.dfy** (module `EventLoop`): one iteration of the master's event loop, as the `Orchestrator` class.
  - The idle-timeout test, the "no active source" test and the handling of the multiplexed wait's outcome.
  - The round-robin service of ready agents from a rotating index.
  - The EOF and read-error rules, and the kill list of `finish`.
- **agent.dfy** (module `Agent`): the agent's greedy heuristic `pick_dir`, and the fact that its choice is a legal move.
- **shm.dfy** (module `Shm`): the shared-region manager.
  - A `Kernel` object holds the table of named segments. A `Handle` object records the name, descriptor, size, whether it is mapped and the length of that mapping, and ownership.
  - Every kernel call (`shm_open`, `ftruncate`, `mmap`, `munmap`, `close`, `sem_init`, `sem_destroy`) is abstract: a boolean input says whether it fails.
  - `shm_unlink` is decided by the table: it fails with ENOENT when the name is absent.

The remap test of the region manager is modelled both as written and corrected; the defect is described under "## Findings", and the rest of the model uses the corrected version.

Kernel calls, the clock, pipe reads and the result of `select` are all parameters. The model decides
what the code decides on those results.

Two structure sizes are fixed as constants: `sizeof(game_state_t)` = 372 and `sizeof(game_sync_t)` = 456.
These are the values on an LP64 Linux target with glibc's 32-byte `sem_t`.

## Model

| member | source | states |
|---|---|---|
| Common.Idx | include/common.h:85-87 | the row-major index y·width + x; its meaning is stated by IdxInRange and IdxInjective below (no contract of its own) |
| Common.IsInside | include/common.h:90-92 | the bounds test 0 ≤ x < width and 0 ≤ y < height; IdxInRange and IdxInjective are stated for the cells it admits (no contract of its own) |
| Common.IdxInRange | include/common.h:85-92 | a cell inside a w×h board has a row-major index in [0, w·h) |
| Common.IdxInjective | include/common.h:85-92 | two cells inside the board with the same index are the same cell |
| Common.CellIsFree | include/common.h:95-97 | a free cell holds a reward in [MIN_REWARD, MAX_REWARD]; FreeAndCapturedDisjoint relates it to CellIsCaptured (no contract of its own) |
| Common.CellIsCaptured | include/common.h:100-102 | a captured cell holds a value ≤ 0; GetCellOwner and OwnerRoundTrip give the owner it encodes (no contract of its own) |
| Common.GetCellOwner | include/common.h:105-107 | the owner is ≥ -1, and it is -1 exactly for values that are not captured |
| Common.PlayerToCellValue | include/common.h:110-112 | a player index ≥ 0 yields a captured value; only index 0 yields EMPTY_CELL |
| Common.OwnerRoundTrip | include/common.h:105-112 | owner index and capture value are inverse: owner(value(i)) = i for i ≥ 0, and value(owner(v)) = v for captured v |
| Common.FreeAndCapturedDisjoint | include/common.h:95-102 | no value is both free and captured; values above 9 are neither; a value is one or the other iff it is ≤ 9 |
| Common.PlayerZeroCollision | include/common.h:27 | player 0's capture value equals EMPTY_CELL, reads as captured by player 0 and never as free |
| Common.DirectionOffset | include/common.h:114-133 | for 0..7 each component is in {-1, 0, 1} and the offset is never (0, 0); any other value yields (0, 0) |
| Common.OppositeDirections | include/common.h:115-124 | directions d and (d+4) mod 8 have negated offsets |
| Common.DirectionsDistinct | include/common.h:115-124 | the eight directions have eight distinct offsets |
| Common.IsValidDirection | include/common.h:136-138 | a direction byte is valid when it is at most 7; ValidDirectionMoves gives its meaning (no contract of its own) |
| Common.ValidDirectionMoves | include/common.h:136-138 | a direction byte is valid (≤ 7) exactly when its offset is a real move |
| Common.GameStateSize | include/common.h:141-143 | the size is the header plus a whole number of int cells, exactly w·h of them |
| Common.GameStateSizeMonotone | include/common.h:141-143 | a board no smaller in either dimension never needs a smaller region |
| Master.Clamp | src/master.c:49-51 | with lo ≤ hi the result lies in [lo, hi], equals v when v is in range, and is the nearer bound otherwise |
| Master.ValidateGameArgs | src/master.c:181-187 | rejected with ERROR_INVALID_ARGS exactly when there is no player; otherwise both dimensions lie in [10, 100] and are kept when already in range |
| Master.CollectPlayerBins | src/master.c:170-173 | `-p` appends the following arguments in order, none starting with '-', stopping at the end of argv, at nine binaries or before an argument starting with '-' |
| Master.RewardOf | src/master.c:57 | every draw of the generator gives a free cell value in [1, 9] |
| Master.StartX | src/master.c:63-65 | the start column (i+1)·W/(P+1), clamped, is a column of the board |
| Master.StartY | src/master.c:64-66 | the start row, a third of the way down for odd i and two thirds for even i, clamped, is a row of the board |
| Master.StartIdx | src/master.c:63-66 | every start position is a cell of the board |
| Master.PlayerLabel | src/master.c:71 | the initial name has two characters: 'P' followed by the decimal digit of the player index i |
| Master.StartsDistinct | src/master.c:63-66 | when the board is wider than the number of players, start columns strictly increase with the index, so start cells are distinct |
| Master.Destination | src/master.c:81-84 | the destination differs from the player's cell by at most one in each coordinate, and differs from it exactly when the direction is in 0..7 |
| Master.MoveAllowed | src/master.c:77-95 | the conjunction of apply_move's three checks; Move and MoveRejected/MoveAccepted state what follows from it (no contract of its own) |
| Master.Move | src/master.c:76-103 | the move applies iff the direction is valid, the destination is on the board and free; exactly one of the two counters grows by one; the score never decreases; name, pid and blocked flag are kept |
| Master.MoveRejected | src/master.c:77-95 | a rejected move changes nothing but one more invalid move: position, score, valid moves and board are untouched |
| Master.MoveAccepted | src/master.c:97-102 | an accepted move steps onto the destination, adds its reward in [1, 9] to the score, counts one valid move and sets exactly that cell to the mover's capture value |
| Master.MoveKeepsInvariants | src/master.c:76-103 | after any move the mover is still on the board, every cell is still free or owned by a registered player, and no captured cell changes |
| Master.GameState.constructor | src/shm.c:228-235 | the state as the region's owner leaves it: its header and board form exactly the image Shm.FreshState stamps (dimensions set, no players, not finished, all cells zero), and every player record is blank |
| Master.GameState.InitBoard | src/master.c:53-58 | cell k, filled row by row, receives the reward of the k-th draw, so every cell is free |
| Master.GameState.FillRow | src/master.c:56-57 | the inner loop fills the row starting at the given index with the rewards of the matching draws and leaves every earlier cell alone |
| Master.GameState.PlacePlayers | src/master.c:60-74 | each registered player i gets name "Pi", the start position, zero counters and is unblocked; only start cells change and they become captured by registered players; on a board wider than the player count, player i's start cell holds -i |
| Master.GameState.PlaceOne | src/master.c:62-72 | one iteration: player i gets the label, the start position, zero counters and is unblocked; its start cell gets its capture value; no other record or cell changes |
| Master.GameState.SetUp | src/master.c:237-244 | after setup all players are on the board with zero counters and unblocked, every cell is free or owned, and every non-start cell holds its drawn reward |
| Master.GameState.ApplyMove | src/master.c:76-103 | the in-place update equals Move on the old state: the returned flag, the mover's new record, the new board; every other player record is unchanged |
| Agent.PickDir | src/player.c:105-122 | returns -1 or a direction in 0..7; -1 iff no in-bounds neighbour is positive; otherwise the chosen neighbour is in bounds, positive, no smaller than any in-bounds neighbour and strictly larger than every lower direction (ties go to the lowest index); the board is only read |
| Agent.PickedDirectionAccepted | src/player.c:113-117 | on a board whose cells are all free or captured, a direction with a positive in-bounds neighbour is one apply_move accepts |
| EventLoop.Decide | src/master.c:309-386 | the idle timeout is taken exactly when the idle time has reached the timeout, whatever else holds; serving only happens with an active source and with the wait's own readable set |
| EventLoop.EndsIff | src/master.c:309-313 | the match ends iff the idle time reaches the timeout, no source is active, or the wait reports nothing ready; serving happens iff none of these holds and the wait reported readable pipes |
| EventLoop.HasActive | src/master.c:359-368 | some registered player is unblocked with an open pipe; CountActive computes it (no contract of its own) |
| EventLoop.CountActive | src/master.c:359-371 | the count of pipes to wait on is zero iff no non-blocked player has an open pipe |
| EventLoop.RoundRobin | src/master.c:388-389 | one round has num_players entries, each a player index |
| EventLoop.RoundRobinVisitsEachOnce | src/master.c:388-389 | a round starts at next_idx, visits every index in [0, num_players) and never visits one twice |
| EventLoop.Retire | src/master.c:398-415 | the player is blocked and its pipe closed and marked dead; its position, score and counters, its pid and write end, every other player and pipe, the board and the valid-move flag are untouched |
| EventLoop.Service | src/master.c:390-424 | serving one player keeps the shape of the players, pipes and board |
| EventLoop.ServiceAll | src/master.c:388-442 | a round keeps the shape of the players, pipes and board |
| EventLoop.ServicePreserves | src/master.c:390-424 | serving one player keeps everyone on the board and every cell free or owned; scores and counters never drop; blocked players stay blocked; closed pipes stay closed; captured cells keep their owner |
| EventLoop.ServiceAllPreserves | src/master.c:388-442 | a whole round keeps the same invariants and only moves the state forward |
| EventLoop.DisplayHandshakeAlwaysDue | src/master.c:418-433 | after a direction byte is read the display condition always holds: the move was valid or the invalid-move counter changed |
| EventLoop.Doomed | src/master.c:136-140 | at most one pid per pipe, and every pid on the kill list is positive |
| EventLoop.DoomedExactlyLive | src/master.c:136-140 | finish kills exactly the agents still alive with a positive pid |
| EventLoop.BlockedFlags | src/master.c:353-357 | the snapshot holds one flag per registered player, each equal to that player's blocked flag |
| EventLoop.Orchestrator.constructor | src/master.c:301-303 | the loop starts with the clock as the last valid move and next_idx zero |
| EventLoop.Orchestrator.Finish | src/master.c:129-145 | marks the match finished and returns the pids to kill, those of the live agents in index order |
| EventLoop.Orchestrator.SnapshotBlocked | src/master.c:353-357 | reads exactly the blocked flags of the registered players |
| EventLoop.Orchestrator.ServeOne | src/master.c:390-427 | serving one player in place equals Service: a closed, blocked or not-ready player is skipped, EOF and hard read errors block it and close its pipe, EAGAIN skips it, a byte is applied as a move; the last-valid time is updated iff that move was valid |
| EventLoop.Orchestrator.VisitAll | src/master.c:388-442 | the in-place loop over one round equals ServiceAll over the round-robin order from next_idx; the last-valid time is updated iff some move was valid |
| EventLoop.Orchestrator.ServeRound | src/master.c:388-442 | the in-place round equals ServiceAll from next_idx: EOF and hard read errors block the player and close its pipe, EAGAIN skips, a byte applies a move; the last-valid time advances iff some move was valid; the state only moves forward |
| EventLoop.Orchestrator.ServeAndAdvance | src/master.c:388-443 | a served round followed by next_idx advancing by one modulo num_players, keeping every invariant of the state |
| EventLoop.Orchestrator.Step | src/master.c:305-443 | one iteration: timeout, no active source or an empty wait finish the match and kill the live agents; an interrupted wait retries with nothing changed; any other wait failure exits with ERROR_SELECT; otherwise one round is served and next_idx advances by one modulo num_players |
| Shm.Kernel.constructor | src/shm.c:92-155 | the kernel's table of named segments starts as given; only open, the owner's resize, the owner's stamp and unlink change it |
| Shm.Handle.constructor | src/shm.c:17-23 | a new handle records the name, descriptor, size and ownership it is given, and starts unmapped, with no mapped length, and not freed |
| Shm.RegionOpen | src/shm.c:92-155 | EINVAL without a handle slot, without a name or for size 0; the creator becomes owner with the requested size and a new segment; a process finding the name already taken becomes non-owner with the existing size and changes nothing; the handle starts unmapped; any failure (including a failed resize, which unlinks again) leaves the table unchanged |
| Shm.UnmapIfMapped | src/shm.c:38-45 | a mapping of nonzero size is removed, leaving no mapped length, unless munmap fails, the only failure case; a zero-size mapping is left alone |
| Shm.RegionClose | src/shm.c:159-174 | EINVAL without a handle; otherwise the handle is freed, the call succeeds iff unmap and close do, and no segment is removed |
| Shm.UnlinkIfOwner | src/shm.c:178-187 | EINVAL without a handle; a no-op returning 0 for a non-owner; the owner removes the name and fails with ENOENT iff it was already gone |
| Shm.Unlink | src/shm.c:186 | the name is gone afterwards; the call succeeds iff it existed |
| Shm.FreshState | src/shm.c:228-235 | the owner's stamp carries the dimensions, no players, not finished and w·h zero cells |
| Shm.FreshStateHasNoFreeCell | src/shm.c:230 | until the master fills the board, every zero cell of a fresh region reads as captured by player 0, never as free |
| Shm.Attach | src/shm.c:204-221 | corrected resize-and-map: an owner whose region is too small grows it to the needed size; a non-owner with a too-small region fails with EINVAL after dropping its mapping (when munmap succeeds); a non-owner never changes the table; a success leaves a mapping whose length covers the whole recorded size, hence the need; a mapping that already covers both is kept |
| Shm.AttachAsWritten | src/shm.c:204-221 | the steps as written: the same resizing rules, and a success leaves the handle mapped with a recorded size at least the need; but a handle mapped before the call keeps its old mapping length, and only a newly made mapping has the recorded size as its length |
| Shm.RegrowKeepsShortMapping | src/shm.c:204-230 | an owner mapping a 10×10 region and then a 100×100 one on the same handle succeeds with a 772-byte mapping and a 40372-byte recorded size, the size the stamp at line 230 clears |
| Shm.RegrowRemaps | src/shm.c:204-221 | the same two requests with the corrected remap test leave a mapping covering the grown 100×100 region |

| Shm.GameStateMap | src/shm.c:193-237 | EINVAL and no change for a missing handle or output or a zero dimension; the owner grows the region and, on success, zeroes it and stamps the dimensions; a success leaves a mapping covering the recorded size, at least the size the board needs; a non-owner with too small a region fails with EINVAL; a non-owner never changes any segment; with no kernel fault an owner, or a non-owner whose region is large enough, succeeds |
| Shm.InitialCount | src/shm.c:61-83 | the initial count of semaphore slot i: 1 for the three mutexes (slots 2 to 4), 0 otherwise; ReadyFabricGates states it of the initialised region (no contract of its own) |
| Shm.SemAt | src/shm.c:61-83 | slot i of the region in initialisation order; InitSyncSemaphores and ReadyFabricGates are stated slot by slot through it (no contract of its own) |
| Shm.LeadingOk | src/shm.c:61-83 | counts the semaphore initialisations before the first failure |
| Shm.InitSyncSemaphores | src/shm.c:55-85 | succeeds iff all fourteen sem_init calls succeed; the semaphores initialised before the first failure get their initial values (the three mutexes 1, the display pair and every turn gate 0) and the rest keep their previous state; the reader count is reset once the five shared semaphores are in place |
| Shm.ReadyFabric | src/shm.c:55-85 | the fully initialised region has one turn gate per player slot |
| Shm.ReadyFabricGates | src/shm.c:61-83 | in the initialised region exactly the writer, state and reader-count mutexes are open; the display pair and every turn gate are closed; no reader is counted |
| Shm.GameSyncMap | src/shm.c:240-277 | the same corrected resize-and-map rules at the fixed region size, a success leaving a mapping that covers the recorded size; only the owner initialises the semaphores, and its success means the region holds the fully initialised fabric; a non-owner never changes any segment |
| Shm.GameStateUnmapDestroy | src/shm.c:283-299 | the handle is always freed; only the owner unlinks; the call succeeds iff unmap, close and (for the owner) unlink all succeed |
| Shm.GameSyncUnmapDestroy | src/shm.c:307-339 | semaphores are destroyed iff the caller is owner and the region is mapped; the handle is always freed; only the owner unlinks; the call succeeds iff every step it takes succeeds |

`Shm.PeerAttachScenario` replays prueba.c:54-58 and 84-85 against these contracts. The master creates and stamps
the state region. A second process opens the region asking for one byte, adopts the real size and maps it.
It then closes its handle and the segment survives.

## Left out

- Reader/writer exclusion (include/reader_sync.h, include/writer_sync.h): this is cross-process concurrency. The `reader_enter`/`writer_enter` pairs around the modelled updates are treated as no-ops.
- Semaphore posts and waits: the turn gates posted after each service (src/master.c:293-294, 441), the display handshake (296-299, 430-433) and the posts in `finish` (141-144) are not modelled. Only the condition for the display handshake is stated (`EventLoop.DisplayHandshakeAlwaysDue`).
- Process supervision: `pipe`, `fork`, `execl`, `dup2`, `fcntl`, `kill`, `waitpid` and `nanosleep` in `main` are I/O. The loop's decisions on their results are modelled; `Finish` returns the pids to kill instead of sending signals.
- `select`, `read` and `clock_gettime`: these are parameters of `Orchestrator.Step`. A single clock reading `moveClock` stands for every `clock_gettime` after a valid move within one iteration. The loop keeps only the last reading, so this is the time of the round's last valid move.
- `srand`/`rand`: the generator is a sequence of draws, so `InitBoard` receives the draws.
- `print_game_args`, `die`, `exec_with_board_args` and the final report: output and process exit.
- Dead code in src/master.c: lines 316-345 never block anybody (`to_block` is never set), and lines 105-118 are commented out.
- `parse_args` except `-p`: the other options are `atoi` conversions into fields. `ValidateGameArgs` takes their values.
- The player names set from the binaries' base names after `fork` (src/master.c:281-285) are process set-up, not modelled.
- The agent's main loop in src/player.c and the display in src/view.c: semaphore waits, copies out of shared memory and terminal output.
- include/shm_adt.h and src/shared_memory_adt.c: unused leftovers that no modelled file relies on.
- Master.Player: the `unsigned int` score and counters are unbounded naturals here, so their 32-bit wrap-around is not modelled. The score (at most 9 per cell of a 100×100 board) and the valid-move count (at most one per cell) cannot reach it. The invalid-move count can: an invalid move never resets the idle timer, and the `-t` timeout is an unclamped `atoi` (src/master.c:164-165), so an agent sending invalid directions for long enough wraps `invalid_moves` back to 0.
- EventLoop.Evolves: "invalid moves never decrease" holds of the unbounded counter only. In the source it fails at the wrap described above, and so does that part of what EventLoop.ServicePreserves, EventLoop.ServiceAllPreserves, EventLoop.Orchestrator.ServeRound and EventLoop.Orchestrator.Step promise.
- Master.GameState: x and y are naturals, not `unsigned short`, and names are unbounded strings rather than 16-byte buffers.
- Common.GameStateSize: takes naturals. The C function takes `int`; its product overflows only for dimensions far beyond MAX_BOARD_SIZE, and callers pass dimensions that validation has already clamped.
- Common.STATE_HEADER_SIZE and Common.SYNC_REGION_SIZE: the structure sizes are fixed for one target ABI. Other targets have other sizes, and only the relations between the sizes matter to the proofs.
- Shm.GameStateMap and Shm.GameSyncMap: require that a live handle's name is still in the kernel table, and that an owner's recorded size matches the segment. A segment unlinked by another process while still mapped is not modelled.
- Shm.UnmapIfMapped: munmap is modelled as removing the whole mapping. The length it is passed, the recorded size, is not modelled; after the regrow described under Findings that length exceeds the mapping.
- Shm: only the table of names, segment sizes and the images the owner writes are kernel state. File descriptors are plain numbers. Mapping addresses, page contents written by other processes, and errno values other than EINVAL and ENOENT (collapsed into `SystemFailure`) are not modelled.
- Shm.GameSyncUnmapDestroy: reports whether the semaphores were destroyed but does not model their post-destroy state, which is unobservable once the segment is unlinked or the handle freed.
- Shm.RegionOpen: the `strdup`/`calloc` failure and the plain reopen and `fstat` failures are faults with no effect on the table, as in the source.

## Findings

| source | as written | input that shows it | evidently intended | confidence | as-written member | corrected member |
|---|---|---|---|---|---|---|
| src/shm.c:204-230 (the same test at 249-266) | the remap test compares the recorded size with the need, but an owner has just raised the recorded size to the need at lines 204-208, so a handle already mapped at a smaller size is not remapped; the memset at line 230 then clears the recorded size through a shorter mapping | an owner handle on which game_state_map succeeds for a 10×10 board and is then called for a 100×100 board | remap whenever the current mapping is shorter than the recorded size or the need, which the comment at line 210 announces | high, not executed; src/master.c maps each region once on a fresh handle, so the game itself does not reach it | Shm.AttachAsWritten (shown by Shm.RegrowKeepsShortMapping: success with a 772-byte mapping and a 40372-byte recorded size) | Shm.Attach (used by Shm.GameStateMap and Shm.GameSyncMap; Shm.RegrowRemaps replays the same input) |
