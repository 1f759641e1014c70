/** The shared-region manager: named kernel segments, the handle a process
    holds on one of them, the mapping and owner-side initialisation of the
    game-state and synchronisation regions, and their teardown.
    Kernel calls are abstract: whether each one fails is an input, and the
    kernel's only modelled state is its table of named segments. */
module Shm {
  import opened Common

  /** The errno a failing call leaves behind, as far as the manager decides it. */
  datatype Errno = NoError | InvalidArgument | NoSuchSegment | SystemFailure

  /** A process-shared semaphore: not initialised, or initialised with a count. */
  datatype Sem = Uninit | Sem(count: nat)

  /** Number of semaphores in the synchronisation region: the display pair,
      the three reader/writer mutexes and one turn gate per player slot. */
  const SEM_COUNT := 5 + MAX_PLAYERS

  /** The synchronisation region. */
  datatype Fabric = Fabric(viewReady: Sem, viewDone: Sem,
                           writerMutex: Sem, stateMutex: Sem, readerCountMutex: Sem,
                           readerCount: nat, playerReady: seq<Sem>)

  /** The owner's stamp on the game-state region: the dimensions, no players
      yet, not finished, every cell zero (and every other byte zero). */
  datatype StateImage = StateImage(width: nat, height: nat, numPlayers: nat, finished: bool, board: seq<int>)

  /** What a segment holds: whatever it held before it was claimed, or one
      of the two images the owner writes into it. */
  datatype Content = Unclaimed | GameStateImage(state: StateImage) | SyncImage(fabric: Fabric)

  datatype Segment = Segment(size: nat, content: Content)

  /** The kernel's table of named shared-memory objects. */
  class Kernel {
    var segments: map<string, Segment>

    constructor (initial: map<string, Segment>)
      ensures segments == initial
    {
      segments := initial;
    }
  }

  /** The handle a process holds on one region: the copied name, the file
      descriptor, the size it believes the region has, whether it is
      mapped and the length the current mapping was made with, whether
      this process created it, and whether the handle has been freed. */
  class Handle {
    const name: string
    const fd: int
    var size: nat
    var mapped: bool
    var mappedLen: nat
    const owner: bool
    var released: bool

    constructor (name: string, fd: int, size: nat, owner: bool)
      ensures this.name == name && this.fd == fd && this.size == size && this.owner == owner
      ensures !mapped && mappedLen == 0 && !released
    {
      this.name := name;
      this.fd := fd;
      this.size := size;
      this.owner := owner;
      mapped := false;
      mappedLen := 0;
      released := false;
    }
  }

  /** Which kernel calls of an open fail: the handle allocation or name
      copy, the exclusive create, the resize, the plain reopen, the stat. */
  datatype OpenFaults = OpenFaults(noMemory: bool, createFails: bool, truncateFails: bool,
                                   reopenFails: bool, statFails: bool)

  /** Which kernel calls of a map fail: the resize, the unmap, the mmap. */
  datatype MapFaults = MapFaults(truncateFails: bool, unmapFails: bool, mmapFails: bool)

  predicate NoMapFault(faults: MapFaults)
  {
    !faults.truncateFails && !faults.unmapFails && !faults.mmapFails
  }

  /** Which kernel calls of a teardown fail: any sem_destroy, the unmap, the close. */
  datatype CloseFaults = CloseFaults(semDestroyFails: bool, unmapFails: bool, closeFails: bool)

  /** shm_region_open. The exclusive create decides ownership: the creator
      sizes a fresh segment to the requested size; anyone else adopts the
      size the segment already has. A failure leaves the kernel table as it
      was (the creator unlinks the segment again when the resize fails) and
      no handle behind. */
  method RegionOpen(k: Kernel, outValid: bool, name: Option<string>, size: nat, fd: nat, faults: OpenFaults)
    returns (rc: int, err: Errno, h: Handle?)
    modifies k
    ensures rc == 0 || rc == -1
    ensures rc == 0 <==> h != null
    ensures rc == -1 ==> k.segments == old(k.segments) && err != NoError
    ensures !outValid || name.None? || size == 0 ==> rc == -1 && err == InvalidArgument
    ensures h != null ==> fresh(h) && name.Some? && h.name == name.value && h.fd == fd
    ensures h != null ==> !h.mapped && !h.released
    ensures h != null ==> (h.owner <==> name.value !in old(k.segments))
    ensures h != null && h.owner ==>
      h.size == size && k.segments == old(k.segments)[name.value := Segment(size, Unclaimed)]
    ensures h != null && !h.owner ==>
      h.size == old(k.segments)[name.value].size && k.segments == old(k.segments)
    ensures outValid && name.Some? && size > 0 && name.value !in old(k.segments) ==>
      (rc == 0 <==> !faults.noMemory && !faults.createFails && !faults.truncateFails)
    ensures outValid && name.Some? && size > 0 && name.value in old(k.segments) ==>
      (rc == 0 <==> !faults.noMemory && !faults.reopenFails && !faults.statFails)
  {
    if !outValid || name.None? || size == 0 {
      return -1, InvalidArgument, null;
    }
    if faults.noMemory {
      return -1, SystemFailure, null;
    }
    var nm := name.value;
    if nm !in k.segments {
      if faults.createFails {
        return -1, SystemFailure, null;
      }
      k.segments := k.segments[nm := Segment(0, Unclaimed)];
      if faults.truncateFails {
        k.segments := k.segments - {nm};
        return -1, SystemFailure, null;
      }
      k.segments := k.segments[nm := Segment(size, Unclaimed)];
      h := new Handle(nm, fd, size, true);
      return 0, NoError, h;
    }
    if faults.reopenFails || faults.statFails {
      return -1, SystemFailure, null;
    }
    h := new Handle(nm, fd, k.segments[nm].size, false);
    return 0, NoError, h;
  }

  /** unmap_if_mapped: a mapping of nonzero size is removed unless munmap
      fails; a mapping of size zero is left alone. */
  method UnmapIfMapped(h: Handle, unmapFails: bool) returns (rc: int)
    modifies h`mapped, h`mappedLen
    ensures rc == 0 || rc == -1
    ensures rc == -1 <==> old(h.mapped) && h.size > 0 && unmapFails
    ensures h.mapped <==> old(h.mapped) && (h.size == 0 || unmapFails)
    ensures h.mappedLen == if h.mapped == old(h.mapped) then old(h.mappedLen) else 0
  {
    if h.mapped && h.size > 0 {
      if unmapFails {
        return -1;
      }
      h.mapped := false;
      h.mappedLen := 0;
    }
    return 0;
  }

  /** shm_region_close: unmaps, closes and frees the handle. It has no
      access to the kernel table, so a close never removes a segment. */
  method RegionClose(h: Handle?, faults: CloseFaults) returns (rc: int, err: Errno)
    requires h != null ==> !h.released
    modifies h
    ensures h == null ==> rc == -1 && err == InvalidArgument
    ensures h != null ==> h.released && h.size == old(h.size)
    ensures h != null ==>
      (rc == 0 <==> !(old(h.mapped) && h.size > 0 && faults.unmapFails) && !faults.closeFails)
    ensures h != null ==> rc == 0 || rc == -1
  {
    if h == null {
      return -1, InvalidArgument;
    }
    rc := 0;
    err := NoError;
    var u := UnmapIfMapped(h, faults.unmapFails);
    if u == -1 || faults.closeFails {
      rc, err := -1, SystemFailure;
    }
    h.released := true;
  }

  /** shm_region_unlink_if_owner: only the creator removes the name; for
      anyone else it is a successful no-op. */
  method UnlinkIfOwner(k: Kernel, h: Handle?) returns (rc: int, err: Errno)
    requires h != null ==> !h.released
    modifies k
    ensures h == null ==> rc == -1 && err == InvalidArgument && k.segments == old(k.segments)
    ensures h != null && !h.owner ==> rc == 0 && k.segments == old(k.segments)
    ensures h != null && h.owner ==> k.segments == old(k.segments) - {h.name}
    ensures h != null && h.owner ==>
      (rc == 0 <==> h.name in old(k.segments)) && (rc == -1 ==> err == NoSuchSegment)
  {
    if h == null {
      return -1, InvalidArgument;
    }
    if !h.owner {
      return 0, NoError;
    }
    rc, err := Unlink(k, h.name);
  }

  /** shm_unlink: removes a name from the table, or fails with ENOENT. */
  method Unlink(k: Kernel, name: string) returns (rc: int, err: Errno)
    modifies k
    ensures k.segments == old(k.segments) - {name}
    ensures rc == 0 <==> name in old(k.segments)
    ensures rc != 0 ==> rc == -1 && err == NoSuchSegment
  {
    if name !in k.segments {
      return -1, NoSuchSegment;
    }
    k.segments := k.segments - {name};
    return 0, NoError;
  }

  /** The image the owner stamps on a freshly mapped game-state region. */
  function FreshState(width: nat, height: nat): (s: StateImage)
    ensures s.width == width && s.height == height && s.numPlayers == 0 && !s.finished
    ensures |s.board| == width * height
    ensures forall i :: 0 <= i < |s.board| ==> s.board[i] == EMPTY_CELL
  {
    StateImage(width, height, 0, false, seq(width * height, _ => EMPTY_CELL))
  }

  /** A fresh region reads as a board entirely captured by player 0 until the
      master fills it with rewards: no cell of it is free. */
  lemma FreshStateHasNoFreeCell(width: nat, height: nat, i: int)
    requires 0 <= i < width * height
    ensures !CellIsFree(FreshState(width, height).board[i])
    ensures GetCellOwner(FreshState(width, height).board[i]) == 0
  {
    PlayerZeroCollision();
  }

  /** game_state_map. The owner grows the region to the size the board
      needs and stamps the header; a process that did not create the region
      must find it large enough, or gets EINVAL without a mapping. Only the
      owner ever changes the kernel table. */
  method GameStateMap(k: Kernel, h: Handle?, outValid: bool, width: ushort, height: ushort, faults: MapFaults)
    returns (rc: int, err: Errno)
    requires h != null ==> !h.released && h.name in k.segments
    requires h != null && h.owner ==> k.segments[h.name].size == h.size
    modifies k, h
    ensures rc == 0 || rc == -1
    ensures h == null || !outValid || width == 0 || height == 0 ==>
      rc == -1 && err == InvalidArgument && k.segments == old(k.segments)
    ensures h != null && (!outValid || width == 0 || height == 0) ==>
      h.size == old(h.size) && h.mapped == old(h.mapped)
    ensures h != null ==> !h.released && h.name in k.segments
    ensures h != null && h.owner ==> k.segments[h.name].size == h.size
    ensures h != null && !h.owner ==> k.segments == old(k.segments) && h.size == old(h.size)
    ensures h != null && rc == 0 ==> h.mapped && h.mappedLen >= h.size >= GameStateSize(width, height)
    ensures h != null && h.owner && rc == 0 ==>
      h.size == (if old(h.size) < GameStateSize(width, height) then GameStateSize(width, height) else old(h.size)) &&
      k.segments == old(k.segments)[h.name := Segment(h.size, GameStateImage(FreshState(width, height)))]
    ensures h != null && h.owner && rc == -1 ==>
      k.segments.Keys == old(k.segments).Keys &&
      forall n :: n in k.segments && n != h.name ==> k.segments[n] == old(k.segments)[n]
    ensures h != null && !h.owner && outValid && width > 0 && height > 0 ==>
      (old(h.size) < GameStateSize(width, height) ==>
         rc == -1 && (!faults.unmapFails ==> err == InvalidArgument && h.mapped == (old(h.mapped) && h.size == 0)))
    ensures h != null && outValid && width > 0 && height > 0 ==>
      (old(h.mapped) && old(h.size) >= GameStateSize(width, height) && old(h.mappedLen) >= old(h.size) ==>
         rc == 0 && h.mapped)
    ensures h != null && outValid && width > 0 && height > 0 && NoMapFault(faults) ==>
      (h.owner || old(h.size) >= GameStateSize(width, height) ==> rc == 0)
  {
    if h == null || !outValid || width == 0 || height == 0 {
      return -1, InvalidArgument;
    }
    var need := GameStateSize(width, height);
    rc, err := Attach(k, h, need, faults);
    if rc == -1 {
      return;
    }
    if h.owner {
      k.segments := k.segments[h.name := Segment(h.size, GameStateImage(FreshState(width, height)))];
    }
  }

  /** The resize-and-map steps game_state_map and game_sync_map share, with
      the remap test comparing the length of the current mapping (not the
      recorded size, which the owner may just have grown) against what is
      needed: a success always leaves a mapping that covers the whole
      recorded size, so the owner's stamp stays inside it. */
  method Attach(k: Kernel, h: Handle, need: nat, faults: MapFaults) returns (rc: int, err: Errno)
    requires !h.released && h.name in k.segments
    requires h.owner ==> k.segments[h.name].size == h.size
    modifies k, h
    ensures rc == 0 || rc == -1
    ensures !h.released && h.name in k.segments
    ensures h.owner ==> k.segments[h.name].size == h.size
    ensures !h.owner ==> k.segments == old(k.segments) && h.size == old(h.size)
    ensures h.owner ==>
      h.size == (if old(h.size) < need && !faults.truncateFails then need else old(h.size)) &&
      k.segments == old(k.segments)[h.name := old(k.segments)[h.name].(size := h.size)]
    ensures rc == 0 ==> h.mapped && h.mappedLen >= h.size >= need
    ensures rc == -1 ==> err != NoError
    ensures !h.owner && old(h.size) < need ==>
      rc == -1 && (!faults.unmapFails ==> err == InvalidArgument && h.mapped == (old(h.mapped) && h.size == 0))
    ensures old(h.mapped) && old(h.size) >= need && old(h.mappedLen) >= old(h.size) ==>
      rc == 0 && h.mapped && h.mappedLen == old(h.mappedLen)
    ensures NoMapFault(faults) && (h.owner || old(h.size) >= need) ==> rc == 0
  {
    if h.owner && h.size < need {
      if faults.truncateFails {
        return -1, SystemFailure;
      }
      k.segments := k.segments[h.name := k.segments[h.name].(size := need)];
      h.size := need;
    }
    if !h.mapped || h.size < need || h.mappedLen < h.size {
      var u := UnmapIfMapped(h, faults.unmapFails);
      if u == -1 {
        return -1, SystemFailure;
      }
      if !h.owner && h.size < need {
        return -1, InvalidArgument;
      }
      if faults.mmapFails {
        return -1, SystemFailure;
      }
      h.mapped, h.mappedLen := true, h.size;
    }
    return 0, NoError;
  }

  /** The same steps with the remap test as src/shm.c writes it: the
      recorded size against what is needed. An owner whose handle is
      already mapped and has to grow the region skips the remap, since
      its recorded size now equals the need, and keeps the old, shorter
      mapping. */
  method AttachAsWritten(k: Kernel, h: Handle, need: nat, faults: MapFaults) returns (rc: int, err: Errno)
    requires !h.released && h.name in k.segments
    requires h.owner ==> k.segments[h.name].size == h.size
    modifies k, h
    ensures rc == 0 || rc == -1
    ensures !h.released && h.name in k.segments
    ensures h.owner ==> k.segments[h.name].size == h.size
    ensures h.owner ==>
      h.size == (if old(h.size) < need && !faults.truncateFails then need else old(h.size)) &&
      k.segments == old(k.segments)[h.name := old(k.segments)[h.name].(size := h.size)]
    ensures !h.owner ==> k.segments == old(k.segments) && h.size == old(h.size)
    ensures rc == 0 ==> h.mapped && h.size >= need
    ensures rc == 0 && old(h.mapped) ==> h.mappedLen == old(h.mappedLen)
    ensures rc == 0 && !old(h.mapped) ==> h.mappedLen == h.size
    ensures NoMapFault(faults) && (h.owner || old(h.size) >= need) ==> rc == 0
  {
    if h.owner && h.size < need {
      if faults.truncateFails {
        return -1, SystemFailure;
      }
      k.segments := k.segments[h.name := k.segments[h.name].(size := need)];
      h.size := need;
    }
    if !h.mapped || h.size < need {
      var u := UnmapIfMapped(h, faults.unmapFails);
      if u == -1 {
        return -1, SystemFailure;
      }
      if !h.owner && h.size < need {
        return -1, InvalidArgument;
      }
      if faults.mmapFails {
        return -1, SystemFailure;
      }
      h.mapped, h.mappedLen := true, h.size;
    }
    return 0, NoError;
  }

  /** The owner maps a 10 x 10 game-state region and then asks for a
      100 x 100 one on the same handle: the remap test as written succeeds
      with the region grown to the new size but the mapping still one made
      for the old size, so the owner's memset of the recorded size runs
      past the end of the mapping. */
  method RegrowKeepsShortMapping() returns (rc: int, mappedLen: nat, size: nat)
    ensures rc == 0
    ensures mappedLen == GameStateSize(10, 10) < GameStateSize(100, 100) == size
  {
    var k := new Kernel(map[]);
    var clean := MapFaults(false, false, false);
    var rc0, err0, h := RegionOpen(k, true, Some("/game_state"), GameStateSize(10, 10), 3,
                                   OpenFaults(false, false, false, false, false));
    var err;
    rc, err := AttachAsWritten(k, h, GameStateSize(10, 10), clean);
    rc, err := AttachAsWritten(k, h, GameStateSize(100, 100), clean);
    mappedLen, size := h.mappedLen, h.size;
  }

  /** The same two requests with the corrected remap test leave a mapping
      as long as the grown region. */
  method RegrowRemaps() returns (rc: int, mappedLen: nat, size: nat)
    ensures rc == 0
    ensures mappedLen >= size == GameStateSize(100, 100)
  {
    var k := new Kernel(map[]);
    var clean := MapFaults(false, false, false);
    var rc0, err0, h := RegionOpen(k, true, Some("/game_state"), GameStateSize(10, 10), 3,
                                   OpenFaults(false, false, false, false, false));
    var err;
    rc, err := Attach(k, h, GameStateSize(10, 10), clean);
    rc, err := Attach(k, h, GameStateSize(100, 100), clean);
    mappedLen, size := h.mappedLen, h.size;
  }

  /** The value sem_init gives semaphore slot i: the three mutexes start
      open, the display pair and every turn gate start closed. */
  function InitialCount(slot: nat): nat
  {
    if 2 <= slot <= 4 then 1 else 0
  }

  /** Semaphore slot i of the region, in initialisation order: view_ready,
      view_done, writer_mutex, state_mutex, reader_count_mutex, then the
      player_ready gates. */
  function SemAt(f: Fabric, slot: nat): Sem
    requires slot < SEM_COUNT && |f.playerReady| == MAX_PLAYERS
  {
    match slot
    case 0 => f.viewReady
    case 1 => f.viewDone
    case 2 => f.writerMutex
    case 3 => f.stateMutex
    case 4 => f.readerCountMutex
    case _ => f.playerReady[slot - 5]
  }

  /** How many sem_init calls succeed before the first failure. */
  function LeadingOk(ok: seq<bool>): (n: nat)
    ensures n <= |ok|
    ensures forall j :: 0 <= j < n ==> ok[j]
    ensures n < |ok| ==> !ok[n]
  {
    if ok == [] || !ok[0] then 0 else 1 + LeadingOk(ok[1..])
  }

  /** init_game_sync_semaphores: initialises the semaphores in order and
      stops at the first failure, leaving the later ones as they were. The
      reader count is reset once the five shared semaphores are in place. */
  method InitSyncSemaphores(prev: Fabric, semOk: seq<bool>) returns (rc: int, f: Fabric)
    requires |semOk| == SEM_COUNT && |prev.playerReady| == MAX_PLAYERS
    ensures |f.playerReady| == MAX_PLAYERS
    ensures rc == 0 || rc == -1
    ensures rc == 0 <==> forall j :: 0 <= j < SEM_COUNT ==> semOk[j]
    ensures forall s :: 0 <= s < SEM_COUNT ==>
      SemAt(f, s) == if s < LeadingOk(semOk) then Sem(InitialCount(s)) else SemAt(prev, s)
    ensures f.readerCount == if LeadingOk(semOk) >= 5 then 0 else prev.readerCount
  {
    var n := LeadingOk(semOk);
    f := prev;
    if !semOk[0] {
      return -1, f;
    }
    f := f.(viewReady := Sem(0));
    if !semOk[1] {
      return -1, f;
    }
    f := f.(viewDone := Sem(0));
    if !semOk[2] {
      return -1, f;
    }
    f := f.(writerMutex := Sem(1));
    if !semOk[3] {
      return -1, f;
    }
    f := f.(stateMutex := Sem(1));
    if !semOk[4] {
      return -1, f;
    }
    f := f.(readerCountMutex := Sem(1));
    f := f.(readerCount := 0);
    for i := 0 to MAX_PLAYERS
      invariant |f.playerReady| == MAX_PLAYERS
      invariant forall j :: 0 <= j < 5 + i ==> semOk[j]
      invariant f.viewReady == Sem(0) && f.viewDone == Sem(0)
      invariant f.writerMutex == Sem(1) && f.stateMutex == Sem(1) && f.readerCountMutex == Sem(1)
      invariant f.readerCount == 0
      invariant forall j :: 0 <= j < i ==> f.playerReady[j] == Sem(0)
      invariant forall j :: i <= j < MAX_PLAYERS ==> f.playerReady[j] == prev.playerReady[j]
    {
      if !semOk[5 + i] {
        return -1, f;
      }
      f := f.(playerReady := f.playerReady[i := Sem(0)]);
    }
    return 0, f;
  }

  /** The synchronisation region as every semaphore initialisation leaves it. */
  function ReadyFabric(): (f: Fabric)
    ensures |f.playerReady| == MAX_PLAYERS
  {
    Fabric(Sem(0), Sem(0), Sem(1), Sem(1), Sem(1), 0, seq(MAX_PLAYERS, _ => Sem(0)))
  }

  /** A fully initialised region has its three mutexes open, the display
      handshake and every player's turn gate closed, and no readers. */
  lemma ReadyFabricGates(s: nat)
    requires s < SEM_COUNT
    ensures SemAt(ReadyFabric(), s) == Sem(InitialCount(s))
    ensures SemAt(ReadyFabric(), s).count == 1 <==> s in {2, 3, 4}
    ensures ReadyFabric().readerCount == 0
  {
  }

  /** The fabric a segment's bytes hold before initialisation. */
  function FabricOf(c: Content): (f: Fabric)
    ensures |f.playerReady| == MAX_PLAYERS
  {
    if c.SyncImage? && |c.fabric.playerReady| == MAX_PLAYERS then c.fabric
    else Fabric(Uninit, Uninit, Uninit, Uninit, Uninit, 0, seq(MAX_PLAYERS, _ => Uninit))
  }

  /** game_sync_map: the same resize-and-map pattern at the fixed size of the
      synchronisation region; only the owner initialises the semaphores, and
      a failing sem_init fails the call with the region left mapped. */
  method GameSyncMap(k: Kernel, h: Handle?, outValid: bool, faults: MapFaults, semOk: seq<bool>)
    returns (rc: int, err: Errno)
    requires |semOk| == SEM_COUNT
    requires h != null ==> !h.released && h.name in k.segments
    requires h != null && h.owner ==> k.segments[h.name].size == h.size
    modifies k, h
    ensures rc == 0 || rc == -1
    ensures h == null || !outValid ==>
      rc == -1 && err == InvalidArgument && k.segments == old(k.segments)
    ensures h != null ==> !h.released && h.name in k.segments
    ensures h != null && !h.owner ==> k.segments == old(k.segments) && h.size == old(h.size)
    ensures h != null && !h.owner && outValid && old(h.size) < SYNC_REGION_SIZE ==>
      rc == -1 && (!faults.unmapFails ==> err == InvalidArgument && h.mapped == (old(h.mapped) && h.size == 0))
    ensures h != null && outValid && NoMapFault(faults) && (forall j :: 0 <= j < SEM_COUNT ==> semOk[j]) ==>
      (h.owner || old(h.size) >= SYNC_REGION_SIZE ==> rc == 0)
    ensures h != null && outValid && !h.owner && old(h.mapped) ==>
      (old(h.size) >= SYNC_REGION_SIZE && old(h.mappedLen) >= old(h.size) ==> rc == 0 && h.mapped)
    ensures h != null && h.owner && rc == 0 ==>
      h.mapped && h.mappedLen >= h.size >= SYNC_REGION_SIZE &&
      k.segments == old(k.segments)[h.name := Segment(h.size, SyncImage(ReadyFabric()))]
    ensures h != null && h.owner && rc == 0 ==> forall j :: 0 <= j < SEM_COUNT ==> semOk[j]
    ensures h != null && !h.owner && rc == 0 ==> h.mapped && h.mappedLen >= h.size >= SYNC_REGION_SIZE
  {
    if h == null || !outValid {
      return -1, InvalidArgument;
    }
    rc, err := Attach(k, h, SYNC_REGION_SIZE, faults);
    if rc == -1 || !h.owner {
      return;
    }
    var seg := k.segments[h.name];
    var f;
    rc, f := InitSyncSemaphores(FabricOf(seg.content), semOk);
    k.segments := k.segments[h.name := Segment(seg.size, SyncImage(f))];
    if rc == -1 {
      return -1, SystemFailure;
    }
    assert f.playerReady == ReadyFabric().playerReady by {
      forall j | 0 <= j < MAX_PLAYERS
        ensures f.playerReady[j] == Sem(0)
      {
        assert SemAt(f, 5 + j) == f.playerReady[j];
      }
    }
    assert SemAt(f, 0) == f.viewReady && SemAt(f, 1) == f.viewDone;
    assert SemAt(f, 2) == f.writerMutex && SemAt(f, 3) == f.stateMutex && SemAt(f, 4) == f.readerCountMutex;
  }

  /** game_state_unmap_destroy: unmap, close, and unlink when this process
      created the region; the handle is freed whatever failed. */
  method GameStateUnmapDestroy(k: Kernel, h: Handle?, faults: CloseFaults) returns (rc: int, err: Errno)
    requires h != null ==> !h.released
    modifies k, h
    ensures h == null ==> rc == -1 && err == InvalidArgument && k.segments == old(k.segments)
    ensures h != null ==> h.released
    ensures h != null && !h.owner ==> k.segments == old(k.segments)
    ensures h != null && h.owner ==> k.segments == old(k.segments) - {h.name}
    ensures h != null ==>
      (rc == 0 <==> !(old(h.mapped) && h.size > 0 && faults.unmapFails) && !faults.closeFails &&
                    (h.owner ==> h.name in old(k.segments)))
    ensures rc == 0 || rc == -1
  {
    if h == null {
      return -1, InvalidArgument;
    }
    rc, err := 0, NoError;
    var u := UnmapIfMapped(h, faults.unmapFails);
    if u == -1 || faults.closeFails {
      rc, err := -1, SystemFailure;
    }
    if h.owner {
      var r, e := Unlink(k, h.name);
      if r == -1 {
        rc, err := -1, e;
      }
    }
    h.released := true;
  }

  /** game_sync_unmap_destroy: the owner destroys the semaphores while the
      region is still mapped, then unmap, close and (owner only) unlink. */
  method GameSyncUnmapDestroy(k: Kernel, h: Handle?, faults: CloseFaults)
    returns (rc: int, err: Errno, semsDestroyed: bool)
    requires h != null ==> !h.released
    modifies k, h
    ensures h == null ==> rc == -1 && err == InvalidArgument && k.segments == old(k.segments)
    ensures semsDestroyed <==> h != null && h.owner && old(h.mapped)
    ensures h != null ==> h.released
    ensures h != null && !h.owner ==> k.segments == old(k.segments)
    ensures h != null && h.owner ==> k.segments == old(k.segments) - {h.name}
    ensures h != null ==>
      (rc == 0 <==> !(semsDestroyed && faults.semDestroyFails) &&
                    !(old(h.mapped) && h.size > 0 && faults.unmapFails) && !faults.closeFails &&
                    (h.owner ==> h.name in old(k.segments)))
    ensures rc == 0 || rc == -1
  {
    if h == null {
      return -1, InvalidArgument, false;
    }
    rc, err := 0, NoError;
    semsDestroyed := h.owner && h.mapped;
    if semsDestroyed && faults.semDestroyFails {
      rc, err := -1, SystemFailure;
    }
    var u := UnmapIfMapped(h, faults.unmapFails);
    if u == -1 || faults.closeFails {
      rc, err := -1, SystemFailure;
    }
    if h.owner {
      var r, e := Unlink(k, h.name);
      if r == -1 {
        rc, err := -1, e;
      }
    }
    h.released := true;
  }

  /** The master creates and stamps the game-state region; a second process
      then opens it with a placeholder size of one byte, adopts the real
      size, maps it, and closes without removing it. */
  method PeerAttachScenario(faultsOpen: OpenFaults, faultsMap: MapFaults)
    requires !faultsOpen.noMemory && !faultsOpen.createFails && !faultsOpen.truncateFails
    requires !faultsOpen.reopenFails && !faultsOpen.statFails
    requires NoMapFault(faultsMap)
  {
    var k := new Kernel(map[]);
    var need := GameStateSize(10, 10);
    var rc, err, master := RegionOpen(k, true, Some("/game_state"), need, 3, faultsOpen);
    assert master != null && master.owner;
    rc, err := GameStateMap(k, master, true, 10, 10, faultsMap);
    assert rc == 0 && k.segments["/game_state"].content == GameStateImage(FreshState(10, 10));

    var peer;
    rc, err, peer := RegionOpen(k, true, Some("/game_state"), 1, 4, faultsOpen);
    assert peer != null && !peer.owner && peer.size == need;
    rc, err := GameStateMap(k, peer, true, 10, 10, faultsMap);
    assert rc == 0 && peer.mapped;
    rc, err := RegionClose(peer, CloseFaults(false, false, false));
    assert "/game_state" in k.segments;
  }
}
