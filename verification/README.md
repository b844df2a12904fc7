# Verification of the AF_XDP ring protocol

This project models the packet path of `xdp-socket`: the transmit socket with its TX and Completion rings, the receive
socket with its RX and Fill rings, and the UMEM frames that circulate through them, together with the header sink of
`xdp-util` that feeds `send`. The library relies on facts that it never checks: every frame has exactly one owner, no
slot is rewritten while the other side still needs it, 32-bit distances are exact although the indices wrap, and the
bytes of a packet stay put from `commit` to completion. They are proved here for every run, with the kernel as a second
agent that may move between any two shared accesses.

## How it is built

* `Words`, `Slices`, `Umem`: wrapping index arithmetic with `& mod_mask` written out bit by bit, rings as circular
  windows, frames and their bytes.
* `TxMachine`, `RxMachine`: each half as a state machine. One label is one shared load or store of the program (or of the
  kernel) with the private updates next to it; a label that is not enabled changes nothing, so every sequence of labels
  is a run. Each machine runs in two modes: `U32`, the wrapping indices of the program, and `Wide`, unbounded counters.
* `TxInvariant`, `TxWrap`, `TxTheorems`, `TxReclaim` and `RxInvariant`, `RxWrap`, `RxTheorems`, `RxCommit`, `RxStart`: the
  invariants, the refinement of counters by words, and the promises that follow.
* `BothSockets`: both machines over one memory. To each machine the other socket is the `External` label, which may
  change any byte outside its own frames; the steps of each are shown to be no more than that to the other.
* `Rings`, `TxSocket`, `RxSocket`, `Create`, `Header`: the program in its own form, with mutable fields, rings and memory
  in place. `Interfere` lets the kernel take any number of steps and is called at every shared access. The class
  invariant `Valid` says that the object is in the state which the machine reaches on the recorded trace of steps, so
  that the theorems about runs are theorems about the objects, and a method cannot make an access that the machine does
  not have. `Twin` is the same state in unbounded counters.

The kernel follows the Linux kernel documentation "AF_XDP", section "Rings": on TX it takes published entries and
completes the ones it holds in any order; on RX it takes Fill entries, whose addresses it masks down to the frame, writes
into frames it holds and delivers them, each packet within its frame. Loads and stores are sequentially consistent.

Two conditions on transmit runs are used below. A run is *sparing* when every store that reclaim makes is made with
nothing available. A call is *gentle* when it asks for at most one descriptor (`seek`, `seek_and_peek`) or for no more than
are available; kernel steps and all other calls are gentle too. Runs of gentle calls are sparing.

## Where the code does not do what it is meant to do

The code is modelled as written, in each case.

* Transmit `seek_` stores a reclaimed descriptor in the slot of `producer`, whatever is available
  (`xdp-socket/src/seek.rs:65-66`), so a batch overwrites one slot. The documentation offers batches (`README.md:34`).
  `TxReclaim` shows a run where `seek_n(2)` puts two available descriptors on one frame, proves that with an in-order
  kernel exactly the sparing runs keep the pool, and exactly which calls do, wherever the kernel runs in them, and proves
  that the store behind the available descriptors would be safe for all counts.
* `Socket::new` gives a receive socket the private fields of a transmit socket (`xdp-socket/src/socket.rs:120-122`),
  although `create_socket` has published the Fill producer (`xdp-socket/src/create.rs:118`). The receive theorems start
  from the one good choice of these fields; `RxStart` proves that every other choice breaks what a user is promised in some
  run, and what becomes of the published Fill producer from the state as built.
* Transmit `peek_` accepts a length of exactly one frame (`xdp-socket/src/peek.rs:59`), which `mut_bytes_at` then refuses
  by an assertion (`xdp-socket/src/ring.rs:229`), after the descriptor's length was changed.
* Receive `peek_` passes the length of a delivered packet on (`xdp-socket/src/peek.rs:143-144`); `mut_bytes_at` refuses a
  packet that fills a frame (`xdp-socket/src/ring.rs:229`) or ends where the UMEM ends (`xdp-socket/src/ring.rs:234`). Both
  kinds can be delivered.
* The Fill ring is sized after the transmit ring (`xdp-socket/src/create.rs:85`), but mapped and filled after the receive
  ring (`xdp-socket/src/create.rs:116-118`). For a receive-only socket the kernel is asked for a Fill ring of one entry while
  4096 are mapped; the receive machine, whose Fill ring has one length on both sides, does not describe that direction.
* `seek` and `seek_n` are documented to return the number of available descriptors; they return `count` when nothing
  needs to be sought (`xdp-socket/src/seek.rs:51-53`, `xdp-socket/src/seek.rs:90-92`).
* `count as u32` truncates (`xdp-socket/src/commit.rs:55`, `xdp-socket/src/commit.rs:87`, `xdp-socket/src/seek.rs:98`);
  this is modelled as `Wrap(count)`, and no count is excluded.

## Model

| member | source | states |
|---|---|---|
| TxTheorems.TxMain | xdp-socket/src/seek.rs:50-74 | Transmit correctness on 32-bit indices: after any sparing run from the state that `new` builds, whatever counts the calls use, with the kernel interleaved anywhere and completing in any order, the frames committed, available, in the hand of `seek_`, in flight and completed are a permutation of the pool; the packets the kernel read are a prefix of the packets committed; a packet in flight still has its committed bytes |
| TxTheorems.TxGentle | xdp-socket/src/socket.rs:144-146 | The same for every run of gentle calls |
| TxInvariant.TxSafety | xdp-socket/src/commit.rs:53-62 | Conservation, addresses within the pool and packet fidelity are kept by every sparing run from any safe state, by induction over the run |
| TxInvariant.GentleSpares | xdp-socket/src/seek.rs:51-53 | A run of calls that ask for at most one descriptor, or for no more than are available when they start, stores only when nothing is available, wherever the kernel runs |
| TxInvariant.TxCounting | xdp-socket/src/seek.rs:50-74 | In every run, for every seek and commit count: producer minus consumer is `n` minus available up to the frame in hand, `0 <= available <= n`, unread completions do not exceed the frames away, and the published indices are the cached ones between calls |
| TxInvariant.StepCounts | xdp-socket/src/seek.rs:55-70 | Each single shared access of either side keeps the order of all nine indices and that balance |
| TxInvariant.StepConserved | xdp-socket/src/seek.rs:60-67 | No access creates, loses or duplicates a frame, unless it is a store of reclaim over an available descriptor; all frames together are the same multiset before and after |
| TxInvariant.StepFaithful | xdp-socket/src/ring.rs:225-241 | No access of anybody changes the bytes of a committed or in-flight packet, and what the kernel reads on taking a descriptor is the next committed packet |
| TxInvariant.AvailableIsPrivate | xdp-socket/src/peek.rs:53-65 | The frame of an available descriptor is named by no other descriptor in use, no packet in flight and no completion |
| TxInvariant.InitSafe | xdp-socket/src/socket.rs:114-131 | The state that `create_socket` and `new` build meets all transmit invariants, and entry `i` of its TX ring is the empty descriptor of the `i`-th frame of the pool |
| TxWrap.StepSimulates | xdp-socket/src/ring.rs:128 | One access on wrapping indices with `& mod_mask` is the same access on unbounded counters modulo a power-of-two ring length |
| TxWrap.RunSimulates | xdp-socket/src/seek.rs:56-68 | A whole transmit run on words is the run on counters, across any number of wraps, for all counts |
| TxWrap.TxDistances | xdp-socket/src/seek.rs:56-68 | Every wrapped distance of transmit indices is the true one, and the comparisons of the code on words decide equality of the counts |
| TxTheorems.SliceSafety | xdp-socket/src/ring.rs:225-241 | Slices from `peek_at` shorter than a frame pass all assertions of `mut_bytes_at`, lie inside the UMEM, and overlap neither each other nor a committed, in-flight or completed frame |
| TxTheorems.TxRaceFree | xdp-socket/src/seek.rs:55-70 | Whenever the socket and the kernel can both move, neither writes a TX slot, Completion slot or frame that the other reads or writes |
| TxTheorems.TxCommutes | xdp-socket/src/seek.rs:55-70 | The same on the states: any two accesses that the socket and the kernel could make next lead to the same state in either order and neither takes the other away, except the load and the store of the Completion producer |
| TxTheorems.FullExactly | xdp-socket/src/seek.rs:51-58 | `seek()` finds the ring full exactly when all `n` entries are committed, in the kernel's hands, or completed and not yet published |
| TxTheorems.CapacityReturns | xdp-socket/src/seek.rs:51-58 | No capacity is lost: from every reachable state the kernel can finish and publish, and then available plus waiting completions is `n` |
| TxTheorems.BatchCommit | xdp-socket/src/commit.rs:53-62 | `commit_n(a + b)` ends in the state of `commit_n(a)` followed by `commit_n(b)` |
| TxTheorems.BatchCommitOverlapped | xdp-socket/src/commit.rs:53-62 | A kernel that runs between the two smaller commits makes only steps that are enabled, in the same order, after the larger one, and everything ends in the same state |
| TxReclaim.SeekCall | xdp-socket/src/seek.rs:50-74 | A call of `seek_(count)` that is not overtaken ends after `min(count - available, pending)` turns; it writes one TX slot, which ends with the last reclaimed address, and makes `min(count, available + pending)` available; it does nothing exactly when enough is available or nothing is pending |
| TxReclaim.SeekOvertaken | xdp-socket/src/seek.rs:55-71 | Wherever the kernel runs in a call, and in whatever order it completes: when the call is over, everything that the socket writes is as if it had not been overtaken after its load; the stored slot ends with the last reclaimed address |
| TxReclaim.ReclaimConserves | xdp-socket/src/seek.rs:59-71 | Reclaiming `k` completions with no kernel step between keeps every frame once if and only if the old descriptors it exposes name the frames it forgets, for any order of completion |
| TxReclaim.SeekConserves | xdp-socket/src/seek.rs:50-74 | The same for a call of `seek_(count)` wherever the kernel runs in it and in whatever order it completes, with both lists as they are at the load |
| TxReclaim.SeekConservesExactly | xdp-socket/src/seek.rs:59-71 | With a kernel that completed in order, after any sparing run, a `seek_(count)` that reclaims keeps the pool if and only if at its load nothing is available and `min(count, pending)` is 1, wherever the kernel runs in the call |
| TxReclaim.StoreConservesExactly | xdp-socket/src/seek.rs:65-67 | With a kernel that completed in order, one store of reclaim keeps an intact pool if and only if nothing is available |
| TxReclaim.PoolExactly | xdp-socket/src/seek.rs:59-71 | In every run of calls with any counts and any interleaving of a kernel that completes in order: the pool is intact after every step if and only if the run is sparing |
| TxReclaim.BatchDuplicates | xdp-socket/src/seek.rs:65-66 | After an in-order batch the first and the last available descriptor name one frame |
| TxReclaim.SeekTwoDuplicates | xdp-socket/src/socket.rs:163-165 | For every pool of two or more frames there is a run with an in-order kernel after which `seek_n(2)` leaves two available descriptors on one frame |
| TxReclaim.RepairedIsSafe | xdp-socket/src/seek.rs:65-66 | Not the code but its repair: with the store at `(producer + available) & mod_mask` every run keeps every frame once and every packet intact, for all counts |
| RxTheorems.RxMain | xdp-socket/src/peek.rs:137-145 | Receive correctness on 32-bit indices from the well-formed start: every frame has one owner, the committed packets are a prefix of those delivered, and `peek_at(i)` is `InvalidIndex` beyond the available ones, fails an assertion if the packet fills a frame or ends where the UMEM ends, and otherwise returns the `i`-th delivered packet after those committed |
| RxInvariant.RxSafety | xdp-socket/src/commit.rs:85-102 | Fill entries, frames in the kernel's hands and unread packets partition the pool in every run, and every delivered packet keeps its bytes until its frame is given back |
| RxInvariant.StepCounts | xdp-socket/src/commit.rs:85-102 | Each access keeps the order of all receive indices; the private Fill producer stays one ring ahead of the RX consumer |
| RxInvariant.StepConserved | xdp-socket/src/commit.rs:92-97 | The loop of `commit_` and every kernel step move frames and neither create nor lose one |
| RxInvariant.StepFaithful | xdp-socket/src/ring.rs:225-241 | No access changes the bytes or the descriptor of a packet that is delivered and not given back |
| RxInvariant.DeliveredIsPrivate | xdp-socket/src/peek.rs:137-145 | A packet that can be peeked lies in a frame that neither the kernel nor another packet has |
| RxInvariant.StartSafe | xdp-socket/src/create.rs:115-120 | The rings that `create_socket` fills and publishes, with available 0 and producer `n`, meet all receive invariants |
| RxWrap.RunSimulates | xdp-socket/src/commit.rs:92-97 | A whole receive run on words is the run on counters, across any number of wraps |
| RxWrap.RxDistances | xdp-socket/src/seek.rs:94-97 | The wrapped distance that `seek_` stores in `available`, and all other receive distances, are the true ones |
| RxTheorems.PeekPanicsExactly | xdp-socket/src/ring.rs:225-241 | Peeking at an available packet fails an assertion if and only if the packet fills a frame or ends where the UMEM ends |
| RxTheorems.AnyDeliveryHappens | xdp-socket/src/peek.rs:137-145 | For every packet and every place for it within a frame of a pool there is a run that delivers it as the first one; peeking then returns it, or fails exactly for the two kinds, so both do occur |
| RxTheorems.RxSliceSafety | xdp-socket/src/peek.rs:137-145 | A peeked packet overlaps no other waiting packet and no frame that the kernel may write |
| RxTheorems.RxRaceFree | xdp-socket/src/commit.rs:92-100 | No Fill entry is overwritten before the kernel took it, no RX entry before it was given back, and no frame is written while its packet can be peeked, at every point of `commit_` |
| RxTheorems.RxCommutes | xdp-socket/src/commit.rs:92-100 | The same on the states, except for the load and the store of the RX producer |
| RxTheorems.PeekStable | xdp-socket/src/peek.rs:137-145 | Nothing that the kernel or another owner of frames does changes the outcome of peeking at an available packet |
| RxTheorems.KernelHasRoom | xdp-socket/src/commit.rs:100 | A kernel with a frame to deliver always finds an RX slot that is not unread, on the indices that it can see |
| RxCommit.CommitCall | xdp-socket/src/commit.rs:85-102 | A call that is not overtaken makes `count as u32` turns and publishes both indices |
| RxCommit.CommitRefills | xdp-socket/src/commit.rs:92-101 | It puts the addresses of the oldest packets, in order, behind the Fill entries there are, and changes no entry within a ring's length of them |
| RxCommit.BatchCommit | xdp-socket/src/commit.rs:85-102 | `commit_n(a + b)` ends in the state of `commit_n(a)` followed by `commit_n(b)`, on words as on counters |
| RxCommit.BatchCommitOverlapped | xdp-socket/src/commit.rs:85-102 | A kernel that runs between the two smaller commits makes only steps that are enabled, in the same order, after the larger one, and everything ends in the same state |
| RxStart.GoodStartsExactly | xdp-socket/src/socket.rs:118-123 | For every choice of available and producer over the rings as created, on words as on counters: in every run all available packets were delivered and the published Fill producer is a ring ahead of the packets given back, if and only if available is 0 and producer is `n`; `new` chooses `n` and 0 |
| RxStart.GapStays | xdp-socket/src/commit.rs:92-97 | From the state as built, the private Fill producer equals the RX consumer in every run |
| RxStart.CommitFallsShort | xdp-socket/src/commit.rs:100-101 | So whenever a `commit_` publishes the Fill producer, wherever the kernel ran in it, the producer equals the RX consumer, a whole ring short |
| RxStart.FirstCommitGoesBack | xdp-socket/src/commit.rs:85-102 | Whatever came before, and wherever the kernel runs in the call, the first `commit_` of any count moves the published Fill producer back if and only if it is accepted and `count as u32` is less than `n`; it moves it to `count as u32` |
| RxStart.CommitAtStart | xdp-socket/src/socket.rs:118-123 | A commit right at the start succeeds although nothing was received, and gives the kernel what the RX ring held before |
| RxStart.FillNeverGoesBack | xdp-socket/src/commit.rs:101 | From a well-formed start the published Fill producer never goes back |
| BothSockets.TxStaysInside | xdp-socket/src/create.rs:105 | No step of the transmit side changes a byte outside the transmit pool |
| BothSockets.RxStaysInside | xdp-socket/src/create.rs:117 | No step of the receive side changes a byte outside the receive pool |
| BothSockets.BothSafety | xdp-socket/src/create.rs:70-74 | In every interleaving of transmit calls, receive calls and kernel steps over one UMEM that is sparing on the transmit side, each socket keeps all its invariants |
| BothSockets.GentleIsInside | xdp-socket/src/create.rs:70-74 | Interleavings of gentle transmit calls, receive calls and kernel steps are of that kind |
| BothSockets.NoFrameCrosses | xdp-socket/src/create.rs:70-74 | No frame owned on the transmit side overlaps one owned on the receive side |
| BothSockets.SlicesNeverOverlap | xdp-socket/src/peek.rs:53-65 | A slice peeked for sending never overlaps a packet peeked for reading |
| BothSockets.RunIsHalves | xdp-socket/src/create.rs:160-172 | Every run of the pair is, step by step, a run of the transmit machine and a run of the receive machine: own moves are made as they are, and a move of the other socket is no more than an external write of the memory it leaves |
| BothSockets.HalvesOnWords | xdp-socket/src/create.rs:160-172 | The same on 32-bit indices, with the same traces of the halves |
| BothSockets.BothOnWords | xdp-socket/src/ring.rs:128 | The pair on 32-bit indices does what it does on unbounded counters |
| Words.MaskIsMod | xdp-socket/src/ring.rs:128 | Masking with `len - 1`, bit by bit, is the remainder modulo a power of two |
| Words.SlotOfWord | xdp-socket/src/seek.rs:60 | Masking the wrapped word selects the slot of the unbounded count |
| Words.SlotOfSum | xdp-socket/src/peek.rs:62 | The same for `producer.wrapping_add(index) & mod_mask` |
| Words.DistanceExact | xdp-socket/src/seek.rs:97 | A wrapped difference is exact while the true one fits a word |
| Rings.FillAddresses | xdp-socket/src/ring.rs:190-195 | Entry `i` of the Fill ring becomes the address of frame `start_frame + i`, entry by entry |
| Rings.FillDescriptors | xdp-socket/src/ring.rs:206-215 | Entry `i` of the TX ring becomes an empty descriptor of frame `start_frame + i`, entry by entry |
| Rings.MutBytesAt | xdp-socket/src/ring.rs:225-241 | Fails exactly on a length of a frame or more or an end at or past the end of the UMEM, changing nothing; otherwise returns the frame address and changes one descriptor's length |
| TxSocket.TxSocket.constructor | xdp-socket/src/socket.rs:114-131 | `new` over filled rings starts the machine in its initial state |
| TxSocket.TxSocket.Interfere | xdp-socket/src/ring.rs:132-150 | Between two accesses the kernel, and the owners of other frames, may do anything that they can do; the socket's side and the bytes of the pool stay |
| TxSocket.TxSocket.OthersMoved | xdp-socket/src/create.rs:160-172 | An object stays valid when something else has written only bytes outside its pool |
| TxSocket.TxSocket.Seek_ | xdp-socket/src/seek.rs:50-74 | With `pending` the published completions at the load: `Ok(count)` if enough is available, else `RingFull` if and only if `pending` is 0, else `Ok(min(count, available + pending))`; available grows by the reclaimed, the consumer by as many and is published, one TX slot is stored and ends with the last address reclaimed, and nothing else of the socket's side and no byte of its pool changes, although the kernel runs at every access; exactly when it stores over an available descriptor |
| TxSocket.TxSocket.ReclaimLoop | xdp-socket/src/seek.rs:59-71 | The loop ends, with the distance to the loaded producer as measure, after exactly the completions that are missing or pending |
| TxSocket.TxSocket.Peek_ | xdp-socket/src/peek.rs:53-65 | Both errors in their order, the failing assertion at exactly one frame, and otherwise the address of the `index`-th available descriptor; only that descriptor's length changes |
| TxSocket.TxSocket.SeekAndPeek | xdp-socket/src/peek.rs:115-118 | `RingFull` if and only if nothing is available and nothing pending; otherwise the errors of `peek_`, or the frame of the first available descriptor. What `seek_` changes is changed, the length of that descriptor is set when the slice is cut, and nothing else of the socket's side and no byte of its pool |
| TxSocket.TxSocket.Commit_ | xdp-socket/src/commit.rs:53-62 | `NotAvailable` with nothing changed if and only if fewer than `count as u32` are available; otherwise available counts down, the producer advances and is published, and the packets recorded are the bytes of the first available descriptors, in order |
| TxSocket.TxSocket.CopyPacket | xdp-socket/src/send.rs:93-96 | The two copies leave header followed by data in the frame and every other byte of the pool as it was |
| TxSocket.TxSocket.Send | xdp-socket/src/send.rs:89-98 | All or nothing: an error exactly when nothing is available or the packet is longer than a frame, with the socket and its frames as before; otherwise, unless the packet fills a frame exactly, one descriptor is published, of the length of the data, plus that of the header if there is one; its bytes are the data, behind the header if there is one, and no other byte of the pool changes; the commit cannot fail |
| TxSocket.TxSocket.ObjectSafe | xdp-socket/src/send.rs:89-98 | For the object: if every store so far was made with nothing available, what the kernel has read is a prefix of what was committed, packets in flight have their bytes, and each frame has one owner |
| RxSocket.RxSocket.constructor | xdp-socket/src/socket.rs:114-131 | `new` leaves a receive socket in the state as built |
| RxSocket.RxSocket.WellStarted | xdp-socket/src/create.rs:115-120 | Not in the code: the start that the protocol needs, over the same rings |
| RxSocket.RxSocket.TwinFacts | xdp-socket/src/commit.rs:85-102 | A valid receive object meets all receive invariants, whatever calls were made |
| RxSocket.RxSocket.OthersMoved | xdp-socket/src/create.rs:160-172 | The same for a receive object |
| RxSocket.RxSocket.Seek_ | xdp-socket/src/seek.rs:89-100 | With `published` the unread packets at the load: `Ok(count)` if enough is available, else `RingEmpty` if and only if `published` is 0, else `Ok(min(published, count as u32))`; only `available` changes |
| RxSocket.RxSocket.Peek_ | xdp-socket/src/peek.rs:137-145 | The bytes of the `index`-th packet delivered after those given back, although the kernel runs between the load and the use of the descriptor; `InvalidIndex` beyond the available ones |
| RxSocket.RxSocket.SeekAndPeek | xdp-socket/src/peek.rs:185-188 | `RingEmpty` if and only if nothing is available and nothing published at the load; otherwise the outcome of peeking at the oldest packet not given back |
| RxSocket.RxSocket.Commit_ | xdp-socket/src/commit.rs:85-102 | `NotAvailable` with nothing changed if and only if fewer than `count as u32` are available; otherwise the fields, both published indices and the Fill ring are what undisturbed turns make of them, although the kernel runs at every access |
| Create.PoolsSplit | xdp-socket/src/create.rs:70-74 | In every direction the two pools share no frame and miss none, a direction that is not asked for gets none, both get equally many, and each ring size is a power of two |
| Create.FillSizesAgreeExactly | xdp-socket/src/create.rs:85 | The size asked for the Fill ring is the mapped one if and only if the direction is `Both` |
| Create.CreateTx | xdp-socket/src/create.rs:97-109 | The transmit socket starts in the initial state of the transmit machine, entry `i` of its ring naming frame `i` |
| Create.CreateRx | xdp-socket/src/create.rs:112-121 | The receive socket starts in the state as built, entry `i` of its Fill ring naming the `i`-th frame behind the transmit pool |
| Create.CreateSockets | xdp-socket/src/create.rs:96-172 | Which sockets exist for which direction, and the state of the mapped rings and the fields that each starts in |
| Create.PairIsSafe | xdp-socket/src/create.rs:70-74 | A bidirectional pair, its receive socket well started, keeps every promise of both sockets in every run of gentle calls |
| Header.HdrWrite.Write | xdp-util/src/packet.rs:86-93 | The sink never fails and counts every byte; the buffer holds the bytes written so far in order from its start, as far as they fit, and behind them what it held at first |
| Header.StreamOfBoth | xdp-util/src/packet.rs:63 | The stream of a builder is its chunks in the order in which it writes them: what is written first stands first |
| Header.StreamOfOne | xdp-util/src/packet.rs:63 | The stream of a single chunk is that chunk |
| Header.WriteHeader | xdp-util/src/packet.rs:44-69 | The header is the first 42 bytes of the builder's stream, for every way of cutting the stream into chunks, and zero behind a shorter stream |
| Header.SendBuilt | xdp-socket/src/send.rs:89-98 | Sending data behind the header that was made for it has the whole outcome of `send` for the builder's stream as one packet: published whole, or refused with the socket and its frames as before, or the failing assertion at exactly one frame |

## Left out

* System calls and what wraps them (`socket`, `mmap`, `setsockopt`, `bind`, `poll`, `sendto`, `kick`, `poll_wait`,
  `send_blocking`, `OwnedMmap`, dropping): I/O. The kernel appears only as steps on the shared rings and frames, and a
  ring fresh from `mmap` has both indices zero and arbitrary entries.
* Weak memory: acquire loads and release stores are sequentially consistent here. Raw pointers are arrays.
* An application that keeps writing through a slice after the next call: the borrow of the socket rules it out.
* The `no_safety_checks` feature, the `Default` rings over null pointers, `Ring::increment` and `Ring::set`: not on the
  packet path.
* `seek`, `seek_n`, `peek`, `peek_at`, `commit`, `commit_n`: they only forward to the methods modelled.
* `RingError::Io`, and the socket, UMEM and error fields of `Inner`: no modelled operation produces or uses them.
* The packet builder behind `write_udp_header_for`, and its error: its output is an arbitrary stream in arbitrary chunks.
* Routing, netlink, MAC lookup and the XDP program: no part of the protocol.
* Invalid descriptors that a real kernel drops, and a kernel that delivers outside a frame: the steps assume that each
  delivered packet stays within the frame that it was given.
- TxSocket.TxSocket.Seek_: when it stores over an available descriptor it does not promise that the available descriptors name different frames, because they need not (TxReclaim).
- RxSocket.RxSocket.constructor: the methods of the class are verified for a well-formed start; runs from the state that `new` builds are treated on the machine only (RxStart), because the invariants that the methods need are false there.
- RxTheorems.RxMain: speaks of the well-formed start, because the state that `new` builds does not have the property (RxStart).
- TxTheorems.TxMain: speaks of sparing runs, because other runs need not have the property (TxReclaim).
- TxReclaim.SeekConservesExactly: the condition on available and pending is exact for a kernel that completes in order, as is TxReclaim.PoolExactly; for any other order the exact condition is that of TxReclaim.SeekConserves.
- Create.CreateSockets: for a receive-only socket it describes the mapped rings; that the kernel was asked for a Fill ring of one entry (`xdp-socket/src/create.rs:85`) is not part of the state.
- TxSocket.TxSocket.OthersMoved: a call on one object may be overtaken by writes anywhere outside its pool, so that the validity of the other object does not follow from the contract of the call; that two sockets leave each other alone is proved on the machines (BothSockets).
