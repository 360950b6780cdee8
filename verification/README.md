# SoC bus address router

This project models the address router of the rust-hdl SoC bus
(`rust-hdl/src/hls/router.rs`). One upstream bus responder is fanned out to N
downstream bus controllers ("nodes"). Each node owns a contiguous window of
the upstream address space.

- **Construction** (`Router::new`) takes N address counts and lays out the
  half-open windows `[start[i], end[i])` from address 0 in node order. It
  accumulates an offset to do this. A zero count aborts construction. In the
  model this abort is an `Err(ZeroCount(i))` result, where `i` is the first
  node with a zero count.
- **Per-cycle logic** (`update`) is a synchronous state machine with three
  registers:
  - `active` (8 bits): the selected node;
  - `virtual_address` (A bits): the upstream address relative to that node's
    window;
  - `address_strobe_delay` (1 bit): the address strobe, one cycle late.

  Each cycle the logic does two things. First, it decodes a strobed upstream
  address against the windows and proposes the node index and the relative
  address for the registers. Second, it routes bus traffic only to the node
  whose index equals the committed `active` value. Upstream is never ready
  while the address strobe is asserted.

The model has two modules.

- `AddressWindows` (`address_windows.dfy`) holds:
  - the layout specification (`Starts`, `Ends`, built from prefix sums of the
    counts);
  - `Locate`, a reference decoder that does not use the window tables;
  - the lemmas relating the layout and the decoder;
  - `BuildWindows`, the construction loop over zero-initialised arrays.
- `BusRouter` (`bus_router.dfy`) holds the `Router` class. Each register is a
  pair of fields: `…Q` is the value committed at the last rising clock edge,
  and `…D` is the value proposed for the next edge. The signals the router
  drives are fields holding their proposed values: one `array<NodeOut>` for
  the nodes, plus `toController` and `ready` for upstream. The inputs the
  router reads in a cycle are the parameters of `Update`. `Commit` is the
  rising clock edge: it copies D into Q. The contracts of the per-cycle
  operations are written in terms of two specification functions.
  `DecodeUpTo` gives the register values the decode has proposed after the
  loop has visited nodes 0..i-1, where the last window hit wins. `Drive`
  gives what node k is driven with for a given committed `active` value.

The code has no overlap check and no overlap error. Windows are built by
accumulating the counts, so they cannot overlap, and `WindowsDisjoint` and
`AtMostOneWindow` prove it. The only construction error is a zero count,
which gives an empty window. The model follows the code here, not a design
that reports an overlap error.

## Model

| member | source | states |
|---|---|---|
| `AddressWindows.BuildWindows` | rust-hdl/src/hls/router.rs:22-32 | Construction succeeds exactly when no count is zero. On failure it names the first node whose count is zero. On success the start and end tables equal the layout `Starts`/`Ends` of the counts. |
| `AddressWindows.WindowsContiguous` | rust-hdl/src/hls/router.rs:26-32 | The windows start at 0. Window i is exactly `count[i]` long. Each window starts where the previous one ends. The last window ends at the sum of all counts. |
| `AddressWindows.WindowsNonEmpty` | rust-hdl/src/hls/router.rs:28 | When no count is zero, as construction checks, every window is non-empty: `start[i] < end[i]`. |
| `AddressWindows.EndBeforeLaterStart` | rust-hdl/src/hls/router.rs:26-32 | A later window never starts before an earlier window ends. |
| `AddressWindows.StartsStrictlyIncreasing` | rust-hdl/src/hls/router.rs:26-32 | With no zero count, window starts strictly increase with the node index. |
| `AddressWindows.WindowsDisjoint` | rust-hdl/src/hls/router.rs:26-32 | No address lies in two different windows. |
| `AddressWindows.AtMostOneWindow` | rust-hdl/src/hls/router.rs:64-65 | If an address passes the decode comparison of nodes i and j, then i = j. The loop's later-write-wins order therefore never decides anything. |
| `AddressWindows.WindowsBelowTotal` | rust-hdl/src/hls/router.rs:29-30 | Every window start and end is at most the sum of the counts. So when that sum fits in A bits, so do both tables. |
| `AddressWindows.Locate` | rust-hdl/src/hls/router.rs:64-71 | The reference decoder returns a node index below N and a relative address below that node's count, never above the address itself. |
| `AddressWindows.LocateMatchesWindow` | rust-hdl/src/hls/router.rs:64-71 | An address lies in window k exactly when the reference decoder picks node k. In that case the relative address is `addr - start[k]`. |
| `AddressWindows.LocateCoversTotal` | rust-hdl/src/hls/router.rs:64-65 | An address is decoded to some node exactly when it is below the sum of all counts: the windows tile `[0, total)`. |
| `AddressWindows.ExampleLayout` | rust-hdl/src/hls/router.rs:89 | Counts `[4, 8, 12, 4, 4, 4]` give windows `[0,4) [4,12) [12,24) [24,28) [28,32) [32,36)`, whose total fits in 8 address bits. |
| `BusRouter.WrapSub` | rust-hdl/src/hls/router.rs:69-70 | The A-bit difference of the address and the window start always fits A bits. When the subtrahend is not above the minuend and the minuend fits A bits, the result is the plain difference. |
| `BusRouter.DecodeMatchesLocate` | rust-hdl/src/hls/router.rs:58-71 | After the loop visits nodes 0..i-1, the proposed register values equal the reference decoder's node and relative address if the strobe is asserted and that node was visited. Otherwise they are the held values. |
| `BusRouter.DecodeSelectsWindow` | rust-hdl/src/hls/router.rs:52-71 | After the full loop: a strobed address in window k proposes `active = k` and `virtual_address = addr - start[k] < count[k]`. With no strobe, or with the address past the last window, the registers hold their values. Either way the proposed values stay in range. |
| `BusRouter.Router.New` | rust-hdl/src/hls/router.rs:22-42 | Construction fails exactly when some count is zero, naming the first such node. On success the router and its node outputs are newly allocated and the router is valid over those counts. Both halves of every register, the upstream data and ready, and every node output start at 0 or false. |
| `BusRouter.Router.FromWindows` | rust-hdl/src/hls/router.rs:33-42 | A router over the laid-out windows is valid. All registers and outputs start at 0 or false. |
| `BusRouter.Router.Update` | rust-hdl/src/hls/router.rs:47-84 | One evaluation keeps the invariant. It proposes the reference decoder's node and relative address on a strobed in-range address, and otherwise holds the registers. The next strobe delay is the current upstream strobe. Only node `active` gets upstream's data, strobe, the latched relative address and the delayed strobe; every other node gets 0/false; every node gets the clock. Upstream data and ready come from node `active` (0/false if there is none), and ready is false while the address strobe is asserted. |
| `BusRouter.Router.VisitNodes` | rust-hdl/src/hls/router.rs:58-80 | The loop over the nodes leaves the decode as the last window hit in index order. Every node's outputs are as routed, and the upstream data and ready are those of node `active`. |
| `BusRouter.Router.DecodeNode` | rust-hdl/src/hls/router.rs:64-71 | If node i's window holds the strobed address, the proposed registers become `i` and `addr - start[i]`. The 8-bit conversion and the A-bit subtraction lose nothing. Otherwise the proposed registers are unchanged. |
| `BusRouter.Router.RouteNode` | rust-hdl/src/hls/router.rs:72-79 | Only when `i` is the active node are node i's outputs and the upstream data and ready overridden. No other node changes. |
| `BusRouter.Router.Commit` | rust-hdl/src/hls/router.rs:16-18 | At the rising edge each register takes its proposed value, and the invariant is kept. |
| `BusRouter.DecodeThenRoute` | rust-hdl/src/hls/router.rs:55-79 | Take a strobed address in node k's window, then a clock edge, then the next cycle. In that next cycle node k, and no other node, receives traffic. It sees the delayed address strobe and the address `addr - start[k]`, which is below its count. Upstream hears node k's data and readiness, with ready false while a new strobe is asserted. |

## Left out

- Conversion of the offset to `Bits<A>` in construction (router.rs:29-30): its overflow behaviour is not part of this model. `Router.New` requires the counts to sum to less than 2^A. It also requires at most 256 nodes, so that a node index fits the 8-bit `active` register (router.rs:16).
- The zero-count abort is a panic in the code, and the window entries written before it are never observable. The model returns `Err(ZeroCount(i))` and builds no router.
- The DFF clock wiring (router.rs:50-51, 53) is not modelled as signals. Instead `Commit` is an explicit step that stands for the rising clock edge. Edge detection on the clock signal is not modelled.
- The data width D: data words (`from_controller`, `to_controller`) are unbounded naturals. The router copies them and does no arithmetic on them.
- The simulator's settle loop: `Update` is one evaluation of the router's logic with its inputs fixed. Repeated evaluation until a fixed point is not modelled.
- The `#[derive(LogicBlock)]` / `#[hdl_gen]` macro machinery and the `connect()` / `connect_all()` checks (router.rs:10, 46, 90-99): they are generated code that is not part of this model.
- Verilog generation and the external synthesis check in the router test (router.rs:100-102): code generation and a foreign tool call.
- `rust-hdl/tests/test_common/soc.rs`: structural wiring between widget blocks whose source is not part of this model. It also joins two clock domains through asynchronous FIFOs, which is concurrency.
- `rust-hdl-pcb/src/circuit.rs`: bill-of-materials records with floating-point fields and no operations.
- `rust-hdl/src/core/prelude.rs`, `rust-hdl/src/widgets/mod.rs`: re-exports and module declarations only.
- WrapSub: its contract states only the A-bit bound and the no-wrap case. The wrap-around case is in its body but not in its contract. The router's subtraction is guarded by the window comparison (router.rs:64-70), so only the no-wrap case can occur. The `Bits<A>` type itself is not part of this model.
