/**
 * The SoC bus router: one upstream bus responder fanned out to N downstream
 * bus controllers, each owning one address window.
 *
 * The router is a synchronous state machine with three registers: `active`
 * (8 bits, the selected node), `virtual_address` (A bits, the upstream
 * address relative to the selected node's window) and `address_strobe_delay`
 * (one bit, the upstream address strobe delayed one cycle). Each register is
 * a pair of fields: Q, the value committed at the last rising clock edge, and
 * D, the value proposed for the next edge. Update proposes the next value of
 * every signal the router drives from the current inputs and Q values;
 * Commit is the rising clock edge that copies D into Q.
 */
module BusRouter {
  import opened AddressWindows

  function Pow2(n: nat): (r: nat)
    ensures r > 0
  {
    if n == 0 then 1 else 2 * Pow2(n - 1)
  }

  /** Subtraction of two `width`-bit values, wrapping modulo 2^width as bit-vector arithmetic does. */
  function WrapSub(x: nat, y: nat, width: nat): (r: nat)
    ensures r < Pow2(width)
    ensures y <= x < Pow2(width) ==> r == x - y
  {
    var m := Pow2(width);
    ModOfSmall(x - y, m);
    (x - y) % m
  }

  /** The remainder modulo m is below m, and a value already in [0, m) is its own remainder. */
  lemma ModOfSmall(a: int, m: nat)
    requires m > 0
    ensures 0 <= a % m < m
    ensures 0 <= a < m ==> a % m == a
  {
  }

  /** What the upstream controller drives into the router during one cycle. */
  datatype UpstreamIn = UpstreamIn(
    clock: bool,
    address: nat,
    addressStrobe: bool,
    fromController: nat,
    strobe: bool)

  /** What one downstream node drives back into the router. */
  datatype NodeIn = NodeIn(toController: nat, ready: bool)

  /** What the router drives toward one downstream node. */
  datatype NodeOut = NodeOut(
    clock: bool,
    fromController: nat,
    address: nat,
    addressStrobe: bool,
    strobe: bool)

  /** A node that is not selected: only the clock passes, every other signal is 0 or false. */
  function Idle(clock: bool): NodeOut
  {
    NodeOut(clock, 0, 0, false, false)
  }

  /**
   * The register values the decode has proposed once the loop has visited
   * nodes 0..i-1: the last visited window holding the strobed address wins;
   * if none does, the registers hold their values `held`.
   */
  function DecodeUpTo(starts: seq<nat>, ends: seq<nat>, up: UpstreamIn, i: nat, held: (nat, nat)): (nat, nat)
    requires i <= |starts| && i <= |ends|
  {
    if i == 0 then held
    else if up.addressStrobe && starts[i - 1] <= up.address < ends[i - 1] then (i - 1, up.address - starts[i - 1])
    else DecodeUpTo(starts, ends, up, i - 1, held)
  }

  /**
   * Because the windows are disjoint, the loop's later-write-wins decode
   * agrees with the reference decoder: after visiting nodes 0..i-1 the
   * registers hold Locate's node and relative address if that node has been
   * visited and the strobe is asserted, and their old values otherwise.
   */
  lemma {:induction false} DecodeMatchesLocate(counts: seq<nat>, up: UpstreamIn, i: nat, held: (nat, nat))
    requires i <= |counts|
    ensures DecodeUpTo(Starts(counts), Ends(counts), up, i, held)
            == if up.addressStrobe && Locate(counts, up.address).Some? && Locate(counts, up.address).value.0 < i
               then Locate(counts, up.address).value
               else held
  {
    if i > 0 {
      LocateMatchesWindow(counts, up.address, i - 1);
      DecodeMatchesLocate(counts, up, i - 1, held);
    }
  }

  /**
   * The decode over all nodes, from the window tables of `counts`: a strobed
   * address inside window k selects node k with the address relative to the
   * window's start, which is below node k's count; an address in no
   * window, or no strobe, keeps the held register values. Either way the
   * registers keep indexing a node and fitting their widths.
   */
  lemma DecodeSelectsWindow(counts: seq<nat>, up: UpstreamIn, held: (nat, nat), width: nat)
    requires up.address < Pow2(width) && held.1 < Pow2(width)
    requires |counts| > 0 ==> held.0 < |counts| && held.1 < counts[held.0]
    ensures var r := DecodeUpTo(Starts(counts), Ends(counts), up, |counts|, held);
            && (forall k :: 0 <= k < |counts| && up.addressStrobe && Starts(counts)[k] <= up.address < Ends(counts)[k] ==>
                  r == (k, up.address - Starts(counts)[k]) && r.1 < counts[k])
            && (up.addressStrobe && Locate(counts, up.address).Some? ==> r == Locate(counts, up.address).value)
            && (!up.addressStrobe || up.address >= Sum(counts) ==> r == held)
            && (|counts| > 0 ==> r.0 < |counts| && r.1 < counts[r.0])
            && r.1 < Pow2(width)
  {
    DecodeMatchesLocate(counts, up, |counts|, held);
    LocateCoversTotal(counts, up.address);
    forall k | 0 <= k < |counts| && up.addressStrobe && Starts(counts)[k] <= up.address < Ends(counts)[k]
      ensures DecodeUpTo(Starts(counts), Ends(counts), up, |counts|, held) == (k, up.address - Starts(counts)[k])
    {
      LocateMatchesWindow(counts, up.address, k);
    }
  }

  /**
   * What node k is driven with in a cycle where `active` holds `active`:
   * the selected node gets upstream's data and strobe, the latched relative
   * address and the delayed address strobe; every other node is idle.
   */
  function Drive(k: nat, active: nat, up: UpstreamIn, relAddress: nat, delayedStrobe: bool): NodeOut
  {
    if k == active
    then NodeOut(up.clock, up.fromController, relAddress, delayedStrobe, up.strobe)
    else Idle(up.clock)
  }

  class Router {
    /** A, the address width in bits. */
    const addrWidth: nat
    /** The per-node address counts the router was built from. */
    ghost const counts: seq<nat>
    /** The constant window tables: node i answers for [starts[i], ends[i]). */
    const starts: seq<nat>
    const ends: seq<nat>

    /** Proposed values of the signals driven toward each node. */
    const nodes: array<NodeOut>
    /** Proposed values of the two signals driven back upstream. */
    var toController: nat
    var ready: bool

    var activeQ: nat
    var activeD: nat
    var virtualAddressQ: nat
    var virtualAddressD: nat
    var strobeDelayQ: bool
    var strobeDelayD: bool

    /**
     * The router's invariant: the tables are the layout of `counts`, every
     * window fits in A bits, the 8-bit `active` register indexes a node
     * whenever there is one, and the latched relative address lies inside
     * that node's window.
     */
    ghost predicate Valid()
      reads this
    {
      TablesValid() && RegistersValid()
    }

    /** The constant part: the tables are the layout of `counts`, within A bits and 256 nodes. */
    ghost predicate TablesValid()
      reads this
    {
      && |counts| <= 256
      && Sum(counts) < Pow2(addrWidth)
      && NoZeroCount(counts)
      && starts == Starts(counts)
      && ends == Ends(counts)
      && nodes.Length == |counts|
    }

    /** The register part: `active` indexes a node and `virtual_address` lies inside that node's window. */
    ghost predicate RegistersValid()
      reads this
    {
      && activeQ < 256 && activeD < 256
      && virtualAddressQ < Pow2(addrWidth) && virtualAddressD < Pow2(addrWidth)
      && (|counts| > 0 ==> activeQ < |counts| && virtualAddressQ < counts[activeQ])
      && (|counts| > 0 ==> activeD < |counts| && virtualAddressD < counts[activeD])
    }

    /** A router over already-built windows, with every register and output at its default of 0 or false. */
    constructor FromWindows(width: nat, addressCount: seq<nat>, w: Windows)
      requires |addressCount| <= 256 && Sum(addressCount) < Pow2(width)
      requires NoZeroCount(addressCount)
      requires w.starts == Starts(addressCount) && w.ends == Ends(addressCount)
      ensures Valid()
      ensures addrWidth == width && counts == addressCount
      ensures activeQ == activeD == 0 && virtualAddressQ == virtualAddressD == 0
      ensures !strobeDelayQ && !strobeDelayD
      ensures toController == 0 && !ready
      ensures fresh(nodes) && forall k :: 0 <= k < nodes.Length ==> nodes[k] == Idle(false)
    {
      addrWidth := width;
      counts := addressCount;
      starts := w.starts;
      ends := w.ends;
      nodes := new NodeOut[|addressCount|](_ => Idle(false));
      toController := 0;
      ready := false;
      activeQ, activeD := 0, 0;
      virtualAddressQ, virtualAddressD := 0, 0;
      strobeDelayQ, strobeDelayD := false, false;
    }

    /**
     * Construction from the address counts: the windows are laid out from 0
     * in node order, and a zero count refuses construction. The counts must
     * add up to less than 2^A, and there are at most 256 nodes, the range of
     * the 8-bit `active` register.
     */
    static method New(addressCount: seq<nat>, width: nat) returns (res: Result<Router>)
      requires |addressCount| <= 256 && Sum(addressCount) < Pow2(width)
      ensures res.Ok? <==> NoZeroCount(addressCount)
      ensures res.Err? ==> res.error.index < |addressCount|
                           && addressCount[res.error.index] == 0
                           && forall j :: 0 <= j < res.error.index ==> addressCount[j] != 0
      ensures res.Ok? ==> fresh(res.value) && fresh(res.value.nodes) && res.value.Valid()
                          && res.value.counts == addressCount && res.value.addrWidth == width
      ensures res.Ok? ==> res.value.activeQ == 0 && res.value.activeD == 0
                          && res.value.virtualAddressQ == 0 && res.value.virtualAddressD == 0
                          && !res.value.strobeDelayQ && !res.value.strobeDelayD
      ensures res.Ok? ==> res.value.toController == 0 && !res.value.ready
                          && forall k :: 0 <= k < res.value.nodes.Length ==> res.value.nodes[k] == Idle(false)
    {
      var w := BuildWindows(addressCount);
      if w.Err? {
        return Err(w.error);
      }
      var r := new Router.FromWindows(width, addressCount, w.value);
      res := Ok(r);
    }

    /**
     * One evaluation of the router's logic. Defaults are proposed first:
     * upstream not ready with zero data, registers holding their values, the
     * strobe delay taking the upstream strobe. Then, for each node in order,
     * its outputs are defaulted to idle; if the strobed upstream address lies
     * in its window, the node index and relative address are proposed for the
     * registers; if it is the active node, bus traffic is passed through in
     * both directions. Finally, upstream is never ready while the address
     * strobe is asserted.
     */
    method Update(up: UpstreamIn, fromNodes: seq<NodeIn>)
      requires Valid()
      requires up.address < Pow2(addrWidth)
      requires |fromNodes| == nodes.Length
      modifies this`activeD, this`virtualAddressD, this`strobeDelayD, this`toController, this`ready, nodes
      ensures Valid()
      // address decode: the strobed address selects the node whose window holds it
      // (LocateMatchesWindow: Locate picks node k exactly when the address lies in window k)
      ensures up.addressStrobe && Locate(counts, up.address).Some? ==>
                (activeD, virtualAddressD) == Locate(counts, up.address).value
      ensures !up.addressStrobe || up.address >= Sum(counts) ==>
                activeD == activeQ && virtualAddressD == virtualAddressQ
      ensures strobeDelayD == up.addressStrobe
      // routing: only the active node sees traffic; every node gets the clock
      ensures nodes.Length > 0 ==> activeQ < nodes.Length
      ensures forall k :: 0 <= k < nodes.Length ==> nodes[k] == Drive(k, activeQ, up, virtualAddressQ, strobeDelayQ)
      ensures toController == if activeQ < nodes.Length then fromNodes[activeQ].toController else 0
      ensures ready == (!up.addressStrobe && activeQ < nodes.Length && fromNodes[activeQ].ready)
    {
      ready := false;
      toController := 0;
      activeD := activeQ;
      virtualAddressD := virtualAddressQ;
      strobeDelayD := up.addressStrobe;
      VisitNodes(up, fromNodes);
      if up.addressStrobe {
        ready := false;
      }
      DecodeSelectsWindow(counts, up, (activeQ, virtualAddressQ), addrWidth);
    }

    /**
     * The loop over the nodes, in index order: each node's outputs are first
     * proposed idle, then the decode and the routing for that node run.
     */
    method VisitNodes(up: UpstreamIn, fromNodes: seq<NodeIn>)
      requires TablesValid()
      requires up.address < Pow2(addrWidth)
      requires |fromNodes| == nodes.Length
      requires activeD == activeQ && virtualAddressD == virtualAddressQ
      requires toController == 0 && !ready
      modifies this`activeD, this`virtualAddressD, this`toController, this`ready, nodes
      ensures (activeD, virtualAddressD) == DecodeUpTo(starts, ends, up, nodes.Length, (activeQ, virtualAddressQ))
      ensures forall k :: 0 <= k < nodes.Length ==> nodes[k] == Drive(k, activeQ, up, virtualAddressQ, strobeDelayQ)
      ensures toController == if activeQ < nodes.Length then fromNodes[activeQ].toController else 0
      ensures ready == (activeQ < nodes.Length && fromNodes[activeQ].ready)
    {
      var i := 0;
      while i < nodes.Length
        invariant 0 <= i <= nodes.Length
        invariant (activeD, virtualAddressD) == DecodeUpTo(starts, ends, up, i, (activeQ, virtualAddressQ))
        invariant forall k :: 0 <= k < i ==> nodes[k] == Drive(k, activeQ, up, virtualAddressQ, strobeDelayQ)
        invariant toController == if activeQ < i then fromNodes[activeQ].toController else 0
        invariant ready == (activeQ < i && fromNodes[activeQ].ready)
      {
        nodes[i] := Idle(up.clock);
        DecodeNode(i, up);
        RouteNode(i, up, fromNodes[i]);
        i := i + 1;
      }
    }

    /** The address-decode half of the loop body, for node i. */
    method DecodeNode(i: nat, up: UpstreamIn)
      requires i < |starts| && i < |ends| && i < 256
      requires up.address < Pow2(addrWidth)
      modifies this`activeD, this`virtualAddressD
      ensures if starts[i] <= up.address < ends[i] && up.addressStrobe
              then activeD == i && virtualAddressD == up.address - starts[i]
              else activeD == old(activeD) && virtualAddressD == old(virtualAddressD)
    {
      if starts[i] <= up.address && up.address < ends[i] && up.addressStrobe {
        activeD := i % 256;
        virtualAddressD := WrapSub(up.address, starts[i], addrWidth);
      }
    }

    /** The routing half of the loop body: node i, if active, is connected to upstream. */
    method RouteNode(i: nat, up: UpstreamIn, fromNode: NodeIn)
      requires i < nodes.Length && nodes[i] == Idle(up.clock)
      modifies nodes, this`toController, this`ready
      ensures forall k :: 0 <= k < nodes.Length && k != i ==> nodes[k] == old(nodes[k])
      ensures nodes[i] == if i == activeQ
                          then NodeOut(up.clock, up.fromController, virtualAddressQ, strobeDelayQ, up.strobe)
                          else Idle(up.clock)
      ensures i == activeQ ==> toController == fromNode.toController && ready == fromNode.ready
      ensures i != activeQ ==> toController == old(toController) && ready == old(ready)
    {
      if activeQ == i {
        nodes[i] := nodes[i].(fromController := up.fromController, address := virtualAddressQ, strobe := up.strobe);
        toController := fromNode.toController;
        ready := fromNode.ready;
        nodes[i] := nodes[i].(addressStrobe := strobeDelayQ);
      }
    }

    /** The rising clock edge: every register takes its proposed value. */
    method Commit()
      requires Valid()
      modifies this`activeQ, this`virtualAddressQ, this`strobeDelayQ
      ensures Valid()
      ensures activeQ == activeD && virtualAddressQ == virtualAddressD && strobeDelayQ == strobeDelayD
    {
      activeQ := activeD;
      virtualAddressQ := virtualAddressD;
      strobeDelayQ := strobeDelayD;
    }
  }

  /**
   * A decode cycle, its clock edge, and the cycle after it. If the strobed
   * address of the first cycle lies in node k's window, then in the second
   * cycle node k, and no other, receives traffic: it sees the delayed address
   * strobe and the address relative to its window, and upstream hears node
   * k's data and readiness.
   */
  method DecodeThenRoute(r: Router, decode: UpstreamIn, first: seq<NodeIn>,
                         next: UpstreamIn, second: seq<NodeIn>, k: nat)
    requires r.Valid()
    requires decode.address < Pow2(r.addrWidth) && next.address < Pow2(r.addrWidth)
    requires |first| == r.nodes.Length && |second| == r.nodes.Length
    requires k < r.nodes.Length && decode.addressStrobe && r.starts[k] <= decode.address < r.ends[k]
    modifies r, r.nodes
    ensures r.Valid()
    ensures r.nodes[k] == NodeOut(next.clock, next.fromController, decode.address - r.starts[k], true, next.strobe)
    ensures decode.address - r.starts[k] < r.counts[k]
    ensures forall j :: 0 <= j < r.nodes.Length && j != k ==> r.nodes[j] == Idle(next.clock)
    ensures r.toController == second[k].toController
    ensures r.ready == (!next.addressStrobe && second[k].ready)
  {
    LocateMatchesWindow(r.counts, decode.address, k);
    r.Update(decode, first);
    r.Commit();
    r.Update(next, second);
  }
}
