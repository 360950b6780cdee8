/**
 * Address windows of the SoC bus router.
 *
 * A router is built from a list of per-node address counts. Node i gets the
 * half-open window [start[i], end[i]), and the windows are laid out from
 * address 0 in node order by accumulating the counts. This module holds the
 * specification of that layout (Starts, Ends), an independent reference
 * decoder (Locate), the lemmas relating the two, and BuildWindows, the
 * accumulating loop that the router's constructor runs.
 */
module AddressWindows {

  datatype Option<T> = None | Some(value: T)

  /** Why construction was refused: the count of node `index` is zero. */
  datatype BuildError = ZeroCount(index: nat)

  datatype Result<T> = Ok(value: T) | Err(error: BuildError)

  /** The two constant tables the router keeps: window starts and window ends. */
  datatype Windows = Windows(starts: seq<nat>, ends: seq<nat>)

  function Sum(s: seq<nat>): nat
  {
    if s == [] then 0 else s[0] + Sum(s[1..])
  }

  /** Window i starts where the counts of the nodes before it add up to. */
  function Starts(counts: seq<nat>): seq<nat>
  {
    seq(|counts|, i requires 0 <= i < |counts| => Sum(counts[..i]))
  }

  /** Window i ends where the counts of nodes 0..i (inclusive) add up to. */
  function Ends(counts: seq<nat>): seq<nat>
  {
    seq(|counts|, i requires 0 <= i < |counts| => Sum(counts[..i + 1]))
  }

  predicate NoZeroCount(counts: seq<nat>)
  {
    forall i :: 0 <= i < |counts| ==> counts[i] != 0
  }

  /**
   * Reference decoder, independent of the window tables: walk the nodes in
   * order, subtracting each node's count from the address until it falls
   * inside one. The result is the node index and the node-relative address.
   */
  function Locate(counts: seq<nat>, addr: nat): (r: Option<(nat, nat)>)
    ensures r.Some? ==> r.value.0 < |counts| && r.value.1 < counts[r.value.0]
    ensures r.Some? ==> r.value.1 <= addr
  {
    if counts == [] then None
    else if addr < counts[0] then Some((0, addr))
    else match Locate(counts[1..], addr - counts[0])
      case None => None
      case Some((i, off)) => Some((i + 1, off))
  }

  lemma {:induction false} SumAppend(a: seq<nat>, b: seq<nat>)
    ensures Sum(a + b) == Sum(a) + Sum(b)
  {
    if a == [] {
      assert a + b == b;
    } else {
      assert (a + b)[1..] == a[1..] + b;
      SumAppend(a[1..], b);
    }
  }

  /** Adding the next count to a prefix sum gives the next prefix sum. */
  lemma SumPrefixStep(s: seq<nat>, i: nat)
    requires i < |s|
    ensures Sum(s[..i + 1]) == Sum(s[..i]) + s[i]
  {
    assert s[..i + 1] == s[..i] + [s[i]];
    SumAppend(s[..i], [s[i]]);
    assert Sum([s[i]]) == s[i] + Sum([]);
  }

  /**
   * The windows are laid out contiguously from zero: the first starts at 0,
   * each is exactly as long as its count, each starts where the previous one
   * ends, and the last one ends at the sum of all counts.
   */
  lemma WindowsContiguous(counts: seq<nat>)
    ensures |Starts(counts)| == |Ends(counts)| == |counts|
    ensures |counts| > 0 ==> Starts(counts)[0] == 0
    ensures forall i :: 0 <= i < |counts| ==> Ends(counts)[i] == Starts(counts)[i] + counts[i]
    ensures forall i :: 0 <= i < |counts| - 1 ==> Starts(counts)[i + 1] == Ends(counts)[i]
    ensures |counts| > 0 ==> Ends(counts)[|counts| - 1] == Sum(counts)
  {
    forall i | 0 <= i < |counts|
      ensures Ends(counts)[i] == Starts(counts)[i] + counts[i]
    {
      SumPrefixStep(counts, i);
    }
    if |counts| > 0 {
      assert counts[..|counts|] == counts;
    }
  }

  /** With no zero count (what construction checks), no window is empty. */
  lemma WindowsNonEmpty(counts: seq<nat>)
    requires NoZeroCount(counts)
    ensures forall i :: 0 <= i < |counts| ==> Starts(counts)[i] < Ends(counts)[i]
  {
    WindowsContiguous(counts);
  }

  /** A later window never starts before an earlier one ends. */
  lemma EndBeforeLaterStart(counts: seq<nat>, i: nat, j: nat)
    requires i < j < |counts|
    ensures Ends(counts)[i] <= Starts(counts)[j]
  {
    assert counts[..j] == counts[..i + 1] + counts[i + 1..j];
    SumAppend(counts[..i + 1], counts[i + 1..j]);
  }

  /** With no zero count the window starts are strictly increasing. */
  lemma StartsStrictlyIncreasing(counts: seq<nat>, i: nat, j: nat)
    requires NoZeroCount(counts)
    requires i < j < |counts|
    ensures Starts(counts)[i] < Starts(counts)[j]
  {
    WindowsNonEmpty(counts);
    EndBeforeLaterStart(counts, i, j);
  }

  /** Two different windows share no address. */
  lemma WindowsDisjoint(counts: seq<nat>, i: nat, j: nat, addr: nat)
    requires i < |counts| && j < |counts| && i != j
    ensures !(Starts(counts)[i] <= addr < Ends(counts)[i] && Starts(counts)[j] <= addr < Ends(counts)[j])
  {
    if i < j {
      EndBeforeLaterStart(counts, i, j);
    } else {
      EndBeforeLaterStart(counts, j, i);
    }
  }

  /** Every window lies below the sum of all counts. */
  lemma WindowsBelowTotal(counts: seq<nat>)
    ensures forall i :: 0 <= i < |counts| ==> Starts(counts)[i] <= Ends(counts)[i] <= Sum(counts)
  {
    forall i | 0 <= i < |counts|
      ensures Starts(counts)[i] <= Ends(counts)[i] <= Sum(counts)
    {
      SumPrefixStep(counts, i);
      assert counts == counts[..i + 1] + counts[i + 1..];
      SumAppend(counts[..i + 1], counts[i + 1..]);
    }
  }

  /** Dropping the first node shifts every later window down by its count. */
  lemma StartsTail(counts: seq<nat>, k: nat)
    requires 0 < k < |counts|
    ensures Starts(counts)[k] == counts[0] + Starts(counts[1..])[k - 1]
    ensures Ends(counts)[k] == counts[0] + Ends(counts[1..])[k - 1]
  {
    assert counts[..k][1..] == counts[1..][..k - 1];
    assert counts[..k + 1][1..] == counts[1..][..k];
  }

  /** The first window is [0, counts[0]). */
  lemma FirstWindow(counts: seq<nat>)
    requires |counts| > 0
    ensures Starts(counts)[0] == 0 && Ends(counts)[0] == counts[0]
  {
    assert counts[..0] == [];
    assert counts[..1] == [counts[0]];
    assert Sum([counts[0]]) == counts[0] + Sum([]);
  }

  /** Decoding past the first node is Locate on the remaining nodes, shifted by one node. */
  lemma LocateTail(counts: seq<nat>, addr: nat)
    requires |counts| > 0 && addr >= counts[0]
    ensures Locate(counts, addr).Some? <==> Locate(counts[1..], addr - counts[0]).Some?
    ensures Locate(counts, addr).Some? ==>
              Locate(counts, addr).value.0 == Locate(counts[1..], addr - counts[0]).value.0 + 1
              && Locate(counts, addr).value.1 == Locate(counts[1..], addr - counts[0]).value.1
  {
  }

  /**
   * The window tables and the reference decoder agree: an address lies in
   * window k exactly when Locate picks node k, and then the node-relative
   * address is the distance from the window's start.
   */
  lemma {:induction false} LocateMatchesWindow(counts: seq<nat>, addr: nat, k: nat)
    requires k < |counts|
    ensures Starts(counts)[k] <= addr < Ends(counts)[k]
            <==> Locate(counts, addr) == Some((k, addr - Starts(counts)[k]))
    ensures Locate(counts, addr).Some? && Locate(counts, addr).value.0 == k ==>
              Starts(counts)[k] <= addr < Ends(counts)[k]
  {
    FirstWindow(counts);
    if k == 0 {
      if addr >= counts[0] {
        LocateTail(counts, addr);
      }
    } else if addr < counts[0] {
      EndBeforeLaterStart(counts, 0, k);
    } else {
      StartsTail(counts, k);
      LocateTail(counts, addr);
      LocateMatchesWindow(counts[1..], addr - counts[0], k - 1);
    }
  }

  /** An address is decoded to some node exactly when it is below the sum of all counts. */
  lemma {:induction false} LocateCoversTotal(counts: seq<nat>, addr: nat)
    ensures Locate(counts, addr).Some? <==> addr < Sum(counts)
  {
    if counts != [] && addr >= counts[0] {
      LocateCoversTotal(counts[1..], addr - counts[0]);
    }
  }

  /** At most one window holds any address: decoding is unambiguous. */
  lemma AtMostOneWindow(counts: seq<nat>, addr: nat, i: nat, j: nat)
    requires i < |counts| && j < |counts|
    requires Starts(counts)[i] <= addr < Ends(counts)[i]
    requires Starts(counts)[j] <= addr < Ends(counts)[j]
    ensures i == j
  {
    LocateMatchesWindow(counts, addr, i);
    LocateMatchesWindow(counts, addr, j);
  }

  /**
   * The construction loop of the router: zero-initialised start and end
   * tables, filled in node order while accumulating `offset`. A zero count
   * aborts construction at the first node that has one; nodes before it were
   * already written, but no router results.
   */
  method BuildWindows(addressCount: seq<nat>) returns (res: Result<Windows>)
    ensures res.Ok? <==> NoZeroCount(addressCount)
    ensures res.Err? ==> res.error.index < |addressCount|
                         && addressCount[res.error.index] == 0
                         && forall j :: 0 <= j < res.error.index ==> addressCount[j] != 0
    ensures res.Ok? ==> res.value.starts == Starts(addressCount) && res.value.ends == Ends(addressCount)
  {
    var n := |addressCount|;
    var nodeStart := new nat[n](_ => 0);
    var nodeEnd := new nat[n](_ => 0);
    var offset := 0;
    var ndx := 0;
    while ndx < n
      invariant 0 <= ndx <= n
      invariant offset == Sum(addressCount[..ndx])
      invariant forall j :: 0 <= j < ndx ==> addressCount[j] != 0
      invariant forall j :: 0 <= j < ndx ==> nodeStart[j] == Starts(addressCount)[j]
      invariant forall j :: 0 <= j < ndx ==> nodeEnd[j] == Ends(addressCount)[j]
    {
      if addressCount[ndx] == 0 {
        return Err(ZeroCount(ndx));
      }
      SumPrefixStep(addressCount, ndx);
      nodeStart[ndx] := offset;
      nodeEnd[ndx] := offset + addressCount[ndx];
      offset := offset + addressCount[ndx];
      ndx := ndx + 1;
    }
    res := Ok(Windows(nodeStart[..], nodeEnd[..]));
  }

  /** The six-node instance used by the router's own test, with 8-bit addresses. */
  lemma ExampleLayout()
    ensures Starts([4, 8, 12, 4, 4, 4]) == [0, 4, 12, 24, 28, 32]
    ensures Ends([4, 8, 12, 4, 4, 4]) == [4, 12, 24, 28, 32, 36]
    ensures Sum([4, 8, 12, 4, 4, 4]) < 256
  {
    var c: seq<nat> := [4, 8, 12, 4, 4, 4];
    WindowsContiguous(c);
    assert c[..0] == [];
  }
}
