/**
  The communicator table of one process and the three callbacks of the
  context-id (CID) allocation that read and write it.

  A slot of `ompi_mpi_communicators` is NULL, the anonymous OMPI_COMM_SENTINEL of a
  reservation, or a communicator.  The sentinel does not say who reserved the slot:
  that every reservation has exactly one owner is proved in module CidProtocol.

  The callbacks appear twice: as functions on values, which the protocol is built
  from, and as methods of a class that scan and update the table in place.
*/
module CidTable {

  const INT64_MAX := 0x7FFF_FFFF_FFFF_FFFF

  /** Old: a communicator that existed before; New(r): the one created by request r. */
  datatype Slot = Free | Sentinel | Old(comm: int) | New(req: nat)

  /** Which callback of the request is scheduled next. */
  datatype Pc = GetNext | WaitMax | WaitMin | Done

  /**
    The fields of a request's context (start, nextlocal_cid, nextcid, flag), and the values it
    has given so far to its MAX allreduces (`tops`) and to its MIN allreduces (`flags`).
  */
  datatype Ctx = Ctx(pc: Pc, start: nat, local: nat, cid: nat, flag: nat, tops: seq<nat>, flags: seq<nat>)

  datatype Proc = Proc(table: seq<Slot>, lowest: int, ctx: map<nat, Ctx>)

  /** The first free slot at or after `start`, or the table size when there is none. */
  function FirstFree(t: seq<Slot>, start: nat): (i: nat)
    ensures start <= |t| ==> start <= i <= |t|
    ensures start > |t| ==> i == |t|
    ensures i < |t| ==> t[i].Free?
    ensures forall j :: start <= j < i ==> !t[j].Free?
    decreases |t| - start
  {
    if start >= |t| then |t|
    else if t[start].Free? then start
    else FirstFree(t, start + 1)
  }

  lemma FirstFreeIs(t: seq<Slot>, start: nat, i: nat)
    requires start <= i <= |t| && (i < |t| ==> t[i].Free?) && forall j :: start <= j < i ==> !t[j].Free?
    ensures FirstFree(t, start) == i
  {
    var f := FirstFree(t, start);
    if f < i { assert false; }
    if i < f { assert false; }
  }

  function FreeCount(t: seq<Slot>): (n: nat)
    ensures n <= |t|
  {
    if t == [] then 0 else FreeCount(t[..|t|-1]) + (if t[|t|-1].Free? then 1 else 0)
  }

  lemma {:induction false} FreeCountSet(t: seq<Slot>, i: nat, v: Slot)
    requires i < |t|
    ensures FreeCount(t[i := v]) == FreeCount(t) - (if t[i].Free? then 1 else 0) + (if v.Free? then 1 else 0)
  {
    var l := |t| - 1;
    if i < l {
      FreeCountSet(t[..l], i, v);
      assert t[i := v][..l] == t[..l][i := v];
    } else {
      assert t[i := v][..l] == t[..l];
    }
  }

  /** Without a free slot the count is 0, and only then. */
  lemma {:induction false} NoneFree(t: seq<Slot>)
    ensures FreeCount(t) == 0 <==> FirstFree(t, 0) == |t|
  {
    if t != [] {
      var l := |t| - 1;
      NoneFree(t[..l]);
      var f := FirstFree(t[..l], 0);
      if f < l {
        assert t[..l][f] == t[f];
        FirstFreeIs(t, 0, f);
      } else {
        assert forall j :: 0 <= j < l ==> t[j] == t[..l][j];
        FirstFreeIs(t, 0, if t[l].Free? then l else l + 1);
      }
    }
  }

  /** The lowest free slot after slot i has changed. */
  lemma LowestAfterSet(t: seq<Slot>, i: nat, v: Slot)
    requires i < |t|
    ensures var low := FirstFree(t, 0);
            FirstFree(t[i := v], 0) == if v.Free? then (if i < low then i else low)
              else if i == low then FirstFree(t[i := v], i) else low
  {
    var low, t' := FirstFree(t, 0), t[i := v];
    if v.Free? {
      FirstFreeIs(t', 0, if i < low then i else low);
    } else if i == low {
      FirstFreeIs(t', 0, FirstFree(t', i));
    } else {
      FirstFreeIs(t', 0, low);
    }
  }

  /** ompi_comm_nextcid_nb: the search starts at the table's lowest free slot. */
  function Begin(p: Proc, r: nat): Proc {
    p.(ctx := p.ctx[r := Ctx(GetNext, FirstFree(p.table, 0), 0, 0, 0, [], [])])
  }

  /** Whether the scan of ompi_comm_allreduce_getnextcid finds a slot. */
  predicate HasRoom(p: Proc, r: nat, participate: bool)
    requires r in p.ctx
  {
    participate ==> FirstFree(p.table, p.ctx[r].start) < |p.table|
  }

  /** ompi_comm_allreduce_getnextcid; a request with a larger id than the lowest one waits. */
  function GetNextCid(p: Proc, r: nat, participate: bool, myId: int): Proc
    requires r in p.ctx && HasRoom(p, r, participate)
  {
    if p.lowest < myId then p
    else
      var c := p.ctx[r];
      if participate then
        var i := FirstFree(p.table, c.start);
        Proc(p.table[i := Sentinel], myId, p.ctx[r := c.(pc := WaitMax, local := i, tops := c.tops + [i])])
      else
        Proc(p.table, myId, p.ctx[r := c.(pc := WaitMax, local := 0, tops := c.tops + [0])])
  }

  /** ompi_comm_checkcid with the result of the MAX allreduce. */
  function CheckCid(p: Proc, r: nat, participate: bool, maxv: nat): Proc
    requires r in p.ctx && maxv < |p.table| && p.ctx[r].local < |p.table|
  {
    var c := p.ctx[r].(pc := WaitMin, cid := maxv);
    if !participate || maxv == c.local then
      p.(ctx := p.ctx[r := c.(flag := 1, flags := c.flags + [1])])
    else
      var released := p.table[c.local := Free];
      if released[maxv].Free? then
        Proc(released[maxv := Sentinel], p.lowest, p.ctx[r := c.(flag := 1, flags := c.flags + [1])])
      else
        Proc(released, p.lowest, p.ctx[r := c.(flag := 0, flags := c.flags + [0])])
  }

  /** The slot a committing process installs the communicator in. */
  function CommitSlot(p: Proc, r: nat, participate: bool): nat
    requires r in p.ctx
  {
    if participate then p.ctx[r].cid else FirstFree(p.table, p.ctx[r].start)
  }

  /** ompi_comm_nextcid_check_flag with the result of the MIN allreduce. */
  function CheckFlag(p: Proc, r: nat, participate: bool, minv: nat): Proc
    requires r in p.ctx && p.ctx[r].cid < |p.table|
    requires minv != 0 ==> CommitSlot(p, r, participate) < |p.table|
  {
    var c := p.ctx[r];
    if minv != 0 then
      var i := CommitSlot(p, r, participate);
      Proc(p.table[i := New(r)], INT64_MAX, p.ctx[r := c.(pc := Done, cid := i)])
    else if participate && c.flag != 0 then
      Proc(p.table[c.cid := Free], p.lowest, p.ctx[r := c.(pc := GetNext, start := c.cid + 1)])
    else
      p.(ctx := p.ctx[r := c.(pc := GetNext)])
  }

  /** The callbacks as they run: under the cid lock, on the process's own table. */
  class CidProcess {
    const table: array<Slot>
    /** lowest_free and number_free of the pointer array */
    var lowestFree: nat
    var numberFree: nat
    var lowest: int
    var ctx: map<nat, Ctx>

    ghost function View(): Proc
      reads this, table
    {
      Proc(table[..], lowest, ctx)
    }

    /** The pointer array knows its free slots. */
    ghost predicate Valid()
      reads this, table
    {
      lowestFree == FirstFree(table[..], 0) && numberFree == FreeCount(table[..])
    }

    constructor (size: nat)
      ensures fresh(table) && table.Length == size && Valid()
      ensures View() == Proc(seq(size, _ => Free), INT64_MAX, map[])
    {
      table := new Slot[size](_ => Free);
      lowestFree, numberFree := 0, size;
      lowest := INT64_MAX;
      ctx := map[];
      new;
      assert table[..] == seq(size, _ => Free);
      AllFree(table[..]);
    }

    /** FIND_FIRST_ZERO: the first free slot from i on, below which none is free. */
    method FindFirstFree(i: nat)
      requires i <= table.Length && numberFree == FreeCount(table[..])
      requires FirstFree(table[..], 0) == FirstFree(table[..], i)
      modifies `lowestFree
      ensures Valid()
    {
      NoneFree(table[..]);
      if numberFree == 0 {
        lowestFree := table.Length;
        return;
      }
      lowestFree := i;
      while !table[lowestFree].Free?
        invariant lowestFree < table.Length
        invariant FirstFree(table[..], lowestFree) == FirstFree(table[..], 0) < table.Length
        decreases table.Length - lowestFree
      {
        lowestFree := lowestFree + 1;
      }
    }

    /** opal_pointer_array_set_item */
    method SetItem(i: nat, v: Slot)
      requires Valid() && i < table.Length
      modifies table, `lowestFree, `numberFree
      ensures Valid() && table[..] == old(table[..])[i := v]
    {
      ghost var t := table[..];
      FreeCountSet(t, i, v);
      LowestAfterSet(t, i, v);
      var wasFree := table[i].Free?;
      table[i] := v;
      assert table[..] == t[i := v];
      if v.Free? {
        if !wasFree {
          if i < lowestFree {
            lowestFree := i;
          }
          numberFree := numberFree + 1;
        }
      } else if wasFree {
        numberFree := numberFree - 1;
        if i == lowestFree {
          FindFirstFree(i);
        }
      }
    }

    /** opal_pointer_array_test_and_set_item with the sentinel. */
    method TestAndSet(i: nat) returns (ok: bool)
      requires Valid() && i < table.Length
      modifies table, `lowestFree, `numberFree
      ensures Valid() && ok == old(table[i]).Free?
      ensures table[..] == if ok then old(table[..])[i := Sentinel] else old(table[..])
    {
      ok := table[i].Free?;
      if ok {
        ghost var t := table[..];
        FreeCountSet(t, i, Sentinel);
        LowestAfterSet(t, i, Sentinel);
        table[i] := Sentinel;
        assert table[..] == t[i := Sentinel];
        numberFree := numberFree - 1;
        NoneFree(table[..]);
        if numberFree > 0 {
          if i == lowestFree {
            FindFirstFree(i);
          }
        } else {
          lowestFree := table.Length;
        }
      }
    }

    /** The reservation loop shared by the first and the last callback. */
    method Reserve(start: nat) returns (cid: nat)
      requires Valid()
      modifies table, `lowestFree, `numberFree
      ensures Valid() && cid == FirstFree(old(table[..]), start)
      ensures table[..] == if cid < table.Length then old(table[..])[cid := Sentinel] else old(table[..])
    {
      ghost var t0 := table[..];
      cid := table.Length;
      var i := start;
      while i < table.Length && cid == table.Length
        invariant Valid() && (cid == table.Length ==> table[..] == t0 && FirstFree(t0, i) == FirstFree(t0, start))
        invariant cid < table.Length ==> cid == FirstFree(t0, start) && table[..] == t0[cid := Sentinel]
        invariant cid <= table.Length
        decreases table.Length - i, table.Length - cid
      {
        var flag := TestAndSet(i);
        if flag {
          cid := i;
        }
        i := i + 1;
      }
    }

    method BeginRequest(r: nat)
      requires Valid()
      modifies `ctx
      ensures Valid() && View() == Begin(old(View()), r)
    {
      ctx := ctx[r := Ctx(GetNext, lowestFree, 0, 0, 0, [], [])];
    }

    method DoGetNextCid(r: nat, participate: bool, myId: int)
      requires Valid() && r in ctx && HasRoom(View(), r, participate)
      modifies this, table
      ensures Valid() && View() == GetNextCid(old(View()), r, participate, myId)
    {
      if lowest < myId {
        return;
      }
      lowest := myId;
      var c := ctx[r];
      var i := 0;
      if participate {
        i := Reserve(c.start);
      }
      ctx := ctx[r := c.(pc := WaitMax, local := i, tops := c.tops + [i])];
    }

    method DoCheckCid(r: nat, participate: bool, nextcid: nat)
      requires Valid() && r in ctx && nextcid < table.Length && ctx[r].local < table.Length
      modifies this, table
      ensures Valid() && View() == CheckCid(old(View()), r, participate, nextcid)
    {
      var c := ctx[r];
      var flag := true;
      if participate {
        flag := nextcid == c.local;
        if !flag {
          SetItem(c.local, Free);
          flag := TestAndSet(nextcid);
        }
      }
      var contribution := if flag then 1 else 0;
      ctx := ctx[r := c.(pc := WaitMin, cid := nextcid, flag := contribution, flags := c.flags + [contribution])];
    }

    method DoCheckFlag(r: nat, participate: bool, rflag: nat)
      requires Valid() && r in ctx && ctx[r].cid < table.Length
      requires rflag != 0 ==> CommitSlot(View(), r, participate) < table.Length
      modifies this, table
      ensures Valid() && View() == CheckFlag(old(View()), r, participate, rflag)
    {
      var c := ctx[r];
      if rflag != 0 {
        var cid := c.cid;
        if !participate {
          cid := Reserve(c.start);
        }
        ghost var t := table[..];
        SetItem(cid, New(r));
        assert t[cid := New(r)] == old(table[..])[cid := New(r)];
        lowest := INT64_MAX;
        ctx := ctx[r := c.(pc := Done, cid := cid)];
        return;
      }
      if participate && c.flag != 0 {
        SetItem(c.cid, Free);
        c := c.(start := c.cid + 1);
      }
      ctx := ctx[r := c.(pc := GetNext)];
    }
  }

  lemma {:induction false} AllFree(t: seq<Slot>)
    requires forall i :: 0 <= i < |t| ==> t[i].Free?
    ensures FirstFree(t, 0) == 0 && FreeCount(t) == |t|
  {
    if t != [] {
      AllFree(t[..|t|-1]);
    }
  }
}
