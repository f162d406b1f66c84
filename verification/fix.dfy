/** The FIX pattern: one byte per mapping, chosen at the first touch and kept in a linked list. */
module Fix {
  import opened Access
  import opened Samplers

  // ------------------------------------------------------- the chosen byte

  /** The location that fix_rand_loc settles on, in 64-bit unsigned arithmetic.  For a length of 9
      rand_intr divides by a range of zero, so there is none. */
  function FixLoc(rand: Raws, len: nat): (loc: int)
    requires 1 <= len < TWO_64 && len != 9
    ensures loc >= 0
  {
    var loc := RandIntrValue(rand, 0, if len >= 10 then len - 10 else TWO_64 + len - 10);
    if loc > len then (if len >= 100 then len - 100 else TWO_64 + len - 100) else loc
  }

  /** It lies inside the mapping exactly when the mapping has ten bytes, or the last of the 129 draws
      happens to be below its length. */
  lemma FixLocInside(rand: Raws, len: nat)
    requires 1 <= len < TWO_64 && len != 9
    ensures FixLoc(rand, len) < len <==> len >= 10 || rand(RETRIES) < len
    ensures len >= 10 ==> FixLoc(rand, len) == RandIntrValue(rand, 0, len - 10)
    ensures len < 10 && rand(RETRIES) < len ==> FixLoc(rand, len) == rand(RETRIES)
  {
    if len < 9 {
      var end := TWO_64 + len - 10;
      SmallQuotient(RAND_MAX, end + 1);
      IntrExhausted(rand, 0, end);
    }
  }

  lemma SmallQuotient(a: int, b: int)
    requires 0 <= a < b
    ensures a / b == 0 && Limit(b) == RAND_MAX / b * b
  {
  }

  /** How a call ends: normally, with an exit, with a write outside of the mapping, or with the signal
      that a division by zero raises. */
  datatype Outcome = Done | Exited | Stray | Killed

  /** How the choice of a byte ends in a mapping of size bytes. */
  function Choice(rand: Raws, len: nat, size: nat): Outcome
    requires 1 <= len < TWO_64
  {
    if len == 9 then Killed else if FixLoc(rand, len) < size then Done else Stray
  }

  // ------------------------------------------------------- what calls leave

  /** n calls on one mapping: the first clears the byte, each later one toggles it. */
  function FixLog(loc: nat, n: nat): (log: seq<Event>)
    ensures |log| == n && Within(log, loc + 1)
  {
    if n == 0 then []
    else if n == 1 then [Cleared(loc)]
    else FixLog(loc, n - 1) + [Toggled(loc)]
  }

  lemma FixLogNone(loc: nat)
    ensures FixLog(loc, 0) == []
  {
  }

  lemma FixLogNext(loc: nat, n: nat)
    ensures FixLog(loc, n + 1) == FixLog(loc, n) + [if n == 0 then Cleared(loc) else Toggled(loc)]
  {
  }

  /** Only the byte at loc can have changed, and the parity of the calls says to what. */
  lemma {:induction false} FixContents(m: seq<Byte>, loc: nat, n: nat)
    requires loc < |m| && n >= 1
    ensures Within(FixLog(loc, n), |m|)
    ensures After(m, FixLog(loc, n)) == m[loc := if n % 2 == 1 then 0 else 0x0f]
  {
    if n == 1 {
      AfterSnoc(m, [], Cleared(loc));
      assert [] + [Cleared(loc)] == FixLog(loc, 1);
    } else {
      FixContents(m, loc, n - 1);
      AfterSnoc(m, FixLog(loc, n - 1), Toggled(loc));
    }
  }

  // ------------------------------------------------------- the bookkeeper

  class FixNode {
    const addr: Region
    var loc: nat
    var nxt: FixNode?

    constructor (addr: Region, nxt: FixNode?)
      ensures this.addr == addr && this.loc == 0 && this.nxt == nxt
    {
      this.addr, this.loc, this.nxt := addr, 0, nxt;
    }
  }

  class FixList {
    var head: FixNode?
    ghost var nodes: seq<FixNode>        // from the oldest to the head
    ghost var at: map<Region, nat>       // the position of each address in nodes
    ghost var locs: map<Region, nat>     // what the list stands for

    /** The list is acyclic, its addresses are distinct, and it agrees with the map. */
    ghost predicate Valid()
      reads this, nodes
    {
      Chained() && Indexed() && Agreeing()
    }

    ghost predicate Chained()
      reads this`head, this`nodes, nodes
    {
      && head == Upto(|nodes|)
      && (forall i {:trigger nodes[i].nxt} | 0 <= i < |nodes| :: nodes[i].nxt == Upto(i))
    }

    ghost predicate Indexed()
      reads this
    {
      && (forall i | 0 <= i < |nodes| :: nodes[i].addr in at && at[nodes[i].addr] == i)
      && (forall r | r in at :: at[r] < |nodes| && nodes[at[r]].addr == r)
    }

    ghost predicate Agreeing()
      reads this, nodes
      requires Indexed()
    {
      && locs.Keys == at.Keys
      && (forall i {:trigger nodes[i].loc} | 0 <= i < |nodes| ::
            nodes[i].loc == locs[nodes[i].addr] < nodes[i].addr.data.Length)
    }

    /** The head of the list of the i oldest nodes. */
    ghost function Upto(i: nat): FixNode?
      requires i <= |nodes|
      reads this`nodes
    {
      if i == 0 then null else nodes[i - 1]
    }

    constructor ()
      ensures Valid() && locs == map[] && nodes == []
    {
      head, nodes, at, locs := null, [], map[], map[];
    }

    method FixExists(addr: Region) returns (node: FixNode?)
      requires Valid()
      ensures node == null <==> addr !in locs
      ensures node != null ==> node in nodes && node.addr == addr && node.loc == locs[addr] < addr.data.Length
    {
      node := head;
      ghost var i := |nodes|;
      while node != null
        invariant 0 <= i <= |nodes| && node == Upto(i)
        invariant addr in at ==> at[addr] < i
        decreases i
      {
        assert node == nodes[i - 1];
        if node.addr == addr {
          assert nodes[i - 1].loc == locs[addr];
          return;
        }
        assert nodes[i - 1].nxt == Upto(i - 1);
        node := node.nxt;
        i := i - 1;
      }
    }

    /** A new node at the head, which nothing yet stands for. */
    method PushNode(addr: Region) returns (node: FixNode)
      requires Chained()
      modifies this`head, this`nodes
      ensures Chained() && fresh(node) && nodes == old(nodes) + [node]
      ensures node.addr == addr && node.loc == 0
    {
      node := new FixNode(addr, head);
      head := node;
      nodes := nodes + [node];
    }

    method FixAllocNode(addr: Region) returns (node: FixNode)
      requires Valid() && addr !in locs && addr.data.Length > 0
      modifies this
      ensures Valid() && fresh(node) && nodes == old(nodes) + [node]
      ensures node.addr == addr && locs == old(locs)[addr := 0]
    {
      hide Chained;
      node := PushNode(addr);
      assert addr !in at;
      assert forall i | 0 <= i < |nodes| - 1 :: nodes[i] == old(nodes)[i] && nodes[i].loc == old(nodes[i].loc);
      at := at[addr := |nodes| - 1];
      locs := locs[addr := 0];
      assert Indexed();
    }

    /** pattern_fix of pattern_manager.c, which keeps the list but touches the first byte, and exits on
        a length of zero. */
    method PatternFixBase(r: Region, len: nat) returns (o: Outcome)
      requires Valid() && r.Valid() && len <= r.data.Length
      modifies this, r.data, r`log
      ensures Valid() && r.Valid()
      ensures o == if len == 0 then Exited else Done
      ensures len == 0 ==> locs == old(locs) && r.log == old(r.log)
      ensures len > 0 ==> r.log == old(r.log) + [Toggled(0)]
      ensures len > 0 ==> locs == if r in old(locs) then old(locs) else old(locs)[r := 0]
    {
      hide *;
      if len == 0 {
        return Exited;
      }
      var node := FixExists(r);
      if node == null {
        node := FixAllocNode(r);
      }
      node.addr.Touch(0);
      o := Done;
    }

    method SetLoc(node: FixNode, loc: nat)
      requires Valid() && node in nodes && loc < node.addr.data.Length
      modifies this`locs, node`loc
      ensures Valid() && node.loc == loc && locs == old(locs)[node.addr := loc]
    {
      node.loc := loc;
      locs := locs[node.addr := loc];
    }

    /** fix_rand_loc on a node that has just been allocated.  Nothing is said of the state after a write
        that strays or a division by zero. */
    method FixRandLoc(node: FixNode, len: nat, rand: Raws) returns (o: Outcome)
      requires Valid() && node in nodes && node.addr.Valid() && 1 <= len <= node.addr.data.Length && len < TWO_64
      modifies this`locs, node`loc, node.addr.data, node.addr`log
      ensures o == Choice(rand, len, node.addr.data.Length)
      ensures o.Done? ==> Valid() && node.addr.Valid()
      ensures o.Done? ==> locs == old(locs)[node.addr := FixLoc(rand, len)]
      ensures o.Done? ==> node.addr.log == old(node.addr.log) + [Cleared(locs[node.addr])]
    {
      hide RandIntrValue, Valid, Region.Valid;
      if len == 9 {
        return Killed;
      }
      var end := if len >= 10 then len - 10 else TWO_64 + len - 10;
      var loc := RandIntr(rand, 0, end);
      if loc > len {
        loc := if len >= 100 then len - 100 else TWO_64 + len - 100;
      }
      if loc >= node.addr.data.Length {
        return Stray;
      }
      assert loc == FixLoc(rand, len);
      o := Done;
      SetLoc(node, loc);
      hide *;
      node.addr.Clear(node.loc);
    }

    /** pattern_fix of mem_gobbler.c. */
    method PatternFix(r: Region, len: nat, rand: Raws) returns (o: Outcome)
      requires Valid() && r.Valid() && len <= r.data.Length && len < TWO_64
      modifies this, r.data, r`log
      ensures o == if len == 0 || r in old(locs) then Done else Choice(rand, len, r.data.Length)
      ensures o.Done? ==> Valid() && r.Valid()
      ensures forall n | n in nodes :: n in old(nodes) || fresh(n)
      ensures len == 0 ==> locs == old(locs) && r.log == old(r.log)
      ensures len > 0 && r in old(locs) ==> locs == old(locs) && r.log == old(r.log) + [Toggled(locs[r])]
      ensures len > 0 && r !in old(locs) && o.Done? ==>
                len != 9 && locs == old(locs)[r := FixLoc(rand, len)] && r.log == old(r.log) + [Cleared(locs[r])]
    {
      hide *;
      if len == 0 {
        return Done;
      }
      var node := FixExists(r);
      if node == null {
        node := FixAllocNode(r);
        o := FixRandLoc(node, len, rand);
        ChoiceDone(rand, len, r.data.Length);
        return;
      }
      r.Touch(node.loc);
      o := Done;
    }
  }

  /** From ten bytes on the choice never fails; below, it is down to the last draw. */
  lemma ChoiceDone(rand: Raws, len: nat, size: nat)
    requires 1 <= len < TWO_64 && len <= size
    ensures len >= 10 ==> Choice(rand, len, size) == Done
    ensures Choice(rand, len, size) == Done ==> len != 9
    ensures Choice(rand, len, len) == Done <==> len >= 10 || (len != 9 && rand(RETRIES) < len)
  {
    if len != 9 {
      FixLocInside(rand, len);
    }
  }
}
