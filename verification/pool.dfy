/** The pool of files, one list of paths per size class, and the search for a free one. */
module Pool {
  datatype Option<+T> = None | Some(value: T)

  /** A position in the pool: a size class and a node in its list. */
  datatype FileRef = FileRef(cls: nat, node: nat)

  datatype SizeClass = SizeClass(size: nat, inUse: seq<bool>, filled: bool)

  ghost predicate Full(c: SizeClass) {
    forall j | 0 <= j < |c.inUse| :: c.inUse[j]
  }

  /** The first node from j on that is not in use, or the length of the list. */
  function FirstFree(inUse: seq<bool>, j: nat): (k: nat)
    requires j <= |inUse|
    ensures j <= k <= |inUse|
    ensures forall i | j <= i < k :: inUse[i]
    ensures k < |inUse| ==> !inUse[k]
    decreases |inUse| - j
  {
    if j < |inUse| && inUse[j] then FirstFree(inUse, j + 1) else j
  }

  datatype Probe = Probe(pool: seq<SizeClass>, node: Option<FileRef>)

  /** Where a search stopped: the class it found, or the end. */
  function Stop(p: Probe): nat {
    if p.node.Some? then p.node.value.cls else |p.pool|
  }

  /** The search from class i on.  Classes that are big enough but full are passed over and marked
      as filled. */
  function GetFrom(pool: seq<SizeClass>, len: nat, i: nat): (p: Probe)
    requires i <= |pool|
    ensures |p.pool| == |pool| && i <= Stop(p) <= |pool|
    ensures p.node.Some? ==>
              && Stop(p) < |pool| && pool[Stop(p)].size >= len
              && p.node.value.node < |pool[Stop(p)].inUse|
              && p.node.value.node == FirstFree(pool[Stop(p)].inUse, 0)
    ensures forall c | i <= c < Stop(p) :: pool[c].size >= len ==> Full(pool[c])
    ensures forall c | 0 <= c < |pool| ::
              p.pool[c] == if i <= c < Stop(p) && pool[c].size >= len then pool[c].(filled := true) else pool[c]
    decreases |pool| - i
  {
    if i == |pool| then Probe(pool, None)
    else if pool[i].size >= len then
      var j := FirstFree(pool[i].inUse, 0);
      if j == |pool[i].inUse| then
        var q := pool[i := pool[i].(filled := true)];
        assert forall c | 0 <= c < |pool| :: c != i ==> q[c] == pool[c];
        var p := GetFrom(q, len, i + 1);
        assert p.pool[i] == q[i];
        p
      else Probe(pool, Some(FileRef(i, j)))
    else GetFrom(pool, len, i + 1)
  }

  lemma GetFromNext(pool: seq<SizeClass>, len: nat, i: nat)
    requires i < |pool|
    ensures var j := FirstFree(pool[i].inUse, 0);
            GetFrom(pool, len, i) ==
            if pool[i].size < len then GetFrom(pool, len, i + 1)
            else if j == |pool[i].inUse| then GetFrom(pool[i := pool[i].(filled := true)], len, i + 1)
            else Probe(pool, Some(FileRef(i, j)))
  {
  }

  lemma GetFromEnd(pool: seq<SizeClass>, len: nat)
    ensures GetFrom(pool, len, |pool|) == Probe(pool, None)
  {
  }

  function GetFilePath(pool: seq<SizeClass>, len: nat): Probe {
    GetFrom(pool, len, 0)
  }

  // ------------------------------------------------------- what is found

  ghost predicate Fits(pool: seq<SizeClass>, len: nat, c: nat) {
    c < |pool| && pool[c].size >= len && !Full(pool[c])
  }

  /** The search fails exactly when every class that is big enough is full. */
  lemma FailsIffFull(pool: seq<SizeClass>, len: nat)
    ensures GetFilePath(pool, len).node == None <==> forall c: nat :: !Fits(pool, len, c)
  {
    var p := GetFilePath(pool, len);
    if p.node.Some? {
      assert Fits(pool, len, Stop(p));
    }
  }

  /** What is found is smallest among the classes that could have been taken. */
  ghost predicate BestFit(pool: seq<SizeClass>, len: nat) {
    var p := GetFilePath(pool, len);
    p.node.Some? ==> forall c: nat :: Fits(pool, len, c) ==> pool[p.node.value.cls].size <= pool[c].size
  }

  ghost predicate Ascending(pool: seq<SizeClass>) {
    forall i, j | 0 <= i < j < |pool| :: pool[i].size <= pool[j].size
  }

  ghost predicate SameShape(p: seq<SizeClass>, q: seq<SizeClass>) {
    && |p| == |q|
    && forall c | 0 <= c < |p| :: p[c].size == q[c].size && |p[c].inUse| == |q[c].inUse|
  }

  /** First fit is best fit, whatever is in use, exactly for ascending sizes. */
  lemma BestFitIffAscending(pool: seq<SizeClass>)
    requires forall c | 0 <= c < |pool| :: |pool[c].inUse| > 0
    ensures Ascending(pool) <==> forall q, len :: SameShape(pool, q) ==> BestFit(q, len)
  {
    if Ascending(pool) {
      forall q, len | SameShape(pool, q) ensures BestFit(q, len) {
        FailsIffFull(q, len);
      }
    } else {
      var i, j :| 0 <= i < j < |pool| && pool[i].size > pool[j].size;
      var q := FreeOnly(pool, i, j);
      var p := GetFilePath(q, pool[j].size);
      assert Fits(q, pool[j].size, i) && Fits(q, pool[j].size, j);
      FailsIffFull(q, pool[j].size);
      assert p.node.value.cls == i;
      assert !BestFit(q, pool[j].size);
    }
  }

  function FreeOnly(pool: seq<SizeClass>, i: nat, j: nat): (q: seq<SizeClass>)
    requires forall c | 0 <= c < |pool| :: |pool[c].inUse| > 0
    ensures SameShape(pool, q)
    ensures forall c | 0 <= c < |pool| :: Full(q[c]) <==> c != i && c != j
  {
    var q := seq(|pool|, c requires 0 <= c < |pool| =>
      pool[c].(inUse := seq(|pool[c].inUse|, _ => c != i && c != j)));
    assert forall c | 0 <= c < |pool| :: q[c].inUse[0] == (c != i && c != j);
    q
  }

  // ------------------------------------------------------- over a whole run

  /** q is a later state of p: same files, and nothing is ever given back. */
  ghost predicate Grows(p: seq<SizeClass>, q: seq<SizeClass>) {
    && SameShape(p, q)
    && (forall c | 0 <= c < |p| :: p[c].filled ==> q[c].filled)
    && (forall c, j | 0 <= c < |p| && 0 <= j < |p[c].inUse| :: p[c].inUse[j] ==> q[c].inUse[j])
  }

  /** A length that could not be served once is never served again, nor is a greater one. */
  lemma FailsForever(p: seq<SizeClass>, q: seq<SizeClass>, len: nat, more: nat)
    requires Grows(p, q) && len <= more && GetFilePath(p, len).node == None
    ensures GetFilePath(q, more).node == None
  {
    FailsIffFull(p, len);
    FailsIffFull(q, more);
    forall c: nat ensures !Fits(q, more, c) {
      if c < |q| && q[c].size >= more {
        assert !Fits(p, len, c);
      }
    }
  }

  function Take(pool: seq<SizeClass>, f: FileRef): seq<SizeClass>
    requires f.cls < |pool| && f.node < |pool[f.cls].inUse|
  {
    pool[f.cls := pool[f.cls].(inUse := pool[f.cls].inUse[f.node := true])]
  }

  // ----------------------------------------------------------- in the heap

  /** A node of a path list; the list ends at the first node that has no path. */
  datatype FilePath = FilePath(alloc: int, path: Option<string>)

  class FileList {
    const sizes: seq<nat>
    const paths: seq<array<FilePath>>
    const filled: array<bool>
    ghost const Repr: set<object>

    ghost predicate Valid()
      reads this, Repr
    {
      && |sizes| == |paths| == filled.Length
      && filled in Repr
      && (forall c | 0 <= c < |paths| :: paths[c] as object != filled)
      && (forall c | 0 <= c < |paths| :: paths[c] in Repr)
      && (forall c, d | 0 <= c < d < |paths| :: paths[c] != paths[d])
      && (forall c | 0 <= c < |paths| :: paths[c].Length >= 1)
      && (forall c, j | 0 <= c < |paths| && 0 <= j < paths[c].Length ::
            paths[c][j].path.None? <==> j == paths[c].Length - 1)
    }

    /** The list that the generator writes: terminated, one array of paths per size. */
    constructor (sizes: seq<nat>, paths: seq<array<FilePath>>)
      requires |sizes| == |paths|
      requires forall c, d | 0 <= c < d < |paths| :: paths[c] != paths[d]
      requires forall c | 0 <= c < |paths| :: paths[c].Length >= 1
      requires forall c, j | 0 <= c < |paths| && 0 <= j < paths[c].Length ::
                 paths[c][j].path.None? <==> j == paths[c].Length - 1
      ensures Valid() && this !in Repr && this.sizes == sizes && this.paths == paths
      ensures fresh(filled) && Repr == {filled as object} + (set p | p in paths)
      ensures forall c | 0 <= c < |sizes| :: !filled[c]
    {
      var f := new bool[|sizes|](_ => false);
      this.sizes, this.paths, filled := sizes, paths, f;
      Repr := {f as object} + (set p | p in paths);
    }

    ghost function InUse(c: nat): (s: seq<bool>)
      requires Valid() && c < |paths|
      reads this, Repr
      ensures |s| == paths[c].Length - 1
    {
      seq(paths[c].Length - 1, j requires 0 <= j < paths[c].Length - 1 reads this, paths[c] => paths[c][j].alloc != 0)
    }

    ghost function View(): (v: seq<SizeClass>)
      requires Valid()
      reads this, Repr
      ensures |v| == |paths| == |sizes|
      ensures forall c | 0 <= c < |v| :: v[c].size == sizes[c]
    {
      seq(|paths|, c requires Valid() && 0 <= c < |paths| reads this, Repr => SizeClass(sizes[c], InUse(c), filled[c]))
    }

    method FindAvailNode(i: nat) returns (node: Option<nat>)
      requires Valid() && i < |paths|
      ensures var inUse := View()[i].inUse;
              node == if FirstFree(inUse, 0) < |inUse| then Some(FirstFree(inUse, 0)) else None
    {
      var j := 0;
      while paths[i][j].path.Some?
        invariant 0 <= j < paths[i].Length
        invariant FirstFree(InUse(i), 0) == FirstFree(InUse(i), j)
        decreases paths[i].Length - j
      {
        if paths[i][j].alloc == 0 {
          break;
        }
        j := j + 1;
      }
      if paths[i][j].path.None? {
        return None;
      }
      return Some(j);
    }

    method Fill(i: nat)
      requires Valid() && i < |paths|
      modifies filled
      ensures Valid() && View() == old(View())[i := old(View())[i].(filled := true)]
    {
      filled[i] := true;
      assert forall c | 0 <= c < |paths| :: InUse(c) == old(InUse(c));
    }

    method GetFilePath(len: nat) returns (node: Option<FileRef>, newLen: nat)
      requires Valid()
      modifies filled
      ensures Valid()
      ensures Probe(View(), node) == GetFrom(old(View()), len, 0)
      ensures newLen == if node.Some? then sizes[node.value.cls] else len
    {
      hide View, InUse, FirstFree, GetFrom;
      node, newLen := None, len;
      var i := 0;
      while i < |paths|
        invariant i <= |paths| && node == None && newLen == len
        invariant Valid()
        invariant GetFrom(old(View()), len, 0) == GetFrom(View(), len, i)
      {
        GetFromNext(View(), len, i);
        if sizes[i] >= len {
          var j := FindAvailNode(i);
          if j == None {
            Fill(i);
          } else {
            node, newLen := Some(FileRef(i, j.value)), sizes[i];
            return;
          }
        }
        i := i + 1;
      }
      GetFromEnd(View(), len);
    }

    method Mark(f: FileRef)
      requires Valid() && f.cls < |paths| && f.node + 1 < paths[f.cls].Length
      modifies paths[f.cls]
      ensures Valid() && View() == Take(old(View()), f)
    {
      paths[f.cls][f.node] := FilePath(1, paths[f.cls][f.node].path);
      assert InUse(f.cls) == old(InUse(f.cls))[f.node := true];
      assert forall c | 0 <= c < |paths| && c != f.cls :: InUse(c) == old(InUse(c));
    }
  }
}
