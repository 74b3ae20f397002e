/** Reference counting in the in-memory filesystem: the slab of inodes, directory entries that
    count as links, and open nodes that keep an inode alive.

    A directory entry (`InodeRef`) is a map entry; a reference that has been taken out of a
    directory and not yet dropped, or made and not yet inserted, is pending. An open node
    (`MemoryNode`) holds the inode's `Arc`, so the strong count is two exactly when, besides the
    slab and the holder at hand, no node is open. */
module TmpFs {

  datatype Inode = Inode(isDir: bool, nlink: nat, entries: map<string, nat>)

  type Slab = map<nat, Inode>
  type Nodes = map<nat, nat>

  /** The entries of a directory; those of a missing inode are none. */
  function Entries(slab: Slab, d: nat): map<string, nat> { if d in slab then slab[d].entries else map[] }

  /** All directory entries that refer to inode i. */
  ghost function Links(slab: Slab, i: nat): set<(nat, string)> {
    set d, n | d in slab && n in slab[d].entries && slab[d].entries[n] == i :: (d, n)
  }

  predicate Open(nodes: Nodes, i: nat) { i in nodes.Values }

  ghost predicate NoDangling(slab: Slab) {
    forall d, n {:trigger PointsInside(slab, d, n)} :: d in slab && n in slab[d].entries ==> PointsInside(slab, d, n)
  }

  ghost predicate PointsInside(slab: Slab, d: nat, n: string)
    requires d in slab && n in slab[d].entries
  {
    slab[d].entries[n] in slab
  }

  /** The link count of every inode is the number of directory entries that refer to it. */
  ghost predicate Counted(slab: Slab, pending: multiset<nat>) {
    forall i {:trigger CountedAt(slab, pending, i)} :: i in slab ==> CountedAt(slab, pending, i)
  }

  ghost predicate CountedAt(slab: Slab, pending: multiset<nat>, i: nat)
    requires i in slab
  {
    slab[i].nlink == |Links(slab, i)| + pending[i]
  }

  /** A directory that nobody has open holds no entries, so dropping its inode drops no links. */
  ghost predicate ClosedIsEmpty(slab: Slab, nodes: Nodes) {
    forall d {:trigger OpenOrEmpty(slab, nodes, d)} :: d in slab ==> OpenOrEmpty(slab, nodes, d)
  }

  ghost predicate OpenOrEmpty(slab: Slab, nodes: Nodes, d: nat)
    requires d in slab
  {
    slab[d].entries == map[] || (slab[d].isDir && Open(nodes, d))
  }

  /** Open nodes and pending references keep their inode; nothing else stays behind. */
  ghost predicate KeptExactly(slab: Slab, nodes: Nodes, pending: multiset<nat>) {
    && (forall i :: Open(nodes, i) ==> i in slab)
    && (forall i :: i in pending ==> i in slab)
    && (forall i {:trigger InUse(slab, nodes, i)} :: i in slab ==> InUse(slab, nodes, i))
  }

  ghost predicate InUse(slab: Slab, nodes: Nodes, i: nat)
    requires i in slab
  {
    slab[i].nlink > 0 || Open(nodes, i)
  }

  ghost predicate Inv(slab: Slab, nodes: Nodes, pending: multiset<nat>) {
    NoDangling(slab) && Counted(slab, pending) && ClosedIsEmpty(slab, nodes) && KeptExactly(slab, nodes, pending)
  }

  /** No inode appears, and none changes its kind. */
  ghost predicate Shrinks(before: Slab, after: Slab) {
    forall i :: i in after ==> i in before && after[i].isDir == before[i].isDir
  }

  ghost predicate SameTree(before: Slab, after: Slab) { forall d :: Entries(after, d) == Entries(before, d) }

  // ---- One reference at a time ----

  function WithEntries(slab: Slab, d: nat, entries: map<string, nat>): Slab
    requires d in slab
  {
    slab[d := slab[d].(entries := entries)]
  }

  lemma LinksFollowTree(before: Slab, after: Slab, i: nat)
    requires SameTree(before, after)
    ensures Links(after, i) == Links(before, i)
  {
    forall d: nat, n: string ensures (d, n) in Links(after, i) <==> (d, n) in Links(before, i) {
      assert Entries(after, d) == Entries(before, d);
    }
  }

  lemma DetachCounts(slab: Slab, pending: multiset<nat>, d: nat, name: string, i: nat)
    requires Counted(slab, pending) && i in slab && d in slab && name in slab[d].entries
    ensures CountedAt(WithEntries(slab, d, slab[d].entries - {name}), pending + multiset{slab[d].entries[name]}, i)
  {
    var after := WithEntries(slab, d, slab[d].entries - {name});
    assert CountedAt(slab, pending, i);
    assert Links(after, i) == Links(slab, i) - {(d, name)};
    assert (d, name) in Links(slab, i) <==> i == slab[d].entries[name];
  }

  lemma Detach(slab: Slab, nodes: Nodes, pending: multiset<nat>, d: nat, name: string)
    requires Inv(slab, nodes, pending) && d in slab && name in slab[d].entries
    ensures Inv(WithEntries(slab, d, slab[d].entries - {name}), nodes, pending + multiset{slab[d].entries[name]})
  {
    var after := WithEntries(slab, d, slab[d].entries - {name});
    assert PointsInside(slab, d, name);
    forall x, n | x in after && n in after[x].entries ensures PointsInside(after, x, n) {
      assert PointsInside(slab, x, n);
    }
    forall i | i in after ensures CountedAt(after, pending + multiset{slab[d].entries[name]}, i) {
      DetachCounts(slab, pending, d, name, i);
    }
    forall i | i in after ensures OpenOrEmpty(after, nodes, i) && InUse(after, nodes, i) {
      assert OpenOrEmpty(slab, nodes, i) && InUse(slab, nodes, i);
    }
  }

  lemma AttachCounts(slab: Slab, pending: multiset<nat>, d: nat, name: string, t: nat, i: nat)
    requires Counted(slab, pending) && i in slab && d in slab && name !in slab[d].entries && t in pending
    ensures CountedAt(WithEntries(slab, d, slab[d].entries[name := t]), pending - multiset{t}, i)
  {
    var after := WithEntries(slab, d, slab[d].entries[name := t]);
    assert CountedAt(slab, pending, i);
    assert (d, name) !in Links(slab, i);
    assert Links(slab, i) == Links(after, i) - {(d, name)};
    assert (d, name) in Links(after, i) <==> i == t;
  }

  lemma Attach(slab: Slab, nodes: Nodes, pending: multiset<nat>, d: nat, name: string, t: nat)
    requires Inv(slab, nodes, pending) && d in slab && slab[d].isDir && Open(nodes, d)
    requires name !in slab[d].entries && t in pending
    ensures Inv(WithEntries(slab, d, slab[d].entries[name := t]), nodes, pending - multiset{t})
  {
    var after := WithEntries(slab, d, slab[d].entries[name := t]);
    forall x, n | x in after && n in after[x].entries ensures PointsInside(after, x, n) {
      if x != d || n != name { assert PointsInside(slab, x, n); }
    }
    forall i | i in after ensures CountedAt(after, pending - multiset{t}, i) {
      AttachCounts(slab, pending, d, name, t, i);
    }
    forall i | i in after ensures OpenOrEmpty(after, nodes, i) && InUse(after, nodes, i) {
      assert OpenOrEmpty(slab, nodes, i) && InUse(slab, nodes, i);
    }
  }

  /** What survives when the tree stays and only counters move or unused slots go. */
  lemma SameTreeKeeps(slab: Slab, after: Slab)
    requires NoDangling(slab) && SameTree(slab, after) && after.Keys <= slab.Keys
    requires forall d, n :: d in slab && n in slab[d].entries ==> slab[d].entries[n] in after
    ensures NoDangling(after)
  {
    forall x, n | x in after && n in after[x].entries ensures PointsInside(after, x, n) {
      assert Entries(after, x) == Entries(slab, x);
    }
  }

  /** `InodeRef::new` */
  function Taken(slab: Slab, t: nat): Slab
    requires t in slab
  {
    slab[t := slab[t].(nlink := slab[t].nlink + 1)]
  }

  lemma Take(slab: Slab, nodes: Nodes, pending: multiset<nat>, t: nat)
    requires Inv(slab, nodes, pending) && t in slab
    ensures Inv(Taken(slab, t), nodes, pending + multiset{t}) && SameTree(slab, Taken(slab, t))
  {
    var after := Taken(slab, t);
    forall x, n | x in after && n in after[x].entries ensures PointsInside(after, x, n) {
      assert PointsInside(slab, x, n);
    }
    forall i | i in after
      ensures CountedAt(after, pending + multiset{t}, i) && OpenOrEmpty(after, nodes, i) && InUse(after, nodes, i)
    {
      LinksFollowTree(slab, after, i);
      assert CountedAt(slab, pending, i) && OpenOrEmpty(slab, nodes, i) && InUse(slab, nodes, i);
    }
  }

  /** `release_inode`: the counter falls, and the slot goes with the last link if nobody has the
      inode open. */
  function Released(slab: Slab, nodes: Nodes, t: nat, n: nat): Slab
    requires t in slab && n <= slab[t].nlink
  {
    if slab[t].nlink == n && !Open(nodes, t) then slab - {t}
    else slab[t := slab[t].(nlink := slab[t].nlink - n)]
  }

  /** An inode without links is the target of no entry. */
  lemma Unlinked(slab: Slab, t: nat)
    requires |Links(slab, t)| == 0
    ensures forall d, n :: d in slab && n in slab[d].entries ==> slab[d].entries[n] != t
  {
    forall d, n | d in slab && n in slab[d].entries ensures slab[d].entries[n] != t {
      assert (d, n) !in Links(slab, t);
    }
  }

  lemma ReleaseKeepsTree(slab: Slab, nodes: Nodes, t: nat, n: nat)
    requires ClosedIsEmpty(slab, nodes) && t in slab && n <= slab[t].nlink
    ensures SameTree(slab, Released(slab, nodes, t, n)) && Shrinks(slab, Released(slab, nodes, t, n))
  {
    assert OpenOrEmpty(slab, nodes, t);
  }

  /** Releasing `n` of the pending references to t; nodes may just have lost one on t. */
  lemma ReleaseKeeps(slab: Slab, nodes: Nodes, pending: multiset<nat>, pending': multiset<nat>, t: nat, n: nat)
    requires NoDangling(slab) && Counted(slab, pending) && ClosedIsEmpty(slab, nodes) && t in slab
    requires pending == pending'[t := pending'[t] + n] && (forall i :: Open(nodes, i) ==> i in slab)
    requires forall i :: i in pending ==> i in slab
    requires forall i {:trigger InUse(slab, nodes, i)} :: i in slab && i != t ==> InUse(slab, nodes, i)
    ensures n <= slab[t].nlink
    ensures Inv(Released(slab, nodes, t, n), nodes, pending')
    ensures SameTree(slab, Released(slab, nodes, t, n)) && Shrinks(slab, Released(slab, nodes, t, n))
  {
    assert CountedAt(slab, pending, t);
    var after := Released(slab, nodes, t, n);
    ReleaseKeepsTree(slab, nodes, t, n);
    if t !in after { Unlinked(slab, t); }
    forall x, m | x in slab && m in slab[x].entries ensures slab[x].entries[m] in after {
      assert PointsInside(slab, x, m);
    }
    SameTreeKeeps(slab, after);
    forall i | i in after
      ensures CountedAt(after, pending', i) && OpenOrEmpty(after, nodes, i) && InUse(after, nodes, i)
    {
      LinksFollowTree(slab, after, i);
      assert CountedAt(slab, pending, i);
      assert OpenOrEmpty(slab, nodes, i);
      if i != t { assert InUse(slab, nodes, i); }
    }
  }

  lemma OpenMore(nodes: Nodes, v: nat, ino: nat)
    requires v !in nodes
    ensures forall i :: Open(nodes[v := ino], i) <==> Open(nodes, i) || i == ino
  {
    var more := nodes[v := ino];
    assert v in more && more[v] == ino;
    forall i | Open(nodes, i) ensures Open(more, i) {
      var w :| w in nodes && nodes[w] == i;
      assert w in more && more[w] == i;
    }
    forall i | Open(more, i) ensures i == ino || Open(nodes, i) {
      var w :| w in more && more[w] == i;
    }
  }

  lemma OpenLess(nodes: Nodes, v: nat)
    requires v in nodes
    ensures forall x :: Open(nodes - {v}, x) ==> Open(nodes, x)
    ensures forall x :: Open(nodes, x) && x != nodes[v] ==> Open(nodes - {v}, x)
  {
    var rest := nodes - {v};
    forall x | Open(rest, x) ensures Open(nodes, x) {
      var w :| w in rest && rest[w] == x;
      assert nodes[w] == x;
    }
    forall x | Open(nodes, x) && x != nodes[v] ensures Open(rest, x) {
      var w :| w in nodes && nodes[w] == x;
      assert rest[w] == x;
    }
  }

  /** A new inode, held by the caller, before it has any link. */
  lemma Insert(slab: Slab, nodes: Nodes, pending: multiset<nat>, ino: nat, isDir: bool, v: nat)
    requires Inv(slab, nodes, pending) && ino !in slab && v !in nodes
    ensures Inv(slab[ino := Inode(isDir, 0, map[])], nodes[v := ino], pending)
  {
    var after := slab[ino := Inode(isDir, 0, map[])];
    OpenMore(nodes, v, ino);
    forall x, n | x in after && n in after[x].entries ensures PointsInside(after, x, n) {
      assert PointsInside(slab, x, n);
    }
    forall i | i in after
      ensures CountedAt(after, pending, i) && OpenOrEmpty(after, nodes[v := ino], i) && InUse(after, nodes[v := ino], i)
    {
      LinksFollowTree(slab, after, i);
      if i != ino {
        assert CountedAt(slab, pending, i) && OpenOrEmpty(slab, nodes, i) && InUse(slab, nodes, i);
      } else {
        NothingPointsOutside(slab, ino);
      }
    }
  }

  lemma NothingPointsOutside(slab: Slab, ino: nat)
    requires NoDangling(slab) && ino !in slab
    ensures Links(slab, ino) == {}
  {
    forall d, n | d in slab && n in slab[d].entries ensures slab[d].entries[n] != ino {
      assert PointsInside(slab, d, n);
    }
  }

  lemma OpenNode(slab: Slab, nodes: Nodes, pending: multiset<nat>, v: nat, i: nat)
    requires Inv(slab, nodes, pending) && i in slab && v !in nodes
    ensures Inv(slab, nodes[v := i], pending)
  {
    OpenMore(nodes, v, i);
    forall x | x in slab ensures OpenOrEmpty(slab, nodes[v := i], x) && InUse(slab, nodes[v := i], x) {
      assert OpenOrEmpty(slab, nodes, x) && InUse(slab, nodes, x);
    }
  }

  /** The end of `Drop for MemoryNode`, after its directory has been cleared: the slot goes
      exactly when this was the last node on an inode without links. */
  lemma CloseNode(slab: Slab, nodes: Nodes, pending: multiset<nat>, v: nat)
    requires Inv(slab, nodes, pending) && v in nodes && nodes[v] in slab && slab[nodes[v]].entries == map[]
    ensures var after := Released(slab, nodes - {v}, nodes[v], 0);
            Inv(after, nodes - {v}, pending) && SameTree(slab, after) && Shrinks(slab, after)
    ensures nodes[v] !in Released(slab, nodes - {v}, nodes[v], 0) <==>
              Links(slab, nodes[v]) == {} && pending[nodes[v]] == 0 && !Open(nodes - {v}, nodes[v])
  {
    assert CountedAt(slab, pending, nodes[v]);
    OpenLess(nodes, v);
    forall x | x in slab ensures OpenOrEmpty(slab, nodes - {v}, x) && (x != nodes[v] ==> InUse(slab, nodes - {v}, x)) {
      assert OpenOrEmpty(slab, nodes, x) && InUse(slab, nodes, x);
    }
    assert pending == pending[nodes[v] := pending[nodes[v]] + 0];
    ReleaseKeeps(slab, nodes - {v}, pending, pending, nodes[v], 0);
  }

  /** Between calls an inode's slot is taken exactly while an entry or an open node refers to it,
      and its link count is the number of those entries. */
  lemma LivesWhileReferenced(slab: Slab, nodes: Nodes, i: nat)
    requires Inv(slab, nodes, multiset{})
    ensures i in slab <==> Links(slab, i) != {} || Open(nodes, i)
    ensures i in slab ==> slab[i].nlink == |Links(slab, i)|
  {
    if i in slab {
      assert InUse(slab, nodes, i) && CountedAt(slab, multiset{}, i);
    } else {
      NothingPointsOutside(slab, i);
    }
  }

  /** The release of a reference frees the slot exactly when it is the last reference of any
      kind: no entry, no other pending reference, no open node. The counter does not underflow. */
  lemma FreedAtLastRelease(slab: Slab, nodes: Nodes, pending: multiset<nat>, t: nat)
    requires Inv(slab, nodes, pending) && t in pending
    ensures t in slab && slab[t].nlink >= 1
    ensures t !in Released(slab, nodes, t, 1) <==> Links(slab, t) == {} && pending[t] == 1 && !Open(nodes, t)
  {
    assert CountedAt(slab, pending, t);
  }

  // ---- The filesystem ----

  datatype Error = NotADirectory | AlreadyExists | NotFound | DirectoryNotEmpty
                 | SelfLock          // the directory's own mutex is locked again, which panics

  datatype Result = Done | Opened(node: nat) | Err(error: Error)

  /** How the directory-entry cache answers the lookup inside `rename`: with an open node, or by
      asking the directory and keeping or dropping the node it got. */
  datatype Cache = Hit(node: nat) | Miss(keep: bool)

  /** Directory d has the given entries now; every other directory has what it had. */
  ghost predicate TreeIs(before: Slab, after: Slab, d: nat, entries: map<string, nat>) {
    forall x :: Entries(after, x) == if x == d then entries else Entries(before, x)
  }

  class MemoryFs {
    var slab: Slab
    var nodes: Nodes
    var nextNode: nat

    ghost predicate Sound(pending: multiset<nat>) reads this {
      Inv(slab, nodes, pending) && forall v :: v in nodes ==> v < nextNode
    }

    /** Between calls: link counts agree with the directories, entries and open nodes refer to
        existing inodes only, and every inode is linked or open. */
    ghost predicate Valid() reads this { Sound(multiset{}) }

    /** `release_inode` */
    method ReleaseInode(t: nat, n: nat)
      requires t in slab && n <= slab[t].nlink
      modifies `slab
      ensures slab == Released(old(slab), nodes, t, n)
    {
      var nlink := slab[t].nlink - n;
      if nlink == 0 && !Open(nodes, t) { slab := slab - {t}; }
      else { slab := slab[t := slab[t].(nlink := nlink)]; }
    }

    /** `Drop for InodeRef` */
    method DropRef(t: nat, ghost pending: multiset<nat>)
      requires Sound(pending) && t in pending
      modifies `slab
      ensures Sound(pending - multiset{t}) && SameTree(old(slab), slab) && Shrinks(old(slab), slab)
    {
      var rest := pending - multiset{t};
      assert pending == rest[t := rest[t] + 1];
      ReleaseKeeps(slab, nodes, pending, rest, t, 1);
      ReleaseInode(t, 1);
    }

    /** `InodeRef::new` and its insertion into a directory. */
    method AddEntry(d: nat, name: string, t: nat)
      requires Valid() && d in slab && slab[d].isDir && Open(nodes, d) && name !in slab[d].entries && t in slab
      modifies `slab
      ensures Valid() && slab.Keys == old(slab).Keys && (forall i :: i in slab ==> slab[i].isDir == old(slab)[i].isDir)
      ensures TreeIs(old(slab), slab, d, old(slab)[d].entries[name := t])
    {
      Take(slab, nodes, multiset{}, t);
      slab := Taken(slab, t);
      Attach(slab, nodes, multiset{} + multiset{t}, d, name, t);
      assert multiset{} + multiset{t} - multiset{t} == multiset{};
      slab := WithEntries(slab, d, slab[d].entries[name := t]);
    }

    /** An entry is taken out of a directory and its reference dropped. */
    method RemoveEntry(d: nat, name: string)
      requires Valid() && d in slab && name in slab[d].entries
      modifies `slab
      ensures Valid() && Shrinks(old(slab), slab) && TreeIs(old(slab), slab, d, old(slab)[d].entries - {name})
    {
      var t := slab[d].entries[name];
      Detach(slab, nodes, multiset{}, d, name);
      slab := WithEntries(slab, d, slab[d].entries - {name});
      DropRef(t, multiset{} + multiset{t});
      assert multiset{} + multiset{t} - multiset{t} == multiset{};
    }

    /** Clearing a directory drops its references one by one, in the hash map's order. */
    method ClearEntries(d: nat)
      requires Valid() && d in slab && Open(nodes, d)
      modifies `slab
      ensures Valid() && d in slab && Shrinks(old(slab), slab) && TreeIs(old(slab), slab, d, map[])
    {
      while slab[d].entries != map[]
        invariant Valid() && d in slab && Shrinks(old(slab), slab)
        invariant TreeIs(old(slab), slab, d, Entries(slab, d))
        decreases |slab[d].entries|
      {
        var name :| name in slab[d].entries;
        ghost var entries := slab[d].entries - {name};
        RemoveEntry(d, name);
        assert Entries(slab, d) == entries;
      }
    }

    /** `Drop for MemoryNode` */
    method DropNode(v: nat)
      requires Valid() && v in nodes
      modifies `slab, `nodes
      ensures Valid() && nodes == old(nodes) - {v} && Shrinks(old(slab), slab)
      ensures TreeIs(old(slab), slab, old(nodes)[v], map[])
    {
      var i := nodes[v];
      assert Open(nodes, i);
      if slab[i].isDir { ClearEntries(i); } else { assert OpenOrEmpty(slab, nodes, i); }
      assert Entries(slab, i) == map[];
      CloseNode(slab, nodes, multiset{}, v);
      nodes := nodes - {v};
      ReleaseInode(i, 0);
    }

    method NewNode(i: nat) returns (v: nat)
      requires Valid() && i in slab
      modifies `nodes, `nextNode
      ensures Valid() && v == old(nextNode) && v !in old(nodes) && nodes == old(nodes)[v := i]
    {
      v := nextNode;
      OpenNode(slab, nodes, multiset{}, v, i);
      nodes, nextNode := nodes[v := i], nextNode + 1;
    }

    /** `Inode::new`: a directory starts with its two own links. The new inode is held by the
        node that the caller wraps around it. */
    method NewInode(vacant: nat, parent: nat, isDir: bool) returns (v: nat)
      requires Valid() && vacant !in slab && (parent in slab || parent == vacant)
      modifies this
      ensures Valid() && v !in old(nodes) && nodes == old(nodes)[v := vacant] && nextNode == old(nextNode) + 1
      ensures slab.Keys == old(slab).Keys + {vacant} && slab[vacant].isDir == isDir
      ensures forall i :: i in old(slab) ==> slab[i].isDir == old(slab)[i].isDir
      ensures TreeIs(old(slab), slab, vacant, if isDir then map["." := vacant, ".." := parent] else map[])
    {
      v := nextNode;
      Insert(slab, nodes, multiset{}, vacant, isDir, v);
      OpenMore(nodes, v, vacant);
      slab := slab[vacant := Inode(isDir, 0, map[])];
      nodes, nextNode := nodes[v := vacant], nextNode + 1;
      if isDir {
        AddEntry(vacant, ".", vacant);
        assert Entries(slab, vacant) == map["." := vacant];
        AddEntry(vacant, "..", parent);
      }
    }

    /** `MemoryFs::new`: the root directory, open through the root entry. */
    constructor (vacant: nat)
      ensures Valid() && Entries(slab, vacant) == map["." := vacant, ".." := vacant]
      ensures slab.Keys == {vacant} && slab[vacant].isDir && slab[vacant].nlink == 2 && Open(nodes, vacant)
    {
      slab, nodes, nextNode := map[], map[], 0;
      new;
      var v := NewInode(vacant, vacant, true);
      assert nodes[v] == vacant;
      assert Entries(slab, vacant) == map["." := vacant, ".." := vacant];
      assert CountedAt(slab, multiset{}, vacant);
      assert Links(slab, vacant) == {(vacant, "."), (vacant, "..")};
    }

    ghost predicate IsDir(v: nat) reads this { v in nodes && nodes[v] in slab && slab[nodes[v]].isDir }

    method Lookup(v: nat, name: string) returns (r: Result)
      requires Valid() && v in nodes
      modifies `nodes, `nextNode
      ensures Valid()
      ensures r == if !IsDir(v) then Err(NotADirectory)
                   else if name !in Entries(slab, old(nodes)[v]) then Err(NotFound) else Opened(old(nextNode))
      ensures nodes == if r.Opened? then old(nodes)[r.node := Entries(slab, old(nodes)[v])[name]] else old(nodes)
    {
      var d := nodes[v];
      assert Open(nodes, d);
      if !slab[d].isDir { return Err(NotADirectory); }
      if name !in slab[d].entries { return Err(NotFound); }
      assert PointsInside(slab, d, name);
      var w := NewNode(slab[d].entries[name]);
      r := Opened(w);
    }

    method Create(v: nat, name: string, isDir: bool, vacant: nat) returns (r: Result)
      requires Valid() && v in nodes && vacant !in slab
      modifies this
      ensures Valid()
      ensures var d := old(nodes)[v];
              if !old(IsDir(v)) then r == Err(NotADirectory) && slab == old(slab) && nodes == old(nodes)
              else if name in old(slab)[d].entries
              then r == Err(AlreadyExists) && slab == old(slab) && nodes == old(nodes)
              else
                && r.Opened? && r.node !in old(nodes) && nodes == old(nodes)[r.node := vacant]
                && slab.Keys == old(slab).Keys + {vacant} && slab[vacant].isDir == isDir
                && Entries(slab, vacant) == (if isDir then map["." := vacant, ".." := d] else map[])
                && (forall x :: x != vacant ==>
                      Entries(slab, x) ==
                        if x == d then old(slab)[d].entries[name := vacant] else Entries(old(slab), x))
    {
      var d := nodes[v];
      assert Open(nodes, d);
      if !slab[d].isDir { return Err(NotADirectory); }
      if name in slab[d].entries { return Err(AlreadyExists); }
      var w := NewInode(vacant, d, isDir);
      assert nodes[v] == d;
      assert Entries(slab, d) == Entries(old(slab), d);
      AddEntry(d, name, vacant);
      r := Opened(w);
    }

    method Link(v: nat, name: string, target: nat) returns (r: Result)
      requires Valid() && v in nodes && target in nodes
      modifies this
      ensures Valid()
      ensures var d, t := old(nodes)[v], old(nodes)[target];
              if !old(IsDir(v)) then r == Err(NotADirectory) && slab == old(slab) && nodes == old(nodes)
              else if name in old(slab)[d].entries
              then r == Err(AlreadyExists) && slab == old(slab) && nodes == old(nodes)
              else if d == t then r == Err(SelfLock) && slab == old(slab) && nodes == old(nodes)
              else
                && r.Opened? && r.node !in old(nodes) && nodes == old(nodes)[r.node := t]
                && slab.Keys == old(slab).Keys && TreeIs(old(slab), slab, d, old(slab)[d].entries[name := t])
    {
      var d, t := nodes[v], nodes[target];
      assert Open(nodes, d) && Open(nodes, t);
      if !slab[d].isDir { return Err(NotADirectory); }
      if name in slab[d].entries { return Err(AlreadyExists); }
      if d == t { return Err(SelfLock); }
      AddEntry(d, name, t);
      var w := NewNode(t);
      r := Opened(w);
    }

    method Unlink(v: nat, name: string) returns (r: Result)
      requires Valid() && v in nodes
      modifies `slab
      ensures Valid()
      ensures var d := old(nodes)[v];
              if !old(IsDir(v)) then r == Err(NotADirectory) && slab == old(slab)
              else if name !in old(slab)[d].entries then r == Err(NotFound) && slab == old(slab)
              else var t := old(slab)[d].entries[name];
                   if t == d then r == Err(SelfLock) && slab == old(slab)
                   else if |Entries(old(slab), t)| > 2 then r == Err(DirectoryNotEmpty) && slab == old(slab)
                   else
                     && r == Done && Shrinks(old(slab), slab)
                     && TreeIs(old(slab), slab, d, old(slab)[d].entries - {name})
    {
      var d := nodes[v];
      assert Open(nodes, d);
      if !slab[d].isDir { return Err(NotADirectory); }
      if name !in slab[d].entries { return Err(NotFound); }
      var t := slab[d].entries[name];
      assert PointsInside(slab, d, name) && OpenOrEmpty(slab, nodes, t);
      if t == d { return Err(SelfLock); }
      if slab[t].isDir && |slab[t].entries| > 2 { return Err(DirectoryNotEmpty); }
      RemoveEntry(d, name);
      r := Done;
    }

    /** Insertion of a detached reference; a replaced entry's reference is dropped. */
    method Install(e: nat, name: string, t: nat)
      requires Sound(multiset{t}) && e in slab && slab[e].isDir && Open(nodes, e)
      modifies `slab
      ensures Valid() && Shrinks(old(slab), slab) && TreeIs(old(slab), slab, e, old(slab)[e].entries[name := t])
    {
      if name !in slab[e].entries {
        Attach(slab, nodes, multiset{t}, e, name, t);
        slab := WithEntries(slab, e, slab[e].entries[name := t]);
        assert multiset{t} - multiset{t} == multiset{};
        return;
      }
      ghost var entries := slab[e].entries[name := t];
      var o := slab[e].entries[name];
      Detach(slab, nodes, multiset{t}, e, name);
      slab := WithEntries(slab, e, slab[e].entries - {name});
      Attach(slab, nodes, multiset{t} + multiset{o}, e, name, t);
      assert multiset{t} + multiset{o} - multiset{t} == multiset{o};
      slab := WithEntries(slab, e, slab[e].entries[name := t]);
      assert slab[e].entries == entries;
      DropRef(o, multiset{o});
      assert multiset{o} - multiset{o} == multiset{};
    }

    /** The second half of `rename`: the entry leaves one directory and enters the other. */
    method Move(v: nat, srcName: string, u: nat, dstName: string) returns (r: Result)
      requires Valid() && v in nodes && u in nodes
      modifies `slab
      ensures Valid() && Shrinks(old(slab), slab)
      ensures Transferred(old(slab), old(nodes)[v], srcName, old(nodes)[u], dstName, r, slab)
    {
      var d, e := nodes[v], nodes[u];
      assert Open(nodes, d) && Open(nodes, e);
      if !slab[d].isDir { return Err(NotADirectory); }
      if srcName !in slab[d].entries { return Err(NotFound); }
      var t := slab[d].entries[srcName];
      Detach(slab, nodes, multiset{}, d, srcName);
      assert multiset{} + multiset{t} == multiset{t};
      slab := WithEntries(slab, d, slab[d].entries - {srcName});
      if !slab[e].isDir {
        DropRef(t, multiset{t});
        assert multiset{t} - multiset{t} == multiset{};
        return Err(NotADirectory);
      }
      Install(e, dstName, t);
      r := Done;
    }

    /** The destination name is found before anything moves. */
    ghost predicate FindsTarget(u: nat, dstName: string, cache: Cache)
      requires u in nodes
      reads this
    {
      cache.Hit? || (IsDir(u) && dstName in Entries(slab, nodes[u]))
    }

    /** The inode found under the destination name. */
    ghost function Target(u: nat, dstName: string, cache: Cache): nat
      requires u in nodes && FindsTarget(u, dstName, cache) && (cache.Hit? ==> cache.node in nodes)
      reads this
    {
      if cache.Hit? then nodes[cache.node] else Entries(slab, nodes[u])[dstName]
    }

    ghost predicate HasSource(v: nat, srcName: string)
      requires v in nodes
      reads this
    {
      IsDir(v) && srcName in Entries(slab, nodes[v])
    }

    /** The inodes whose node `rename` opens for the comparison and drops again. */
    ghost function Dropped(v: nat, srcName: string, u: nat, dstName: string, cache: Cache): set<nat>
      requires v in nodes && u in nodes && (cache.Hit? ==> cache.node in nodes)
      reads this
    {
      if !FindsTarget(u, dstName, cache) then {}
      else (if HasSource(v, srcName) then {Entries(slab, nodes[v])[srcName]} else {})
           + (if cache == Miss(false) then {Target(u, dstName, cache)} else {})
    }

    /** Both names already lead to the same inode. */
    ghost predicate SameInode(v: nat, srcName: string, u: nat, dstName: string, cache: Cache)
      requires v in nodes && u in nodes && (cache.Hit? ==> cache.node in nodes)
      reads this
    {
      FindsTarget(u, dstName, cache) && HasSource(v, srcName)
      && Entries(slab, nodes[v])[srcName] == Target(u, dstName, cache)
    }

    /** The lookup of the destination name through the cache. */
    method FindTarget(u: nat, dstName: string, cache: Cache) returns (found: bool, drop: bool, w: nat)
      requires Valid() && u in nodes && (cache.Hit? ==> cache.node in nodes)
      modifies `nodes, `nextNode
      ensures Valid() && found == old(FindsTarget(u, dstName, cache)) && drop == (found && cache == Miss(false))
      ensures found ==> w in nodes && nodes[w] == old(Target(u, dstName, cache))
      ensures found && cache.Miss? ==> w == old(nextNode) && w !in old(nodes) && nodes - {w} == old(nodes)
      ensures found && cache.Miss? ==> forall x :: x in old(nodes) ==> x in nodes && nodes[x] == old(nodes)[x]
      ensures !(found && cache.Miss?) ==> nodes == old(nodes)
    {
      found, drop, w := false, false, 0;
      if cache.Hit? { return true, false, cache.node; }
      assert Open(nodes, nodes[u]);
      var l := Lookup(u, dstName);
      if l.Opened? { found, drop, w := true, !cache.keep, l.node; }
    }

    /** `rename`. The nodes looked up for the comparison are dropped again, and dropping a node on
        a directory empties it. */
    method Rename(v: nat, srcName: string, u: nat, dstName: string, cache: Cache) returns (r: Result)
      requires Valid() && v in nodes && u in nodes && (cache.Hit? ==> cache.node in nodes)
      modifies this
      ensures Valid() && Shrinks(old(slab), slab)
      ensures nodes == old(nodes) || (cache == Miss(true) && nodes - {old(nextNode)} == old(nodes))
      ensures !old(FindsTarget(u, dstName, cache)) ==> nodes == old(nodes)
      ensures Renamed(old(slab), old(Dropped(v, srcName, u, dstName, cache)),
                      old(SameInode(v, srcName, u, dstName, cache)),
                      old(nodes)[v], srcName, old(nodes)[u], dstName, r, slab)
      ensures r == Done && !old(SameInode(v, srcName, u, dstName, cache)) ==>
                (Moved(old(slab), slab, old(nodes)[v], srcName, old(nodes)[u], dstName) <==>
                 Harmless(old(slab), old(Dropped(v, srcName, u, dstName, cache)), old(nodes)[u], dstName))
    {
      ghost var before, gone := slab, Dropped(v, srcName, u, dstName, cache);
      var d, e := nodes[v], nodes[u];
      assert Open(nodes, d) && Open(nodes, e);
      var found, drop, w := FindTarget(u, dstName, cache);
      if found {
        var same;
        r, same := Compare(v, srcName, w, drop);
        assert ClearedTree(before, slab, gone);
        if r.Err? || same { return; }
      }
      assert Open(nodes, nodes[v]) && Open(nodes, nodes[u]);
      ghost var mid := slab;
      r := Move(v, srcName, u, dstName);
      TransferAfterClear(before, gone, mid, d, srcName, e, dstName, r, slab);
      if r == Done { RenameMovesIff(before, gone, false, d, srcName, e, dstName, slab); }
    }

    /** The comparison in `rename`: the source is looked up without the cache, and the nodes are
        dropped at the end of the block. */
    method Compare(v: nat, srcName: string, w: nat, drop: bool) returns (r: Result, same: bool)
      requires Valid() && v in nodes && w in nodes
      modifies this
      ensures Valid() && Shrinks(old(slab), slab)
      ensures nodes == if drop then old(nodes) - {w} else old(nodes)
      ensures r == if !old(IsDir(v)) then Err(NotADirectory)
                   else if !old(HasSource(v, srcName)) then Err(NotFound) else Done
      ensures same <==> r == Done && Entries(old(slab), old(nodes)[v])[srcName] == old(nodes)[w]
      ensures ClearedTree(old(slab), slab, (if r == Done then {Entries(old(slab), old(nodes)[v])[srcName]} else {})
                                           + (if drop then {old(nodes)[w]} else {}))
    {
      r := Lookup(v, srcName);
      same := false;
      if r.Opened? {
        same := nodes[r.node] == nodes[w];
        DropNode(r.node);
        r := Done;
      }
      if drop { DropNode(w); }
    }
  }

  /** The directories in `gone` have no entries now, and every other has what it had. */
  ghost predicate ClearedTree(before: Slab, after: Slab, gone: set<nat>) {
    forall x :: Entries(after, x) == Surviving(before, gone, x)
  }

  ghost function Surviving(before: Slab, gone: set<nat>, x: nat): map<string, nat> {
    if x in gone then map[] else Entries(before, x)
  }

  /** What inode x holds after the entry `srcName` of d, and no other, has become the entry
      `dstName` of e, given what d, e and x held. */
  ghost function MovedEntries(x: nat, held: map<string, nat>, d: nat, srcName: string, e: nat, dstName: string, t: nat)
    : map<string, nat>
  {
    var rest := if x == d then held - {srcName} else held;
    if x == e then rest[dstName := t] else rest
  }

  /** The entry `srcName` of d is now the entry `dstName` of e, and no other entry changed. */
  ghost predicate Moved(before: Slab, after: Slab, d: nat, srcName: string, e: nat, dstName: string) {
    && srcName in Entries(before, d)
    && var t := Entries(before, d)[srcName];
       forall x :: Entries(after, x) == MovedEntries(x, Entries(before, x), d, srcName, e, dstName, t)
  }

  /** The same, from a tree whose directories in `gone` have been emptied on the way. */
  ghost predicate MovedFrom(before: Slab, gone: set<nat>, after: Slab, d: nat, srcName: string, e: nat, dstName: string)
  {
    && srcName in Entries(before, d)
    && var t := Entries(before, d)[srcName];
       forall x :: Entries(after, x) == MovedEntries(x, Surviving(before, gone, x), d, srcName, e, dstName, t)
  }

  ghost predicate HasDir(slab: Slab, d: nat) { d in slab && slab[d].isDir }

  /** The second half of `rename` on the tree, and its result. */
  ghost predicate Transferred(before: Slab, d: nat, srcName: string, e: nat, dstName: string, r: Result, after: Slab) {
    if !HasDir(before, d) then r == Err(NotADirectory) && SameTree(before, after)
    else if srcName !in Entries(before, d) then r == Err(NotFound) && SameTree(before, after)
    else if !HasDir(before, e) then r == Err(NotADirectory) && TreeIs(before, after, d, Entries(before, d) - {srcName})
    else r == Done && Moved(before, after, d, srcName, e, dstName)
  }

  /** The whole effect of `rename` on the tree, and its result, when the nodes of the inodes in
      `gone` are dropped on the way. */
  ghost predicate Renamed(before: Slab, gone: set<nat>, same: bool, d: nat, srcName: string, e: nat, dstName: string,
                          r: Result, after: Slab)
  {
    if !HasDir(before, d) then r == Err(NotADirectory) && ClearedTree(before, after, gone)
    else if srcName !in Entries(before, d) then r == Err(NotFound) && ClearedTree(before, after, gone)
    else if same then r == Done && ClearedTree(before, after, gone)
    else if d in gone then r == Err(NotFound) && ClearedTree(before, after, gone)
    else if !HasDir(before, e) then
      && r == Err(NotADirectory)
      && forall x :: Entries(after, x) == if x == d then Entries(before, d) - {srcName} else Surviving(before, gone, x)
    else r == Done && MovedFrom(before, gone, after, d, srcName, e, dstName)
  }

  lemma TransferAfterClear(before: Slab, gone: set<nat>, mid: Slab, d: nat, srcName: string, e: nat, dstName: string,
                           r: Result, after: Slab)
    requires ClearedTree(before, mid, gone) && Shrinks(before, mid) && d in mid && e in mid
    requires gone == {} || (HasDir(before, d) && srcName in Entries(before, d))
    requires Transferred(mid, d, srcName, e, dstName, r, after)
    ensures Renamed(before, gone, false, d, srcName, e, dstName, r, after)
  {
    assert Entries(mid, d) == Surviving(before, gone, d);
    if SameTree(mid, after) {
      forall x ensures Entries(after, x) == Surviving(before, gone, x) {
        assert Entries(after, x) == Entries(mid, x);
      }
    }
  }

  /** Nothing is lost when the nodes of the inodes in `gone` are dropped: these have no entries,
      save for the entry of e that is replaced anyway. */
  ghost predicate Harmless(before: Slab, gone: set<nat>, e: nat, dstName: string) {
    forall x :: x in gone ==> Spare(Entries(before, x), x == e, dstName)
  }

  ghost predicate Spare(held: map<string, nat>, replaced: bool, name: string) {
    held == map[] || (replaced && held.Keys == {name})
  }

  lemma SpareOrLost(held: map<string, nat>, x: nat, d: nat, srcName: string, e: nat, dstName: string, t: nat)
    requires x != d
    ensures MovedEntries(x, map[], d, srcName, e, dstName, t) == MovedEntries(x, held, d, srcName, e, dstName, t)
            <==> Spare(held, x == e, dstName)
  {
    if x == e {
      var none: map<string, nat> := map[];
      assert none[dstName := t].Keys == {dstName};
      assert held[dstName := t].Keys == held.Keys + {dstName};
      if held.Keys <= {dstName} {
        assert held[dstName := t] == none[dstName := t];
        assert held.Keys == {} ==> held == map[];
      }
    }
  }

  /** A successful rename between different inodes moves the entry and nothing else exactly when
      no non-empty directory's node is dropped on the way. When both names already lead to one
      inode nothing moves, and nothing is lost exactly when that inode is no non-empty
      directory. */
  lemma RenameMovesIff(before: Slab, gone: set<nat>, same: bool, d: nat, srcName: string, e: nat, dstName: string,
                       after: Slab)
    requires Renamed(before, gone, same, d, srcName, e, dstName, Done, after)
    ensures !same ==> (Moved(before, after, d, srcName, e, dstName) <==> Harmless(before, gone, e, dstName))
    ensures same ==> (SameTree(before, after) <==> forall x :: x in gone ==> Entries(before, x) == map[])
  {
    if same { return; }
    var t := Entries(before, d)[srcName];
    forall x
      ensures Entries(after, x) == MovedEntries(x, Entries(before, x), d, srcName, e, dstName, t)
              <==> x !in gone || Spare(Entries(before, x), x == e, dstName)
    {
      assert Entries(after, x) == MovedEntries(x, Surviving(before, gone, x), d, srcName, e, dstName, t);
      if x in gone { SpareOrLost(Entries(before, x), x, d, srcName, e, dstName, t); }
    }
  }

  /** A root with a directory "a" that holds a file "f", and a file "b". */
  method SmallTree() returns (fs: MemoryFs, root: nat, file: nat)
    ensures fresh(fs) && fs.Valid() && root in fs.nodes && fs.nodes[root] == 0
    ensures file in fs.nodes && fs.nodes[file] == 3
    ensures fs.slab.Keys == {0, 1, 2, 3} && fs.slab[0].isDir && fs.slab[1].isDir && !fs.slab[3].isDir
    ensures Entries(fs.slab, 0) == map["." := 0, ".." := 0, "a" := 1, "b" := 3]
    ensures Entries(fs.slab, 1) == map["." := 1, ".." := 0, "f" := 2] && Entries(fs.slab, 3) == map[]
  {
    fs := new MemoryFs(0);
    root :| root in fs.nodes && fs.nodes[root] == 0;
    assert "a" !in fs.slab[0].entries;
    var a := fs.Create(root, "a", true, 1);
    assert Entries(fs.slab, 0) == map["." := 0, ".." := 0, "a" := 1] && OpenOrEmpty(fs.slab, fs.nodes, 0);
    assert fs.IsDir(a.node) && "f" !in fs.slab[1].entries;
    var f := fs.Create(a.node, "f", false, 2);
    assert Entries(fs.slab, 0) == map["." := 0, ".." := 0, "a" := 1] && OpenOrEmpty(fs.slab, fs.nodes, 0);
    assert Entries(fs.slab, 1) == map["." := 1, ".." := 0, "f" := 2] && OpenOrEmpty(fs.slab, fs.nodes, 1);
    assert fs.IsDir(root) && "b" !in fs.slab[0].entries;
    var b := fs.Create(root, "b", false, 3);
    file := b.node;
    assert OpenOrEmpty(fs.slab, fs.nodes, 0) && OpenOrEmpty(fs.slab, fs.nodes, 1);
  }

  /** The directory "a" is renamed to the name of the file "b". Whether the entry cache has "b", or
      looks it up and keeps it, or looks it up and drops it, "a" arrives empty. */
  method RenameCanEmptyADirectory(cached: bool, keep: bool) returns (before: Slab, fs: MemoryFs)
    ensures Entries(before, 0) == map["." := 0, ".." := 0, "a" := 1, "b" := 3]
    ensures Entries(before, 1) == map["." := 1, ".." := 0, "f" := 2]
    ensures fs.Valid() && Renamed(before, if cached || keep then {1} else {1, 3}, false, 0, "a", 0, "b", Done, fs.slab)
    ensures Entries(fs.slab, 0) == map["." := 0, ".." := 0, "b" := 1] && Entries(fs.slab, 1) == map[]
    ensures !Moved(before, fs.slab, 0, "a", 0, "b")
  {
    var root, file;
    fs, root, file := SmallTree();
    before := fs.slab;
    var cache := if cached then Hit(file) else Miss(keep);
    ghost var gone := if cached || keep then {1} else {1, 3};
    assert fs.Dropped(root, "a", root, "b", cache) == gone;
    var r := fs.Rename(root, "a", root, "b", cache);
    assert Entries(before, 1) != map[] by { assert "f" in Entries(before, 1); }
    RenameMovesIff(before, gone, false, 0, "a", 0, "b", fs.slab);
  }

  datatype Call =
    | CallLookup(node: nat, name: string)
    | CallCreate(node: nat, name: string, isDir: bool, vacant: nat)
    | CallLink(node: nat, name: string, target: nat)
    | CallUnlink(node: nat, name: string)
    | CallRename(node: nat, srcName: string, dst: nat, dstName: string, cache: Cache)
    | CallDrop(node: nat)

  /** Calls that a holder of open nodes can make. */
  predicate Possible(c: Call, slab: Slab, nodes: Nodes) {
    && c.node in nodes
    && (c.CallCreate? ==> c.vacant !in slab)
    && (c.CallLink? ==> c.target in nodes)
    && (c.CallRename? ==> c.dst in nodes && (c.cache.Hit? ==> c.cache.node in nodes))
  }

  /** Every run from an empty filesystem keeps the accounts. */
  method Session(root: nat, calls: seq<Call>) returns (fs: MemoryFs)
    ensures fs.Valid()
    ensures forall i :: i in fs.slab <==> Links(fs.slab, i) != {} || Open(fs.nodes, i)
    ensures forall i :: i in fs.slab ==> fs.slab[i].nlink == |Links(fs.slab, i)|
  {
    fs := new MemoryFs(root);
    for k := 0 to |calls|
      invariant fs.Valid() && fresh(fs)
    {
      if Possible(calls[k], fs.slab, fs.nodes) {
        var r;
        match calls[k] {
          case CallLookup(node, name) => r := fs.Lookup(node, name);
          case CallCreate(node, name, isDir, vacant) => r := fs.Create(node, name, isDir, vacant);
          case CallLink(node, name, target) => r := fs.Link(node, name, target);
          case CallUnlink(node, name) => r := fs.Unlink(node, name);
          case CallRename(node, srcName, dst, dstName, cache) => r := fs.Rename(node, srcName, dst, dstName, cache);
          case CallDrop(node) => fs.DropNode(node);
        }
      }
    }
    forall i
      ensures i in fs.slab <==> Links(fs.slab, i) != {} || Open(fs.nodes, i)
      ensures i in fs.slab ==> fs.slab[i].nlink == |Links(fs.slab, i)|
    {
      LivesWhileReferenced(fs.slab, fs.nodes, i);
    }
  }
}
