/** The file tree that the file manager works on, and its recursive copy (handlers/file.go). A path is the
    sequence of its names; symbolic links, permissions and owners are not modelled. Every operating system
    call may fail. */
module FileTree {

  type Path = seq<string>

  datatype Node = File(data: string) | Dir

  type Nodes = map<Path, Node>

  function Parent(p: Path): Path
    requires p != []
  {
    p[..|p| - 1]
  }

  /** Every node but the root lies in a directory. */
  ghost predicate Closed(t: Nodes) {
    forall p :: p in t && p != [] ==> Parent(p) in t && t[Parent(p)].Dir?
  }

  /** Neither path contains the other. */
  predicate Apart(a: Path, b: Path) {
    !(a <= b) && !(b <= a)
  }

  /** No node below `src` has its counterpart below `src`: either neither path contains the other, or the
      place in `src` that a copy up to the ancestor `dest` would reach does not exist. */
  predicate Clear(t: Nodes, src: Path, dest: Path) {
    dest < src ==> src + src[|dest|..] !in t
  }

  /** The path below `to` that corresponds to `p` below `from`. */
  function Rebase(p: Path, from: Path, to: Path): Path
    requires from <= p
  {
    to + p[|from|..]
  }

  /** A copy of `src` to `dest` meets no obstacle: there is a directory to put it in, and what is there
      already is of the same kind, files only when they may be replaced. */
  ghost predicate Fits(t: Nodes, src: Path, dest: Path, overwrite: bool)
    requires dest != []
  {
    && src in t && Parent(dest) in t && t[Parent(dest)].Dir?
    && forall p :: p in t && src <= p && Rebase(p, src, dest) in t ==>
         if t[p].Dir? then t[Rebase(p, src, dest)].Dir? else overwrite && t[Rebase(p, src, dest)].File?
  }

  // ---------- How one tree compares with another ----------

  ghost predicate SameAt(a: Nodes, b: Nodes, p: Path) {
    (p in a <==> p in b) && (p in a ==> a[p] == b[p])
  }

  ghost predicate SameUnder(a: Nodes, b: Nodes, root: Path) {
    forall p :: root <= p ==> (p in a <==> p in b) && (p in a ==> b[p] == a[p])
  }

  /** Nothing that existed outside `root` has changed. */
  ghost predicate KeptOutside(a: Nodes, b: Nodes, root: Path) {
    forall p :: p in a && !(root <= p) ==> p in b && b[p] == a[p]
  }

  /** Nothing that existed has changed. */
  ghost predicate Kept(a: Nodes, b: Nodes) {
    forall p :: p in a ==> p in b && b[p] == a[p]
  }

  /** Every node below `src` has its equal below `dest`. */
  ghost predicate Copied(a: Nodes, b: Nodes, src: Path, dest: Path) {
    forall p :: p in a && src <= p ==> Rebase(p, src, dest) in b && b[Rebase(p, src, dest)] == a[p]
  }

  /** What existed below `dest` without a counterpart below `src` is unchanged. */
  ghost predicate ExtrasKept(a: Nodes, b: Nodes, src: Path, dest: Path) {
    forall p :: p in a && dest <= p && Rebase(p, dest, src) !in a ==> p in b && b[p] == a[p]
  }

  /** The content is in a file that did not exist before. */
  ghost predicate Saved(a: Nodes, b: Nodes, n: Node) {
    exists s :: s !in a && s in b && b[s] == n
  }

  /** A node that existed below `dest` is unchanged; or it was a file that has been replaced by its
      counterpart, or put aside when that failed. */
  ghost predicate Survives(a: Nodes, b: Nodes, src: Path, dest: Path, p: Path)
    requires p in a && dest <= p
  {
    (p in b && b[p] == a[p])
    || (var q := Rebase(p, dest, src);
        a[p].File? && q in a && a[q].File? && ((p in b && b[p] == a[q]) || Saved(a, b, a[p])))
  }

  ghost predicate NothingLost(a: Nodes, b: Nodes, src: Path, dest: Path) {
    forall p :: p in a && dest <= p ==> Survives(a, b, src, dest, p)
  }

  /** New paths lie on the way to `dest`, below it, or beside it. */
  ghost predicate NewNear(a: Nodes, b: Nodes, dest: Path)
    requires dest != []
  {
    forall p :: p in b && p !in a ==> p <= dest || dest <= p || (p != [] && Parent(p) == Parent(dest))
  }

  /** New paths lie on the way to `dest`, or beside `dest` or in a place that the source has a directory for. */
  ghost predicate NewInShadow(a: Nodes, b: Nodes, src: Path, dest: Path)
    requires dest != []
  {
    forall p :: p in b && p !in a ==>
      p <= dest || (p != [] && (Parent(p) == Parent(dest) || (dest <= Parent(p) && Rebase(Parent(p), dest, src) in a)))
  }

  /** New paths are copies, or directories on the way to `dest`. */
  ghost predicate NewAreCopies(a: Nodes, b: Nodes, src: Path, dest: Path) {
    forall p :: p in b && p !in a ==>
      (dest <= p && Rebase(p, dest, src) in a) || (p < dest && b[p].Dir?)
  }

  /** `reliable`: no operating system call fails. */
  class Disk {
    const reliable: bool
    var nodes: Nodes

    ghost predicate Valid()
      reads this
    {
      Closed(nodes)
    }

    constructor (nodes: Nodes, reliable: bool)
      requires Closed(nodes)
      ensures Valid() && this.nodes == nodes && this.reliable == reliable
    {
      this.nodes, this.reliable := nodes, reliable;
    }

    method Attempt() returns (ok: bool)
      ensures reliable ==> ok
    {
      ok := *;
      if reliable { ok := true; }
    }

    /** os.MkdirAll: missing ancestors come first; a failure may leave some of them. */
    method MkdirAll(dest: Path) returns (ok: bool)
      requires Valid()
      modifies this
      ensures Valid() && Kept(old(nodes), nodes)
      ensures forall p :: p in nodes && p !in old(nodes) ==> p <= dest && nodes[p].Dir?
      ensures ok ==> dest in nodes && nodes[dest].Dir?
      ensures reliable && (forall q :: q in old(nodes) && q <= dest ==> old(nodes)[q].Dir?) ==> ok
    {
      if dest in nodes { return nodes[dest].Dir?; }
      ok := true;
      if dest != [] {
        assert forall q :: q in nodes && q <= Parent(dest) ==> q <= dest;
        ok := MkdirAll(Parent(dest));
        if !ok { return; }
      }
      ok := Attempt();
      assert dest != [] ==> !(dest <= Parent(dest));
      if ok { nodes := nodes[dest := Dir]; }
    }

    /** copyFileNoOverwrite: a failed copy is removed again, if that works. */
    method CopyNew(src: Path, dest: Path) returns (ok: bool)
      requires Valid() && src in nodes && nodes[src].File? && dest !in nodes && dest != []
      modifies this
      ensures Valid() && Kept(old(nodes), nodes)
      ensures forall p :: p in nodes && p !in old(nodes) ==> p == dest
      ensures ok ==> nodes == old(nodes)[dest := old(nodes)[src]]
      ensures reliable && Parent(dest) in old(nodes) && old(nodes)[Parent(dest)].Dir? ==> ok
    {
      ok := Attempt();
      if !ok || Parent(dest) !in nodes || nodes[Parent(dest)].File? { return false; }
      ok := Attempt();
      if ok {
        nodes := nodes[dest := nodes[src]];
      } else {
        var removed: bool := *;
        var part: string := *;
        if !removed { nodes := nodes[dest := File(part)]; }
      }
    }

    /** A name not yet taken beside `dest`, for a temporary or a backup file. */
    method Sidecar(dest: Path) returns (s: Path)
      requires dest != []
      ensures s !in nodes && s != [] && Parent(s) == Parent(dest)
    {
      var name := ".";
      s := Parent(dest) + [name];
      ghost var seen: set<Path> := {};
      while s in nodes
        invariant s != [] && Parent(s) == Parent(dest) && s == Parent(dest) + [name]
        invariant seen <= nodes.Keys && forall p :: p in seen ==> |p| == |dest| && |p[|p| - 1]| < |name|
        decreases nodes.Keys - seen
      {
        seen := seen + {s};
        name := name + "0";
        s := Parent(dest) + [name];
      }
    }

    /** The first half of copyFileOverwrite: the new content, complete, in a temporary file. */
    method WriteTemp(content: Node, dest: Path) returns (ok: bool, tmp: Path)
      requires Valid() && content.File? && dest in nodes && dest != []
      modifies this
      ensures Valid() && tmp != [] && Parent(tmp) == Parent(dest) && tmp !in old(nodes)
      ensures ok ==> nodes == old(nodes)[tmp := content]
      ensures !ok ==> Kept(old(nodes), nodes) && forall p :: p in nodes && p !in old(nodes) ==> p == tmp
      ensures reliable ==> ok
    {
      tmp := Sidecar(dest);
      ok := Attempt();
      if !ok { return; }
      var part: string := *;
      nodes := nodes[tmp := File(part)];
      ok := Attempt();  // copy, close, chmod
      if ok {
        nodes := nodes[tmp := content];
      } else {
        var _ := DropFile(tmp);
      }
    }

    /** os.Rename of a file over a name beside it, free or held by a file. */
    method RenameBeside(p: Path, q: Path) returns (ok: bool)
      requires Valid() && p in nodes && nodes[p].File? && p != q && p != [] && q != [] && Parent(p) == Parent(q)
      requires q in nodes ==> nodes[q].File?
      modifies this
      ensures Valid() && nodes == (if ok then old(nodes)[q := old(nodes)[p]] - {p} else old(nodes))
      ensures reliable ==> ok
    {
      ok := Attempt();
      FilesHaveNoChildren(nodes, p);
      if ok { nodes := nodes[q := nodes[p]] - {p}; }
    }

    /** The second half: the old file is renamed to a backup, the temporary takes its place, and the backup
        goes. */
    method SwapIn(tmp: Path, dest: Path) returns (ok: bool, ghost tidy: bool, ghost backup: Path)
      requires Valid() && tmp in nodes && nodes[tmp].File? && dest in nodes && nodes[dest].File?
      requires tmp != dest && dest != [] && tmp != [] && Parent(tmp) == Parent(dest)
      modifies this
      ensures Valid() && backup !in old(nodes) && backup != [] && Parent(backup) == Parent(dest)
      ensures forall p :: p != tmp && p != dest && p != backup ==> SameAt(old(nodes), nodes, p)
      ensures SameAt(old(nodes), nodes, dest) || (dest in nodes && nodes[dest] == old(nodes)[tmp])
              || (backup in nodes && nodes[backup] == old(nodes)[dest])
      ensures ok ==> dest in nodes && nodes[dest] == old(nodes)[tmp] && tmp !in nodes
      ensures ok && tidy ==> backup !in nodes
      ensures reliable ==> ok && tidy
    {
      hide Closed;
      tidy := true;
      var saved := Sidecar(dest);
      backup := saved;
      ok := RenameBeside(dest, saved);
      if !ok {
        var _ := DropFile(tmp);
        return;
      }
      ok := RenameBeside(tmp, dest);
      if !ok {
        var _ := RenameBeside(saved, dest);
        var _ := DropFile(tmp);
        return;
      }
      tidy := DropFile(saved);
    }

    /** copyFileOverwrite. `tidy` is false when a sidecar was left behind. */
    method CopyOver(src: Path, dest: Path) returns (ok: bool, ghost tidy: bool)
      requires Valid() && src in nodes && nodes[src].File? && dest in nodes && nodes[dest].File? && dest != []
      requires src != dest
      modifies this
      ensures Valid() && KeptOutside(old(nodes), nodes, dest)
      ensures forall p :: p in nodes && p !in old(nodes) ==> p != [] && Parent(p) == Parent(dest)
      ensures SameAt(old(nodes), nodes, dest) || (dest in nodes && nodes[dest] == old(nodes)[src])
              || Saved(old(nodes), nodes, old(nodes)[dest])
      ensures ok ==> dest in nodes && nodes[dest] == old(nodes)[src]
      ensures ok && tidy ==> forall p :: p in nodes ==> p in old(nodes)
      ensures reliable ==> ok && tidy
    {
      tidy := true;
      ok := Attempt();
      if !ok { return; }
      var tmp;
      ok, tmp := WriteTemp(nodes[src], dest);
      if !ok { return; }
      ghost var mid, backup := nodes, [];
      ok, tidy, backup := SwapIn(tmp, dest);
      forall p | p in old(nodes) && !(dest <= p) ensures p in nodes && nodes[p] == old(nodes)[p] {
        assert p != tmp && p != backup && p != dest && SameAt(mid, nodes, p);
      }
      forall p | p in nodes && p !in old(nodes) ensures p == tmp || p == backup {
        assert p != tmp && p != backup && p != dest ==> SameAt(mid, nodes, p);
      }
    }

    /** os.Remove on a file, failures ignored. */
    method DropFile(p: Path) returns (gone: bool)
      requires Valid() && p in nodes && nodes[p].File?
      modifies this
      ensures Valid() && nodes == (if gone then old(nodes) - {p} else old(nodes))
      ensures reliable ==> gone
    {
      FilesHaveNoChildren(nodes, p);
      gone := Attempt();
      if gone { nodes := nodes - {p}; }
    }
  }

  lemma FilesHaveNoChildren(t: Nodes, p: Path)
    requires Closed(t) && p in t && t[p].File?
    ensures forall q :: q in t && q != [] ==> Parent(q) != p
  {
  }
}
