/** When the recursive copy of the file manager succeeds although it reaches into its own source
    (handlers/file.go): when no file ever meets a directory. */
module FileKinds {
  import opened FileTree
  import opened FileCopy

  /** Which paths are to be directories. */
  type Kinds = Path -> bool

  /** The nodes of both trees are of the kinds that `kinds` gives their paths, and it gives every path below
      the source the kind of its place below the destination. */
  ghost predicate Level(t: Nodes, src: Path, dest: Path, kinds: Kinds)
    requires dest != []
  {
    && src in t && !(src <= dest) && Parent(dest) in t && t[Parent(dest)].Dir?
    && (forall p :: src <= p ==> kinds(Rebase(p, src, dest)) == kinds(p))
    && (forall p :: p in t && (src <= p || dest <= p) ==> t[p].Dir? == kinds(p))
  }

  /** Nothing is gone or of another kind, and what is new lies below `dest` and is of its kind. */
  ghost predicate Grown(a: Nodes, b: Nodes, dest: Path, kinds: Kinds) {
    && (forall p :: p in a ==> p in b && b[p].Dir? == a[p].Dir?)
    && (forall p :: p in b && p !in a ==> dest <= p && b[p].Dir? == kinds(p))
  }

  lemma LevelRoot(t: Nodes, src: Path, dest: Path, kinds: Kinds)
    requires dest != [] && Level(t, src, dest, kinds)
    ensures kinds(dest) == kinds(src) == t[src].Dir?
    ensures dest in t ==> t[dest].Dir? == t[src].Dir?
  {
    assert Rebase(src, src, dest) == dest;
  }

  lemma LevelOnTheWay(t: Nodes, src: Path, dest: Path, kinds: Kinds)
    requires dest != [] && Closed(t) && Level(t, src, dest, kinds) && t[src].Dir?
    ensures forall q :: q in t && q <= dest ==> t[q].Dir?
  {
    hide Level;
    LevelRoot(t, src, dest, kinds);
    LevelParent(t, src, dest, kinds);
    forall q | q in t && q <= dest ensures t[q].Dir? {
      if q != dest {
        UpTo(q, dest);
        DirectoryAbove(t, q, Parent(dest));
      }
    }
  }

  lemma LevelParent(t: Nodes, src: Path, dest: Path, kinds: Kinds)
    requires dest != [] && Level(t, src, dest, kinds)
    ensures src in t && !(src <= dest) && Parent(dest) in t && t[Parent(dest)].Dir?
  {
  }

  lemma UpTo(q: Path, p: Path)
    requires q < p
    ensures q <= Parent(p)
  {
    assert Parent(p)[..|q|] == p[..|q|];
  }

  /** Everything above a directory is one. */
  lemma {:induction false} DirectoryAbove(t: Nodes, q: Path, p: Path)
    requires Closed(t) && p in t && t[p].Dir? && q <= p
    ensures q in t && t[q].Dir?
    decreases |p|
  {
    if q == p {
      assert q == p;
    } else {
      UpTo(q, p);
      DirectoryAbove(t, q, Parent(p));
    }
  }

  /** Making the destination of a directory. */
  lemma MadeGrown(a: Nodes, b: Nodes, src: Path, dest: Path, kinds: Kinds)
    requires dest != [] && Closed(a) && Level(a, src, dest, kinds) && a[src].Dir?
    requires Kept(a, b) && forall p :: p in b && p !in a ==> p <= dest && b[p].Dir?
    ensures Grown(a, b, dest, kinds)
  {
    hide Level, Closed;
    LevelRoot(a, src, dest, kinds);
    LevelParent(a, src, dest, kinds);
    forall p | p in b && p !in a ensures p == dest {
      if p != dest {
        UpTo(p, dest);
        DirectoryAbove(a, p, Parent(dest));
      }
    }
  }

  lemma SourceAbove(src: Path, dest: Path, name: string)
    requires Child(src, name) <= Child(dest, name)
    ensures src <= dest
  {
    var t := Child(dest, name);
    assert src == Child(src, name)[..|src|] == t[..|src|] == dest[..|src|];
  }

  /** The next entry meets no file in a directory's place or the other way round. */
  lemma LevelEntry(a: Nodes, b: Nodes, src: Path, dest: Path, kinds: Kinds, name: string)
    requires dest != [] && Level(a, src, dest, kinds) && Grown(a, b, dest, kinds)
    requires Child(src, name) in b && dest in b && b[dest].Dir?
    ensures Level(b, Child(src, name), Child(dest, name), kinds)
  {
    var s, t := Child(src, name), Child(dest, name);
    assert Parent(t) == dest;
    if s <= t { SourceAbove(src, dest, name); }
    forall p | s <= p ensures kinds(Rebase(p, s, t)) == kinds(p) {
      ChildRebase(p, dest, src, name);
    }
    forall p | p in b && (s <= p || t <= p) ensures b[p].Dir? == kinds(p) {
      if s <= p { PrefixTrans(src, s, p); } else { PrefixTrans(dest, t, p); }
    }
  }

  lemma GrownOn(a: Nodes, b: Nodes, c: Nodes, dest: Path, kinds: Kinds, name: string)
    requires Grown(a, b, dest, kinds) && Grown(b, c, Child(dest, name), kinds)
    ensures Grown(a, c, dest, kinds)
  {
    forall p | p in c && p !in a ensures dest <= p && c[p].Dir? == kinds(p) {
      if p !in b { PrefixTrans(dest, Child(dest, name), p); }
    }
  }

  /** A single file is then copied to a place apart from its own, where it fits. */
  lemma LevelFile(t: Nodes, src: Path, dest: Path, kinds: Kinds)
    requires dest != [] && Closed(t) && Level(t, src, dest, kinds) && t[src].File?
    ensures Apart(src, dest) && Fits(t, src, dest, true)
  {
    LevelRoot(t, src, dest, kinds);
    LevelFits(t, src, dest, kinds);
    if dest <= src {
      AncestorsPresent(t, src, dest);
      if dest != src { AboveIsDirectory(t, src, dest); }
    }
  }

  lemma AboveIsDirectory(t: Nodes, p: Path, q: Path)
    requires Closed(t) && p in t && q < p
    ensures q in t && t[q].Dir?
  {
    assert p != [] && Parent(p) in t && t[Parent(p)].Dir?;
    UpTo(q, p);
    DirectoryAbove(t, q, Parent(p));
  }

  lemma LevelFits(t: Nodes, src: Path, dest: Path, kinds: Kinds)
    requires dest != [] && Level(t, src, dest, kinds)
    ensures Fits(t, src, dest, true)
  {
    forall p | p in t && src <= p && Rebase(p, src, dest) in t
      ensures if t[p].Dir? then t[Rebase(p, src, dest)].Dir? else t[Rebase(p, src, dest)].File?
    {
      assert dest <= Rebase(p, src, dest);
      assert kinds(Rebase(p, src, dest)) == kinds(p);
    }
  }

  /** A merge without leftovers grows the destination. */
  lemma MergedGrown(a: Nodes, b: Nodes, src: Path, dest: Path, kinds: Kinds)
    requires dest != [] && Closed(a) && Level(a, src, dest, kinds)
    requires KeptOutside(a, b, dest) && Merged(a, b, src, dest, true)
    ensures Grown(a, b, dest, kinds)
  {
    hide Closed;
    LevelParent(a, src, dest, kinds);
    forall p | p in b && p !in a ensures dest <= p && b[p].Dir? == kinds(p) {
      if p < dest {
        UpTo(p, dest);
        AncestorsPresent(a, Parent(dest), p);
      } else {
        var q := Rebase(p, dest, src);
        assert q[|src|..] == p[|dest|..];
        assert Rebase(q, src, dest) == p && src <= q;
      }
    }
  }
}
