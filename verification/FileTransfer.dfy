/** The copy that merges directories, and the handlers that move and copy items between directories of one
    site or of two (handlers/file.go). */
module FileTransfer {
  import opened FileTree
  import opened FileCopy
  import opened FileKinds

  /** The depth of the deepest node. */
  ghost function Deepest(ps: set<Path>): (m: nat)
    ensures forall p :: p in ps ==> |p| <= m
  {
    if ps == {} then 0
    else
      var p :| p in ps;
      var m := Deepest(ps - {p});
      if |p| > m then |p| else m
  }

  /** os.ReadDir. */
  method ReadDir(d: Disk, dir: Path) returns (ok: bool, names: seq<string>)
    ensures forall i, j :: 0 <= i < j < |names| ==> names[i] != names[j]
    ensures ok ==> forall name :: name in names <==> Child(dir, name) in d.nodes
    ensures d.reliable ==> ok
  {
    names := [];
    ok := d.Attempt();
    if !ok { return; }
    var children := set p | p in d.nodes && |p| == |dir| + 1 && dir <= p;
    ghost var all := children;
    while children != {}
      invariant children <= all
      invariant forall i, j :: 0 <= i < j < |names| ==> names[i] != names[j]
      invariant forall name :: name in names <==> Child(dir, name) in all && Child(dir, name) !in children
      decreases |children|
    {
      var p :| p in children;
      children := children - {p};
      assert p == Child(dir, p[|dir|]);
      names := names + [p[|dir|]];
    }
    forall name ensures name in names <==> Child(dir, name) in d.nodes {
      assert dir <= Child(dir, name);
    }
  }

  /** copyFileOrDirWithOverwrite. Unless the copy reaches into its own source, a success leaves the
      destination the merge of both trees, source files winning; and whatever happens, the source and
      everything outside the destination is unchanged, every file already there is unchanged, replaced by
      its counterpart or put aside beside it, and without overwrite nothing that existed changes at all.
      The recursion ends for every source and destination: no step makes the tree deeper than `m`. */
  method CopyTree(d: Disk, srcBase: Path, destBase: Path, src: Path, dest: Path, overwrite: bool, ghost m: nat,
                  ghost kinds: Kinds)
    returns (ok: bool, ghost tidy: bool)
    requires d.Valid() && dest != []
    requires Depth(d.nodes, src, m) && (dest < src ==> Depth(d.nodes, [], m))
    modifies d
    ensures d.Valid() && Promised(old(d.nodes), d.nodes, src, dest, overwrite, m)
    ensures ok ==> src in old(d.nodes) && !(src <= dest)
    ensures ok && Clear(old(d.nodes), src, dest) ==> Merged(old(d.nodes), d.nodes, src, dest, tidy)
    ensures src !in old(d.nodes) || src <= dest ==> !ok && d.nodes == old(d.nodes)
    ensures d.reliable && srcBase <= src && destBase <= dest && Apart(src, dest) &&
            Fits(old(d.nodes), src, dest, overwrite) ==>
              ok && tidy
    ensures d.reliable && overwrite && srcBase <= src && destBase <= dest && Level(old(d.nodes), src, dest, kinds) ==>
              ok && Grown(old(d.nodes), d.nodes, dest, kinds)
    decreases m - |src|, 2
  {
    hide Closed, Harmless, Contained, Shallow, Merged, Fits, Level, Grown;
    ghost var a := d.nodes;
    ghost var even := d.reliable && overwrite && srcBase <= src && destBase <= dest && Level(a, src, dest, kinds);
    if even { LevelParent(a, src, dest, kinds); }
    FitsSource(a, src, dest, overwrite);
    tidy := true;
    NothingDone(a, src, dest, overwrite, m);
    if !(srcBase <= src) || !(destBase <= dest) || src == dest { return false, true; }
    ok := d.Attempt();
    if !ok || src !in d.nodes { return false, true; }
    if d.nodes[src].Dir? {
      if src <= dest { return false, true; }
      ok, tidy := CopyDir(d, srcBase, destBase, src, dest, overwrite, m, kinds);
      return;
    }
    ok := d.Attempt();
    if !ok { return; }
    if even { LevelFile(a, src, dest, kinds); }
    ok, tidy := CopyFile(d, src, dest, overwrite, m);
    if even { FileGrown(a, d.nodes, src, dest, kinds, m); }
  }

  lemma FileGrown(a: Nodes, b: Nodes, src: Path, dest: Path, kinds: Kinds, m: nat)
    requires dest != [] && Closed(a) && Level(a, src, dest, kinds)
    requires Promised(a, b, src, dest, true, m) && Merged(a, b, src, dest, true)
    ensures Grown(a, b, dest, kinds)
  {
    MergedGrown(a, b, src, dest, kinds);
  }

  /** The case of a single file. */
  method CopyFile(d: Disk, src: Path, dest: Path, overwrite: bool, ghost m: nat) returns (ok: bool, ghost tidy: bool)
    requires d.Valid() && dest != [] && src in d.nodes && d.nodes[src].File? && src != dest && |src| <= m
    modifies d
    ensures d.Valid() && Promised(old(d.nodes), d.nodes, src, dest, overwrite, m)
    ensures ok ==> Apart(src, dest) && Merged(old(d.nodes), d.nodes, src, dest, tidy)
    ensures src <= dest ==> d.nodes == old(d.nodes)
    ensures d.reliable && Apart(src, dest) && Fits(old(d.nodes), src, dest, overwrite) ==> ok && tidy
  {
    hide Closed, Harmless, Contained, Merged;
    assert Rebase(src, src, dest) == dest;
    ghost var a := d.nodes;
    tidy := true;
    NothingDone(a, src, dest, overwrite, m);
    if src <= dest { return false, true; }  // a path through a file
    FileSubtree(a, src);
    if dest in d.nodes {
      if d.nodes[dest].Dir? { return false, true; }
      if !overwrite { return false, true; }
      FileSubtree(a, dest);
      ok, tidy := d.CopyOver(src, dest);
      CopyOverHarmless(a, d.nodes, src, dest);
      HarmlessIsContained(a, d.nodes, src, dest, overwrite);
      if ok { CopiedFile(a, d.nodes, src, dest, tidy); }
    } else {
      NothingBelow(a, dest);
      ok := d.CopyNew(src, dest);
      CopyNewHarmless(a, d.nodes, src, dest, overwrite);
      HarmlessIsContained(a, d.nodes, src, dest, overwrite);
      if ok { CopiedFile(a, d.nodes, src, dest, tidy); }
    }
  }

  lemma {:induction false} FileSubtree(t: Nodes, p: Path)
    requires Closed(t) && p in t && t[p].File?
    ensures forall q :: q in t && p <= q ==> q == p
  {
    forall q | q in t && p <= q ensures q == p {
      if p != q {
        var r := StepBelow(p, q);
        AncestorsPresent(t, q, r);
      }
    }
  }

  /** The path one step below `p` on the way to `q`. */
  lemma StepBelow(p: Path, q: Path) returns (r: Path)
    requires p <= q && p != q
    ensures p < q && r != [] && r <= q && Parent(r) == p
  {
    assert p == q[..|p|] && q == q[..|q|];
    r := q[..|p| + 1];
    assert Parent(r) == q[..|p|] == p;
  }

  lemma NothingBelow(t: Nodes, p: Path)
    requires Closed(t) && p !in t
    ensures forall q :: q in t ==> !(p <= q)
  {
    forall q | q in t ensures !(p <= q) { if p <= q { AncestorsPresent(t, q, p); } }
  }

  lemma NewBesideIsNotUnder(a: Nodes, src: Path, dest: Path, p: Path)
    requires src in a && Apart(src, dest) && dest != []
    requires p !in a && p != [] && Parent(p) == Parent(dest)
    ensures !(src <= p)
  {
    if src <= p {
      var r := StepBelow(src, p);
    }
  }

  lemma CopyOverHarmless(a: Nodes, b: Nodes, src: Path, dest: Path)
    requires src in a && a[src].File? && dest in a && a[dest].File? && Apart(src, dest) && dest != []
    requires forall q :: q in a && dest <= q ==> q == dest
    requires KeptOutside(a, b, dest)
    requires forall p :: p in b && p !in a ==> p != [] && Parent(p) == Parent(dest)
    requires SameAt(a, b, dest) || (dest in b && b[dest] == a[src]) || Saved(a, b, a[dest])
    ensures Harmless(a, b, src, dest, true)
  {
    forall p | src <= p ensures (p in a <==> p in b) && (p in a ==> b[p] == a[p]) {
      if p in a {
        if dest <= p { PrefixesOf(src, dest, p); }
      } else if p in b {
        NewBesideIsNotUnder(a, src, dest, p);
      }
    }
    assert Rebase(dest, dest, src) == src;
    forall p | p in a && dest <= p ensures Survives(a, b, src, dest, p) { assert p == dest; }
  }

  lemma CopyNewHarmless(a: Nodes, b: Nodes, src: Path, dest: Path, overwrite: bool)
    requires src in a && Apart(src, dest) && dest != []
    requires forall q :: q in a ==> !(dest <= q)
    requires Kept(a, b) && forall p :: p in b && p !in a ==> p == dest
    ensures Harmless(a, b, src, dest, overwrite)
  {
  }

  lemma CopiedFile(a: Nodes, b: Nodes, src: Path, dest: Path, tidy: bool)
    requires forall q :: q in a && src <= q ==> q == src
    requires src in a && a[src].File? && dest in b && b[dest] == a[src] && (dest in a ==> a[dest].File?)
    requires forall q :: q in a && dest <= q ==> q == dest
    requires tidy ==> forall p :: p in b && p !in a ==> p == dest
    ensures Merged(a, b, src, dest, tidy)
  {
    assert Rebase(src, src, dest) == dest && Rebase(dest, dest, src) == src;
  }

  /** The case of a directory: its entries are merged one after the other. */
  method CopyDir(d: Disk, srcBase: Path, destBase: Path, src: Path, dest: Path, overwrite: bool, ghost m: nat,
                 ghost kinds: Kinds)
    returns (ok: bool, ghost tidy: bool)
    requires d.Valid() && dest != [] && src in d.nodes && d.nodes[src].Dir? && !(src <= dest)
    requires Depth(d.nodes, src, m) && (dest < src ==> Depth(d.nodes, [], m))
    modifies d
    ensures d.Valid() && Promised(old(d.nodes), d.nodes, src, dest, overwrite, m)
    ensures ok && Clear(old(d.nodes), src, dest) ==> Merged(old(d.nodes), d.nodes, src, dest, tidy)
    ensures d.reliable && srcBase <= src && destBase <= dest && Apart(src, dest) &&
            Fits(old(d.nodes), src, dest, overwrite) ==>
              ok && tidy
    ensures d.reliable && overwrite && srcBase <= src && destBase <= dest && Level(old(d.nodes), src, dest, kinds) ==>
              ok && Grown(old(d.nodes), d.nodes, dest, kinds)
    decreases m - |src|, 1
  {
    hide Closed, Fits, Promised, Merged, Midway, Contained, Harmless, Shallow, Clear, Depth, Level, Grown;
    ghost var a := d.nodes;
    tidy := true;
    NothingDone(a, src, dest, overwrite, m);
    ok := d.Attempt();
    if !ok { return; }
    ghost var easy := d.reliable && srcBase <= src && destBase <= dest && Apart(src, dest)
        && Fits(a, src, dest, overwrite);
    ghost var even := d.reliable && overwrite && srcBase <= src && destBase <= dest && Level(a, src, dest, kinds);
    if easy { FitsOnTheWay(a, src, dest, overwrite); }
    if even { LevelOnTheWay(a, src, dest, kinds); }
    if dest < src { AncestorsPresent(a, src, dest); }
    if dest in d.nodes {
      if d.nodes[dest].File? { return false, true; }
    } else {
      ok := d.MkdirAll(dest);
      Made(a, d.nodes, src, dest, overwrite, m);
      if !ok { return; }
    }
    ok := d.Attempt();  // chmod of a directory just made
    Made(a, d.nodes, src, dest, overwrite, m);
    if !ok { return; }
    var names;
    ok, names := ReadDir(d, src);
    if !ok { return; }
    NothingYet(a, d.nodes, src, dest, overwrite, names, m);
    if even { MadeGrown(a, d.nodes, src, dest, kinds); }
    ok, tidy := CopyEntries(d, srcBase, destBase, src, dest, overwrite, names, m, kinds, a, easy, even);
  }

  /** The loop over the entries of a directory. `easy` and `even` say which promise of success applies. */
  method CopyEntries(d: Disk, srcBase: Path, destBase: Path, src: Path, dest: Path, overwrite: bool, names: seq<string>,
                     ghost m: nat, ghost kinds: Kinds, ghost a: Nodes, ghost easy: bool, ghost even: bool)
    returns (ok: bool, ghost tidy: bool)
    requires d.Valid() && Closed(a) && dest != [] && src in a && !(src <= dest)
    requires Depth(a, src, m) && (dest < src ==> Depth(a, [], m))
    requires Midway(a, d.nodes, src, dest, overwrite, names, 0, true, m)
    requires easy ==>
               d.reliable && srcBase <= src && destBase <= dest && Apart(src, dest) && Fits(a, src, dest, overwrite)
    requires easy ==> a[src].Dir? && forall name :: name in names ==> Child(src, name) in a
    requires even ==> d.reliable && overwrite && srcBase <= src && destBase <= dest && Level(a, src, dest, kinds)
    requires even ==> Grown(a, d.nodes, dest, kinds) && Listed(d.nodes, src, dest, names)
    modifies d
    ensures d.Valid() && Promised(a, d.nodes, src, dest, overwrite, m)
    ensures ok && Clear(a, src, dest) ==> Merged(a, d.nodes, src, dest, tidy)
    ensures easy ==> ok && tidy
    ensures even ==> ok && Grown(a, d.nodes, dest, kinds)
    decreases m - |src|, 0
  {
    hide Closed, Fits, Promised, Merged, Midway, Contained, Harmless, Shallow, Clear, Depth, Level, Grown, Listed;
    tidy := true;
    var i := 0;
    while i < |names|
      invariant i <= |names|
      invariant d.Valid() && Midway(a, d.nodes, src, dest, overwrite, names, i, tidy, m)
      invariant easy ==> tidy
      invariant even ==> Grown(a, d.nodes, dest, kinds) && Listed(d.nodes, src, dest, names)
    {
      ghost var b := d.nodes;
      var s, t := Child(src, names[i]), Child(dest, names[i]);
      MidwayDepth(a, b, src, dest, overwrite, names, i, tidy, m);
      if easy { MidwayFits(a, b, srcBase, destBase, src, dest, overwrite, names, i, m); }
      ghost var stepTidy;
      if even { EntryIsLevel(a, b, srcBase, destBase, src, dest, kinds, names, i); }
      ok, stepTidy := CopyTree(d, srcBase, destBase, s, t, overwrite, m, kinds);
      if !ok {
        MidwayFails(a, b, d.nodes, src, dest, overwrite, names, i, tidy, m);
        return;
      }
      MidwayOn(a, b, d.nodes, src, dest, overwrite, names, i, tidy, stepTidy, m);
      if even { EntryGrown(a, b, d.nodes, src, dest, kinds, names, i); }
      tidy := tidy && stepTidy;
      i := i + 1;
    }
    MidwayEnds(a, d.nodes, src, dest, overwrite, names, tidy, m);
    ok := true;
  }

  // ---------- The loop over the entries ----------

  /** The entries that were read are still there, and so is the destination directory. */
  ghost predicate Listed(t: Nodes, src: Path, dest: Path, names: seq<string>) {
    dest in t && t[dest].Dir? && forall name :: name in names ==> Child(src, name) in t
  }

  lemma EntryIsLevel(a: Nodes, b: Nodes, srcBase: Path, destBase: Path, src: Path, dest: Path, kinds: Kinds,
      names: seq<string>, k: nat)
    requires dest != [] && k < |names| && Level(a, src, dest, kinds) && Grown(a, b, dest, kinds)
             && Listed(b, src, dest, names)
    requires srcBase <= src && destBase <= dest
    ensures Level(b, Child(src, names[k]), Child(dest, names[k]), kinds)
    ensures srcBase <= Child(src, names[k]) && destBase <= Child(dest, names[k])
  {
    hide Level, Grown;
    LevelEntry(a, b, src, dest, kinds, names[k]);
    PrefixTrans(srcBase, src, Child(src, names[k]));
    PrefixTrans(destBase, dest, Child(dest, names[k]));
  }

  lemma EntryGrown(a: Nodes, b: Nodes, c: Nodes, src: Path, dest: Path, kinds: Kinds, names: seq<string>, k: nat)
    requires k < |names| && Grown(a, b, dest, kinds) && Listed(b, src, dest, names)
    requires Grown(b, c, Child(dest, names[k]), kinds)
    ensures Grown(a, c, dest, kinds) && Listed(c, src, dest, names)
  {
    GrownOn(a, b, c, dest, kinds, names[k]);
  }

  /** The loop's invariant, for a destination apart from the source and for one that contains it. */
  ghost predicate Midway(a: Nodes, b: Nodes, src: Path, dest: Path, overwrite: bool, names: seq<string>, k: nat,
      tidy: bool, m: nat)
    requires dest != [] && k <= |names|
  {
    && !(src <= dest) && src in a
    && (forall i, j :: 0 <= i < j < |names| ==> names[i] != names[j])
    && Contained(a, b, dest, overwrite) && Shallow(a, b, src, dest, m)
    && (Clear(a, src, dest) ==>
          (forall name :: Child(src, name) in a ==> name in names)
              && PartlyMerged(a, b, src, dest, overwrite, names, k, tidy))
  }

  lemma PartlySource(a: Nodes, b: Nodes, src: Path, dest: Path, overwrite: bool, names: seq<string>, k: nat, tidy: bool)
    requires dest != [] && k <= |names| && PartlyMerged(a, b, src, dest, overwrite, names, k, tidy)
    ensures SameUnder(a, b, src)
  {
  }

  /** An entry's copy stays out of its source when the directory's does. */
  lemma ChildClear(a: Nodes, b: Nodes, src: Path, dest: Path, name: string)
    requires Closed(b) && SameUnder(a, b, src) && Clear(a, src, dest) && !(src <= dest)
    ensures Clear(b, Child(src, name), Child(dest, name))
  {
    var s, t := Child(src, name), Child(dest, name);
    SameClear(a, b, src, dest);
    if t < s {
      assert t == s[..|t|];
      if dest < src {
        var q := s + s[|t|..];
        assert Rebase(q, t, s) == s + (s + s[|t|..])[|t|..];
        ChildInner(src, dest, name);
        var inner := src + src[|dest|..];
        if q in b { AncestorsPresent(b, q, inner); }
      } else {
        ChildApart(src, dest, name, name, []);
      }
    }
  }

  lemma ChildInner(src: Path, dest: Path, name: string)
    requires dest < src && Child(dest, name) < Child(src, name)
    ensures src + src[|dest|..] <= Child(src, name) + Child(src, name)[|dest| + 1..]
  {
    var s, t := Child(src, name), Child(dest, name);
    assert s[|dest|] == t[|dest|] == name;
    assert src[|dest|] == s[|dest|];
    assert src[|dest|..] == [name] + src[|dest| + 1..];
    assert s[|dest| + 1..] == src[|dest| + 1..] + [name];
    assert s + s[|dest| + 1..] == src + src[|dest|..] + [name];
  }

  lemma FitsSource(t: Nodes, src: Path, dest: Path, overwrite: bool)
    requires dest != []
    ensures Fits(t, src, dest, overwrite) ==> src in t
  {
  }

  /** What is on the way to the destination, and the destination of a directory, are directories. */
  lemma FitsOnTheWay(t: Nodes, src: Path, dest: Path, overwrite: bool)
    requires dest != [] && Closed(t) && Fits(t, src, dest, overwrite) && t[src].Dir?
    ensures forall q :: q in t && q <= dest ==> t[q].Dir?
  {
    assert Rebase(src, src, dest) == dest;
    forall q | q in t && q <= dest ensures t[q].Dir? {
      if q != dest && q != Parent(dest) {
        assert q <= Parent(dest);
        var n := StepBelow(q, Parent(dest));
        AncestorsPresent(t, Parent(dest), n);
      }
    }
  }

  lemma MidwayFits(a: Nodes, b: Nodes, srcBase: Path, destBase: Path, src: Path, dest: Path, overwrite: bool,
      names: seq<string>, k: nat, m: nat)
    requires dest != [] && k < |names| && Midway(a, b, src, dest, overwrite, names, k, true, m)
    requires srcBase <= src && destBase <= dest && Apart(src, dest) && Fits(a, src, dest, overwrite) && a[src].Dir?
    requires Child(src, names[k]) in a
    ensures srcBase <= Child(src, names[k]) && destBase <= Child(dest, names[k])
    ensures Apart(Child(src, names[k]), Child(dest, names[k]))
    ensures Fits(b, Child(src, names[k]), Child(dest, names[k]), overwrite)
  {
    hide Contained, Shallow, PartlyMerged, Fits;
    ChildApart(src, dest, names[k], names[k], []);
    PrefixTrans(srcBase, src, Child(src, names[k]));
    PrefixTrans(destBase, dest, Child(dest, names[k]));
    StepFits(a, b, src, dest, overwrite, names, k);
  }

  lemma MidwayDepth(a: Nodes, b: Nodes, src: Path, dest: Path, overwrite: bool, names: seq<string>, k: nat,
      tidy: bool, m: nat)
    requires dest != [] && k < |names|
    requires Midway(a, b, src, dest, overwrite, names, k, tidy, m)
    requires Depth(a, src, m) && (dest < src ==> Depth(a, [], m))
    ensures |src| <= m
    ensures Depth(b, Child(src, names[k]), m)
    ensures Child(dest, names[k]) < Child(src, names[k]) ==> Depth(b, [], m)
  {
    hide PartlyMerged, Contained;
    if !(dest < src) { PartlySource(a, b, src, dest, overwrite, names, k, tidy); }
    EntryDepth(a, b, src, dest, names[k], m);
  }

  lemma MidwayFails(a: Nodes, b: Nodes, c: Nodes, src: Path, dest: Path, overwrite: bool, names: seq<string>, k: nat,
      tidy: bool, m: nat)
    requires dest != [] && k < |names| && Closed(b)
    requires Midway(a, b, src, dest, overwrite, names, k, tidy, m)
    requires Promised(b, c, Child(src, names[k]), Child(dest, names[k]), overwrite, m)
    ensures Promised(a, c, src, dest, overwrite, m)
  {
    hide Contained, Harmless, Shallow, PartlyMerged, Clear, Closed;
    StepShallow(a, b, c, src, dest, names[k], m);
    StepContained(a, b, c, dest, overwrite, names[k]);
    if Clear(a, src, dest) {
      PartlySource(a, b, src, dest, overwrite, names, k, tidy);
      ChildClear(a, b, src, dest, names[k]);
      StepHarmless(a, b, c, src, dest, overwrite, names, k, tidy);
    }
  }

  lemma MidwayOn(a: Nodes, b: Nodes, c: Nodes, src: Path, dest: Path, overwrite: bool, names: seq<string>, k: nat,
      tidy: bool, stepTidy: bool, m: nat)
    requires dest != [] && k < |names| && Closed(b)
    requires Midway(a, b, src, dest, overwrite, names, k, tidy, m)
    requires Promised(b, c, Child(src, names[k]), Child(dest, names[k]), overwrite, m)
    requires Clear(b, Child(src, names[k]), Child(dest, names[k])) ==>
               Merged(b, c, Child(src, names[k]), Child(dest, names[k]), stepTidy)
    ensures Midway(a, c, src, dest, overwrite, names, k + 1, tidy && stepTidy, m)
  {
    hide Contained, Harmless, Shallow, PartlyMerged, Merged, Closed, Clear;
    StepShallow(a, b, c, src, dest, names[k], m);
    StepContained(a, b, c, dest, overwrite, names[k]);
    if Clear(a, src, dest) {
      PartlySource(a, b, src, dest, overwrite, names, k, tidy);
      ChildClear(a, b, src, dest, names[k]);
      StepMerged(a, b, c, src, dest, overwrite, names, k, tidy, stepTidy);
    }
  }

  lemma MidwayEnds(a: Nodes, b: Nodes, src: Path, dest: Path, overwrite: bool, names: seq<string>, tidy: bool, m: nat)
    requires dest != [] && Closed(a)
    requires Midway(a, b, src, dest, overwrite, names, |names|, tidy, m)
    ensures Promised(a, b, src, dest, overwrite, m)
    ensures Clear(a, src, dest) ==> Merged(a, b, src, dest, tidy)
  {
    hide Contained, Harmless, Shallow, PartlyMerged, Merged, Closed, Clear;
    if Clear(a, src, dest) { AllMerged(a, b, src, dest, overwrite, names, tidy); }
  }

  lemma SourceUnchanged(a: Nodes, b: Nodes, src: Path)
    requires SameUnder(a, b, src)
    ensures forall name :: Child(src, name) in a <==> Child(src, name) in b
  {
    forall name ensures Child(src, name) in a <==> Child(src, name) in b { assert src <= Child(src, name); }
  }

  /** The destination directory is there, or its making failed. */
  lemma Made(a: Nodes, b: Nodes, src: Path, dest: Path, overwrite: bool, m: nat)
    requires src in a && Closed(a) && dest != [] && !(src <= dest) && Depth(a, src, m)
    requires Kept(a, b) && forall p :: p in b && p !in a ==> p <= dest && b[p].Dir?
    requires dest < src ==> b == a
    ensures Promised(a, b, src, dest, overwrite, m)
  {
    hide Harmless, Contained, Clear;
    if dest < src {
      NothingDone(a, src, dest, overwrite, m);
    } else {
      MadeHarmless(a, b, src, dest, overwrite);
      HarmlessIsContained(a, b, src, dest, overwrite);
      assert |src| <= m;
    }
  }

  lemma NothingYet(a: Nodes, b: Nodes, src: Path, dest: Path, overwrite: bool, names: seq<string>, m: nat)
    requires src in a && Closed(a) && dest != [] && !(src <= dest) && Depth(a, src, m)
    requires a[src].Dir? && dest in b && b[dest].Dir?
    requires Kept(a, b) && forall p :: p in b && p !in a ==> p <= dest && b[p].Dir?
    requires dest < src ==> b == a
    requires forall i, j :: 0 <= i < j < |names| ==> names[i] != names[j]
    requires forall name :: name in names <==> Child(src, name) in b
    ensures Midway(a, b, src, dest, overwrite, names, 0, true, m)
  {
    hide Harmless, Contained, PartlyMerged, Shallow, Clear;
    Made(a, b, src, dest, overwrite, m);
    if dest < src { NoChange(a, src, dest, overwrite); } else { MadeHarmless(a, b, src, dest, overwrite); }
    NothingMergedYet(a, b, src, dest, overwrite, names);
    SourceSame(a, b, src, dest, overwrite);
    SourceUnchanged(a, b, src);
  }

  lemma SourceSame(a: Nodes, b: Nodes, src: Path, dest: Path, overwrite: bool)
    requires dest != [] && Harmless(a, b, src, dest, overwrite)
    ensures SameUnder(a, b, src)
  {
  }

  /** Only directories on the way to `dest`, and `dest` itself, have been made. */
  lemma MadeHarmless(a: Nodes, b: Nodes, src: Path, dest: Path, overwrite: bool)
    requires src in a && Closed(a) && Apart(src, dest) && dest != []
    requires Kept(a, b) && forall p :: p in b && p !in a ==> p <= dest && b[p].Dir?
    ensures Harmless(a, b, src, dest, overwrite)
  {
    forall p | src <= p ensures (p in a <==> p in b) && (p in a ==> b[p] == a[p]) {
      if p in b && p !in a { PrefixTrans(src, p, dest); }
    }
  }

  lemma NothingMergedYet(a: Nodes, b: Nodes, src: Path, dest: Path, overwrite: bool, names: seq<string>)
    requires src in a && Closed(a) && dest != [] && !(src <= dest) && Harmless(a, b, src, dest, overwrite)
    requires a[src].Dir? && dest in b && b[dest].Dir?
    requires Kept(a, b) && forall p :: p in b && p !in a ==> p <= dest && b[p].Dir?
    ensures PartlyMerged(a, b, src, dest, overwrite, names, 0, true)
  {
    assert Rebase(dest, dest, src) == src;
    forall p | p in b && p !in a ensures (dest <= p && Rebase(p, dest, src) in a) || (p < dest && b[p].Dir?) {
      if p != dest { var r := StepBelow(p, dest); }
    }
  }
}
