/** The Move and Copy handlers (handlers/file.go): when no file is lost, whatever fails, and when one is. */
module FileHandlers {
  import opened GoStrings
  import opened FileTree
  import opened FileCopy
  import opened FileKinds
  import opened FileTransfer
  import opened FileMove

  /** The names whose ownership cannot be repaired after a cross-site copy, and those whose removal, at the
      source or at the destination, fails, possibly halfway. */
  datatype Faults = Faults(unrepaired: set<string>, resisting: set<string>)

  // ---------- The state of one item ----------

  ghost predicate KeptUnder(b: Nodes, c: Nodes, root: Path) {
    forall q :: q in b && root <= q ==> q in c && c[q] == b[q]
  }

  /** The item's source contains the destination directory: the item itself will be refused. */
  predicate Swallows(r: Request, i: Item) {
    Src(r, i) <= r.destDir
  }

  /** The item's source is as it was, but for what other items put into it. */
  ghost predicate Pending(t0: Nodes, t: Nodes, r: Request, i: Item) {
    KeptUnder(t0, t, Src(r, i)) && (!Swallows(r, i) ==> SameUnder(t0, t, Src(r, i)))
  }

  /** Everything that was below the source is below the destination. */
  ghost predicate Arrived(t0: Nodes, t: Nodes, r: Request, i: Item) {
    Copied(t0, t, Src(r, i), Dest(r, i))
  }

  /** Each node that was below the source is still there or at its place below the destination. */
  ghost predicate Conserved(t0: Nodes, t: Nodes, r: Request, i: Item) {
    forall p :: p in t0 && Src(r, i) <= p ==>
      (p in t && t[p] == t0[p])
          || (Rebase(p, Src(r, i), Dest(r, i)) in t && t[Rebase(p, Src(r, i), Dest(r, i))] == t0[p])
  }

  ghost predicate Open(t0: Nodes, t: Nodes, r: Request, i: Item) {
    Pending(t0, t, r, i) || Arrived(t0, t, r, i)
  }

  // ---------- When nothing can be lost ----------

  /** The copy of `i` reaches into the source of `j`. */
  predicate Reaches(t: Nodes, r: Request, i: Item, j: Item) {
    Dest(r, i) < Src(r, j) && Src(r, i) + Src(r, j)[|Dest(r, i)|..] in t
  }

  /** The items of a request that can lose nothing: no copy reaches into a source, and nothing is replaced
      inside another item's source. A name may come twice only if no path contains another. */
  ghost predicate Sound(t0: Nodes, r: Request, items: seq<Item>) {
    && (items != [] ==> r.srcDir != r.destDir)
    && (DistinctItems(items) || Separate(r, items))
    && (forall i :: i in items ==> Src(r, i) in t0 && (i.conflict <==> Dest(r, i) in t0))
    && (forall i, j :: i in items && j in items ==> !Reaches(t0, r, i, j))
    && (forall i, j :: i in items && j in items && i.name != j.name && Src(r, j) < Dest(r, i) ==> !i.conflict)
  }

  /** The same of the request itself, as it comes in. */
  ghost predicate SoundRequest(t0: Nodes, r: Request) {
    && (SeparateRequest(r) || DistinctNames(r.names))
    && forall m, n :: m in r.names && n in r.names ==>
         var i, j := Named(t0, r, m), Named(t0, r, n);
         !Reaches(t0, r, i, j) && (i.name != j.name && Src(r, j) < Dest(r, i) ==> !i.conflict)
  }

  function Named(t0: Nodes, r: Request, n: string): Item {
    Item(TrimSpace(n), Child(r.destDir, TrimSpace(n)) in t0)
  }

  /** Every item is that of a requested name. */
  ghost predicate Itemised(t0: Nodes, r: Request, items: seq<Item>) {
    (forall i :: i in items ==> exists n :: n in r.names && i == Named(t0, r, n))
        && (DistinctNames(r.names) ==> DistinctItems(items))
  }

  /** No source contains a destination or lies in one. */
  ghost predicate Separate(r: Request, items: seq<Item>) {
    forall i, j :: i in items && j in items ==> Apart(Src(r, i), Dest(r, j))
  }

  ghost predicate SeparateRequest(r: Request) {
    forall m, n :: m in r.names && n in r.names ==>
      Apart(Child(r.srcDir, TrimSpace(m)), Child(r.destDir, TrimSpace(n)))
  }

  lemma ResolvedSound(t: Nodes, r: Request, res: Resolution)
    requires res.Resolved? && (res.items != [] ==> r.srcDir != r.destDir)
    requires forall i :: i in res.items ==> Src(r, i) in t && (i.conflict <==> Dest(r, i) in t)
    requires forall i :: i in res.items ==> exists n :: n in r.names && i.name == TrimSpace(n)
    requires DistinctNames(r.names) ==> DistinctItems(res.items)
    ensures SoundRequest(t, r) ==> Sound(t, r, res.items)
    ensures SeparateRequest(r) ==> Separate(r, res.items)
    ensures Itemised(t, r, res.items)
  {
    forall i | i in res.items ensures exists n :: n in r.names && i == Named(t, r, n) {
      var n :| n in r.names && i.name == TrimSpace(n);
      assert i == Named(t, r, n);
    }
    forall i, j | i in res.items && j in res.items
      ensures SoundRequest(t, r) ==>
              !Reaches(t, r, i, j) && (i.name != j.name && Src(r, j) < Dest(r, i) ==> !i.conflict)
      ensures SeparateRequest(r) ==> Apart(Src(r, i), Dest(r, j))
    {
      var m :| m in r.names && i.name == TrimSpace(m);
      var n :| n in r.names && j.name == TrimSpace(n);
      assert i == Named(t, r, m) && j == Named(t, r, n);
    }
  }

  // ---------- What happens to the others while one item moves ----------

  ghost predicate AllConserved(t0: Nodes, t: Nodes, r: Request, items: seq<Item>) {
    forall i :: i in items ==> Conserved(t0, t, r, i)
  }

  ghost predicate AllOpen(t0: Nodes, t: Nodes, r: Request, items: seq<Item>) {
    forall i :: i in items ==> Open(t0, t, r, i)
  }

  ghost predicate AllPending(t0: Nodes, t: Nodes, r: Request, items: seq<Item>) {
    forall i :: i in items ==> Pending(t0, t, r, i)
  }

  lemma OpenIsConserved(t0: Nodes, t: Nodes, r: Request, items: seq<Item>)
    requires AllOpen(t0, t, r, items)
    ensures AllConserved(t0, t, r, items)
  {
    forall i | i in items ensures Conserved(t0, t, r, i) {
      assert Open(t0, t, r, i);
    }
  }

  /** The two directories differ, so no source is a destination. */
  lemma SourceIsNoDest(r: Request, i: Item, j: Item)
    requires r.srcDir != r.destDir
    ensures Src(r, j) != Dest(r, i)
    ensures Src(r, j) < Dest(r, i) ==> Swallows(r, j)
    ensures Src(r, j) <= r.destDir ==> Src(r, j) < Dest(r, i)
  {
    var s, d := Src(r, j), Dest(r, i);
    assert Parent(s) == r.srcDir && Parent(d) == r.destDir;
    if s < d { UpToParent(s, d); }
    if s <= r.destDir { PrefixTrans(s, r.destDir, d); }
  }

  lemma UpToParent(s: Path, q: Path)
    requires s < q
    ensures s <= Parent(q)
  {
    assert Parent(q)[..|s|] == q[..|s|];
  }

  /** What a copy of `i` replaces does not lie below the source of `j`. */
  lemma NotReached(t0: Nodes, b: Nodes, r: Request, items: seq<Item>, i: Item, j: Item, p: Path)
    requires Closed(t0) && Sound(t0, r, items) && i in items && j in items && SameUnder(t0, b, Src(r, i))
    requires !(Src(r, j) < Dest(r, i)) && Src(r, j) <= p && Dest(r, i) <= p
    ensures Rebase(p, Dest(r, i), Src(r, i)) !in b
  {
    hide Closed, Sound;
    var s, d := Src(r, j), Dest(r, i);
    SoundItems(t0, r, items, i, j);
    SourceIsNoDest(r, i, j);
    PrefixesOf(s, d, p);
    assert d < s && !Reaches(t0, r, i, j);
    var z := Src(r, i) + s[|d|..];
    RebaseThrough(p, d, s, Src(r, i));
    if Rebase(p, d, Src(r, i)) in b { AncestorsPresent(t0, Rebase(p, d, Src(r, i)), z); }
  }

  /** Rebasing a path below `mid` passes through where `mid` goes. */
  lemma RebaseThrough(p: Path, from: Path, mid: Path, to: Path)
    requires from <= mid <= p
    ensures to + mid[|from|..] <= Rebase(p, from, to) && to <= Rebase(p, from, to)
  {
    assert Rebase(p, from, to) == to + mid[|from|..] + p[|mid|..];
  }

  /** A copy leaves the other items open. */
  lemma CopyOther(t0: Nodes, b: Nodes, c: Nodes, r: Request, items: seq<Item>, i: Item, j: Item)
    requires Closed(t0) && Sound(t0, r, items) && i in items && j in items && i.name != j.name
    requires SameUnder(t0, b, Src(r, i)) && Harmless(b, c, Src(r, i), Dest(r, i), i.conflict)
    ensures Pending(t0, b, r, j) ==> Pending(t0, c, r, j)
    ensures Arrived(t0, b, r, j) ==> Arrived(t0, c, r, j)
  {
    if Pending(t0, b, r, j) { CopyOtherPending(t0, b, c, r, items, i, j); }
    forall p | Arrived(t0, b, r, j) && p in t0 && Src(r, j) <= p
      ensures Rebase(p, Src(r, j), Dest(r, j)) in c && c[Rebase(p, Src(r, j), Dest(r, j))] == t0[p]
    {
      ChildrenApart(r.destDir, j.name, i.name, Rebase(p, Src(r, j), Dest(r, j)));
    }
  }

  lemma CopyOtherPending(t0: Nodes, b: Nodes, c: Nodes, r: Request, items: seq<Item>, i: Item, j: Item)
    requires Closed(t0) && Sound(t0, r, items) && i in items && j in items && i.name != j.name
    requires SameUnder(t0, b, Src(r, i)) && Harmless(b, c, Src(r, i), Dest(r, i), i.conflict)
    requires Pending(t0, b, r, j)
    ensures Pending(t0, c, r, j)
  {
    hide Sound, NothingLost, Closed;
    var s, d := Src(r, j), Dest(r, i);
    SoundItems(t0, r, items, i, j);
    SourceIsNoDest(r, i, j);
    if s < d {
      assert Kept(b, c);
    } else {
      forall p | p in b && s <= p ensures p in c && c[p] == b[p] {
        if d <= p { NotReached(t0, b, r, items, i, j, p); }
      }
      forall p | p in c && s <= p ensures p in b {
        if p !in b { NothingNewBelow(t0, b, c, r, items, i, j, p); }
      }
    }
  }

  lemma SoundItems(t0: Nodes, r: Request, items: seq<Item>, i: Item, j: Item)
    requires Sound(t0, r, items) && i in items && j in items
    ensures r.srcDir != r.destDir && Src(r, i) in t0 && Src(r, j) in t0 && (i.conflict <==> Dest(r, i) in t0)
    ensures !Reaches(t0, r, i, j)
    ensures i.name != j.name && Src(r, j) < Dest(r, i) ==> !i.conflict
  {
  }

  lemma NothingNewBelow(t0: Nodes, b: Nodes, c: Nodes, r: Request, items: seq<Item>, i: Item, j: Item, p: Path)
    requires Closed(t0) && Sound(t0, r, items) && i in items && j in items
    requires SameUnder(t0, b, Src(r, i)) && NewInShadow(b, c, Src(r, i), Dest(r, i))
    requires Src(r, j) in b && !(Src(r, j) < Dest(r, i)) && Src(r, j) <= p && p !in b
    ensures p !in c
  {
    var s, d := Src(r, j), Dest(r, i);
    SourceIsNoDest(r, i, j);
    assert p != s && Parent(d) == r.destDir;
    UpToParent(s, p);
    if p <= d { PrefixTrans(s, p, d); }
    if d <= Parent(p) { NotReached(t0, b, r, items, i, j, Parent(p)); }
  }

  /** A rename leaves the other items open. */
  lemma RenameOther(t0: Nodes, b: Nodes, c: Nodes, r: Request, items: seq<Item>, i: Item, j: Item)
    requires Closed(t0) && Sound(t0, r, items) && i in items && j in items && i.name != j.name && !i.conflict
    requires Apart(Src(r, i), Dest(r, i)) && Renamed(b, c, Src(r, i), Dest(r, i))
    ensures Pending(t0, b, r, j) ==> Pending(t0, c, r, j)
    ensures Arrived(t0, b, r, j) ==> Arrived(t0, c, r, j)
  {
    hide Sound, Closed;
    var s, d := Src(r, i), Dest(r, i);
    SoundItems(t0, r, items, i, j);
    SourceIsNoDest(r, i, j);
    SourceIsNoDest(r, j, i);
    if Pending(t0, b, r, j) {
      forall p | Src(r, j) <= p ensures !(s <= p) && (p in t0 || !Swallows(r, j) ==> !(d <= p)) {
        ChildrenApart(r.srcDir, j.name, i.name, p);
        if d <= p { BelowFree(t0, r, i, j, p); }
      }
    }
    forall p | Arrived(t0, b, r, j) && p in t0 && Src(r, j) <= p
      ensures Rebase(p, Src(r, j), Dest(r, j)) in c && c[Rebase(p, Src(r, j), Dest(r, j))] == t0[p]
    {
      ArrivalIsSafe(t0, r, items, i, j, p);
      ChildrenApart(r.destDir, j.name, i.name, Rebase(p, Src(r, j), Dest(r, j)));
    }
  }

  /** A free destination below another item's source: nothing was there, and that item will be refused. */
  lemma BelowFree(t0: Nodes, r: Request, i: Item, j: Item, p: Path)
    requires Closed(t0) && r.srcDir != r.destDir && Dest(r, i) !in t0 && Apart(Src(r, i), Dest(r, i))
    requires Src(r, j) <= p && Dest(r, i) <= p
    ensures p !in t0 && Swallows(r, j)
  {
    var s, d := Src(r, j), Dest(r, i);
    SourceIsNoDest(r, i, j);
    PrefixesOf(s, d, p);
    if p in t0 { AncestorsPresent(t0, p, d); }
    if d < s {
      UpToParent(d, s);
      PrefixTrans(d, r.srcDir, Src(r, i));
    }
  }

  /** What has arrived for `j` does not lie below the source of `i`, unless `i` contains the destination. */
  lemma ArrivalIsSafe(t0: Nodes, r: Request, items: seq<Item>, i: Item, j: Item, p: Path)
    requires Closed(t0) && Sound(t0, r, items) && i in items && j in items && !(Src(r, i) < Dest(r, i))
    requires p in t0 && Src(r, j) <= p
    ensures !(Src(r, i) <= Rebase(p, Src(r, j), Dest(r, j)))
  {
    hide Sound, Closed;
    var s, d, q := Src(r, i), Dest(r, j), Rebase(p, Src(r, j), Dest(r, j));
    SoundItems(t0, r, items, j, i);
    SourceIsNoDest(r, i, i);
    SourceIsNoDest(r, j, i);
    if s <= q {
      PrefixesOf(s, d, q);
      var z := Src(r, j) + s[|d|..];
      assert q[|d|..] == p[|Src(r, j)|..];
      assert p == Src(r, j) + q[|d|..];
      assert q[|d|..] == s[|d|..] + q[|s|..];
      assert p == z + q[|s|..];
      AncestorsPresent(t0, p, z);
    }
  }

  /** Removing a source that has arrived leaves all items open. */
  lemma RemoveOther(t0: Nodes, b: Nodes, c: Nodes, r: Request, items: seq<Item>, i: Item, j: Item)
    requires Closed(t0) && Sound(t0, r, items) && i in items && j in items && !(Src(r, i) < Dest(r, i))
    requires OnlyRemoved(b, c, Src(r, i))
    ensures i.name != j.name && Pending(t0, b, r, j) ==> Pending(t0, c, r, j)
    ensures Arrived(t0, b, r, j) ==> Arrived(t0, c, r, j)
  {
    hide Sound, Closed;
    if i.name != j.name {
      forall p | p in b && Src(r, j) <= p ensures !(Src(r, i) <= p) { ChildrenApart(r.srcDir, j.name, i.name, p); }
    }
    forall p | Arrived(t0, b, r, j) && p in t0 && Src(r, j) <= p
      ensures Rebase(p, Src(r, j), Dest(r, j)) in c && c[Rebase(p, Src(r, j), Dest(r, j))] == t0[p]
    {
      ArrivalIsSafe(t0, r, items, i, j, p);
    }
  }

  /** Removing a destination where nothing was leaves the sources pending. */
  lemma UndoOther(t0: Nodes, b: Nodes, c: Nodes, r: Request, items: seq<Item>, i: Item, j: Item)
    requires Closed(t0) && Sound(t0, r, items) && i in items && j in items && !i.conflict
    requires OnlyRemoved(b, c, Dest(r, i)) && Pending(t0, b, r, j)
    ensures Pending(t0, c, r, j)
  {
    hide Sound, Closed;
    var s, d := Src(r, j), Dest(r, i);
    SoundItems(t0, r, items, i, j);
    SourceIsNoDest(r, i, j);
    forall p | s <= p && d <= p ensures p !in t0 && Swallows(r, j) {
      PrefixesOf(s, d, p);
      if p in t0 { AncestorsPresent(t0, p, d); }
      if d <= s { AncestorsPresent(t0, s, d); }
    }
  }

  // ---------- The rest of the tree ----------

  /** What existed below no item's source or destination. */
  ghost predicate ElsewhereKept(t0: Nodes, t: Nodes, r: Request, items: seq<Item>) {
    forall q :: q in t0 && (forall i :: i in items ==> !(Src(r, i) <= q) && !(Dest(r, i) <= q)) ==>
        q in t && t[q] == t0[q]
  }

  /** What existed below no item's source, and at a destination only without a counterpart at the source. */
  ghost predicate Spared(t0: Nodes, t: Nodes, r: Request, items: seq<Item>) {
    forall q :: q in t0 && Extra(t0, r, items, q) ==> q in t && t[q] == t0[q]
  }

  ghost predicate Extra(t0: Nodes, r: Request, items: seq<Item>, q: Path) {
    forall i :: i in items ==>
      !(Src(r, i) <= q) && (Dest(r, i) <= q ==> Rebase(q, Dest(r, i), Src(r, i)) !in t0)
  }

  /** A step that changes nothing that existed outside `src` and `dest`. */
  ghost predicate Local(b: Nodes, c: Nodes, src: Path, dest: Path) {
    forall q :: q in b && !(src <= q) && !(dest <= q) ==> q in c && c[q] == b[q]
  }

  lemma LocalElsewhere(t0: Nodes, b: Nodes, c: Nodes, r: Request, items: seq<Item>, i: Item)
    requires ElsewhereKept(t0, b, r, items) && i in items && Local(b, c, Src(r, i), Dest(r, i))
    ensures ElsewhereKept(t0, c, r, items)
  {
  }

  lemma NothingElsewhere(t0: Nodes, r: Request, items: seq<Item>)
    ensures ElsewhereKept(t0, t0, r, items) && Spared(t0, t0, r, items)
    ensures AllPending(t0, t0, r, items) && AllOpen(t0, t0, r, items) && AllConserved(t0, t0, r, items)
  {
  }

  lemma ContainedIsLocal(b: Nodes, c: Nodes, src: Path, dest: Path, overwrite: bool)
    requires dest != [] && Contained(b, c, dest, overwrite)
    ensures Local(b, c, src, dest)
  {
  }

  lemma RemovalIsLocal(b: Nodes, c: Nodes, src: Path, dest: Path)
    requires OnlyRemoved(b, c, src) || OnlyRemoved(b, c, dest)
    ensures Local(b, c, src, dest)
  {
  }

  lemma RenameIsLocal(b: Nodes, c: Nodes, src: Path, dest: Path)
    requires Renamed(b, c, src, dest)
    ensures Local(b, c, src, dest)
  {
  }

  lemma LocalTrans(a: Nodes, b: Nodes, c: Nodes, src: Path, dest: Path)
    requires Local(a, b, src, dest) && Local(b, c, src, dest)
    ensures Local(a, c, src, dest)
  {
  }

  lemma CopySpares(t0: Nodes, b: Nodes, c: Nodes, r: Request, items: seq<Item>, i: Item)
    requires i in items && Spared(t0, b, r, items) && SameUnder(t0, b, Src(r, i))
    requires Harmless(b, c, Src(r, i), Dest(r, i), i.conflict)
    ensures Spared(t0, c, r, items)
  {
    forall q | q in t0 && Extra(t0, r, items, q) ensures q in c && c[q] == t0[q] {
      assert q in b && b[q] == t0[q];
      if Dest(r, i) <= q { assert Src(r, i) <= Rebase(q, Dest(r, i), Src(r, i)); }
    }
  }

  lemma RemovalSpares(t0: Nodes, b: Nodes, c: Nodes, r: Request, items: seq<Item>, i: Item)
    requires i in items && Spared(t0, b, r, items) && OnlyRemoved(b, c, Src(r, i))
    ensures Spared(t0, c, r, items)
  {
  }

  /** Where nothing was, nothing is spared. */
  lemma FreeSpares(t0: Nodes, b: Nodes, c: Nodes, r: Request, items: seq<Item>, i: Item)
    requires Closed(t0) && i in items && Dest(r, i) !in t0 && Spared(t0, b, r, items)
             && Local(b, c, Src(r, i), Dest(r, i))
    ensures Spared(t0, c, r, items)
  {
    hide Closed;
    forall q | q in t0 && Extra(t0, r, items, q) ensures q in c && c[q] == t0[q] {
      if Dest(r, i) <= q { AncestorsPresent(t0, q, Dest(r, i)); }
    }
  }

  // ---------- Steps of one item ----------

  lemma SameUnderTrans(a: Nodes, b: Nodes, c: Nodes, root: Path)
    requires SameUnder(a, b, root) && SameUnder(b, c, root)
    ensures SameUnder(a, c, root)
  {
  }

  lemma CopyArrives(t0: Nodes, b: Nodes, c: Nodes, r: Request, i: Item)
    requires KeptUnder(t0, b, Src(r, i)) && Copied(b, c, Src(r, i), Dest(r, i))
    ensures Arrived(t0, c, r, i)
  {
  }

  lemma RenameArrives(t0: Nodes, b: Nodes, c: Nodes, r: Request, i: Item)
    requires KeptUnder(t0, b, Src(r, i)) && Renamed(b, c, Src(r, i), Dest(r, i))
    ensures Arrived(t0, c, r, i)
  {
    var src, dest := Src(r, i), Dest(r, i);
    forall p | p in t0 && src <= p ensures Rebase(p, src, dest) in c && c[Rebase(p, src, dest)] == t0[p] {
      var q := Rebase(p, src, dest);
      assert q[|dest|..] == p[|src|..];
      assert Rebase(q, dest, src) == p;
    }
  }

  lemma RenameEmpties(b: Nodes, c: Nodes, src: Path, dest: Path)
    requires Apart(src, dest) && Renamed(b, c, src, dest)
    ensures Gone(c, src)
  {
    forall q | q in c ensures !(src <= q) {
      if dest <= q && src <= q { PrefixesOf(src, dest, q); }
    }
  }

  /** After the copy of `i` has reached into the source of `j`, and both sources are gone, a node that was below
      the source of `i` is in neither place. */
  lemma LostWhenReached(t0: Nodes, t: Nodes, r: Request, i: Item, j: Item)
    requires Gone(t, Src(r, i)) && Gone(t, Src(r, j)) && Reaches(t0, r, i, j)
    ensures !Conserved(t0, t, r, i)
  {
    var s, d, e := Src(r, i), Dest(r, i), Src(r, j);
    var z := s + e[|d|..];
    assert Rebase(z, s, d) == d + e[|d|..] == e;
    assert s <= z;
  }

  lemma AfterOneCopy(t0: Nodes, b: Nodes, c: Nodes, r: Request, items: seq<Item>, i: Item)
    requires Closed(t0) && Sound(t0, r, items) && i in items && AllOpen(t0, b, r, items)
    requires Pending(t0, b, r, i) && !Swallows(r, i) && Harmless(b, c, Src(r, i), Dest(r, i), i.conflict)
    ensures Pending(t0, c, r, i) && AllOpen(t0, c, r, items)
    ensures forall j :: j in items && j.name != i.name && Arrived(t0, b, r, j) ==> Arrived(t0, c, r, j)
    ensures AllPending(t0, b, r, items) ==> AllPending(t0, c, r, items)
  {
    hide Sound, Closed, Harmless, Arrived;
    HarmlessSource(b, c, r, i);
    SameUnderTrans(t0, b, c, Src(r, i));
    forall j | j in items
      ensures Open(t0, c, r, j) && (Pending(t0, b, r, j) ==> Pending(t0, c, r, j))
      ensures j.name != i.name && Arrived(t0, b, r, j) ==> Arrived(t0, c, r, j)
    {
      if j.name == i.name { SameName(t0, c, r, i, j); } else { CopyOther(t0, b, c, r, items, i, j); }
    }
  }

  lemma HarmlessSource(b: Nodes, c: Nodes, r: Request, i: Item)
    requires Harmless(b, c, Src(r, i), Dest(r, i), i.conflict)
    ensures SameUnder(b, c, Src(r, i))
  {
  }

  /** Items of the same name share their state. */
  lemma SameName(t0: Nodes, t: Nodes, r: Request, i: Item, j: Item)
    requires i.name == j.name
    ensures Pending(t0, t, r, i) == Pending(t0, t, r, j) && Arrived(t0, t, r, i) == Arrived(t0, t, r, j)
    ensures Conserved(t0, t, r, i) == Conserved(t0, t, r, j)
  {
    assert Src(r, j) == Src(r, i) && Dest(r, j) == Dest(r, i);
  }

  lemma AfterOneRemoval(t0: Nodes, b: Nodes, c: Nodes, r: Request, items: seq<Item>, i: Item)
    requires Closed(t0) && Sound(t0, r, items) && i in items && AllOpen(t0, b, r, items) && Arrived(t0, b, r, i)
    requires !Swallows(r, i) && OnlyRemoved(b, c, Src(r, i))
    ensures AllOpen(t0, c, r, items)
    ensures forall j :: j in items && Arrived(t0, b, r, j) ==> Arrived(t0, c, r, j)
  {
    hide Sound, Closed, OnlyRemoved, Arrived;
    SoundItems(t0, r, items, i, i);
    SourceIsNoDest(r, i, i);
    forall j | j in items ensures Open(t0, c, r, j) && (Arrived(t0, b, r, j) ==> Arrived(t0, c, r, j)) {
      RemoveOther(t0, b, c, r, items, i, j);
      if j.name == i.name { SameName(t0, b, r, i, j); }
    }
  }

  lemma AfterOneRename(t0: Nodes, b: Nodes, c: Nodes, r: Request, items: seq<Item>, i: Item)
    requires Closed(t0) && Sound(t0, r, items) && i in items && AllOpen(t0, b, r, items) && !i.conflict
    requires Pending(t0, b, r, i) && Apart(Src(r, i), Dest(r, i)) && Renamed(b, c, Src(r, i), Dest(r, i))
    ensures AllOpen(t0, c, r, items) && Arrived(t0, c, r, i)
    ensures forall j :: j in items && Arrived(t0, b, r, j) ==> Arrived(t0, c, r, j)
  {
    hide Sound, Closed, Renamed, Arrived;
    RenameArrives(t0, b, c, r, i);
    forall j | j in items ensures Open(t0, c, r, j) && (Arrived(t0, b, r, j) ==> Arrived(t0, c, r, j)) {
      if j.name == i.name { SameName(t0, c, r, i, j); } else { RenameOther(t0, b, c, r, items, i, j); }
    }
  }

  // ---------- Moving one item within a site ----------

  /** The item meets no obstacle. */
  ghost predicate Ready(t: Nodes, r: Request, i: Item) {
    && r.srcBase <= Src(r, i) && r.destBase <= Dest(r, i) && Apart(Src(r, i), Dest(r, i))
    && Fits(t, Src(r, i), Dest(r, i), i.conflict) && (i.conflict <==> Dest(r, i) in t)
  }

  /** A step that touches nothing outside `src` and `dest`. */
  ghost predicate Exact(b: Nodes, c: Nodes, src: Path, dest: Path) {
    forall q :: !(src <= q) && !(dest <= q) ==> SameAt(b, c, q)
  }

  lemma TidyIsExact(a: Nodes, b: Nodes, src: Path, dest: Path)
    requires Closed(a) && dest != [] && Parent(dest) in a
    requires KeptOutside(a, b, dest) && NewAreCopies(a, b, src, dest)
    ensures Exact(a, b, src, dest)
  {
    hide Closed;
    forall q | !(src <= q) && !(dest <= q) ensures SameAt(a, b, q) {
      if q in b && q !in a {
        UpToParent(q, dest);
        AncestorsPresent(a, Parent(dest), q);
      }
    }
  }

  lemma RemovalIsExact(b: Nodes, c: Nodes, src: Path, dest: Path)
    requires OnlyRemoved(b, c, src)
    ensures Exact(b, c, src, dest)
  {
  }

  lemma RenameIsExact(b: Nodes, c: Nodes, src: Path, dest: Path)
    requires Renamed(b, c, src, dest)
    ensures Exact(b, c, src, dest)
  {
  }

  lemma ExactTrans(a: Nodes, b: Nodes, c: Nodes, src: Path, dest: Path)
    requires Exact(a, b, src, dest) && Exact(b, c, src, dest)
    ensures Exact(a, c, src, dest)
  {
    forall q | !(src <= q) && !(dest <= q) ensures SameAt(a, c, q) { assert SameAt(a, b, q) && SameAt(b, c, q); }
  }

  lemma MergedParts(a: Nodes, c: Nodes, src: Path, dest: Path, tidy: bool)
    requires Merged(a, c, src, dest, tidy)
    ensures Copied(a, c, src, dest) && (tidy ==> NewAreCopies(a, c, src, dest))
  {
  }

  /** What is promised before and after one item of a sound request. */
  ghost predicate Safe(t0: Nodes, t: Nodes, r: Request, items: seq<Item>) {
    AllOpen(t0, t, r, items) && Spared(t0, t, r, items)
  }

  /** The item is still to be moved, or gone from its source. */
  ghost predicate Due(t0: Nodes, t: Nodes, r: Request, i: Item) {
    Pending(t0, t, r, i) || Src(r, i) !in t
  }

  /** After the copy of an item of a sound request. */
  lemma CopiedSafely(t0: Nodes, a: Nodes, c: Nodes, r: Request, items: seq<Item>, i: Item, ok: bool, tidy: bool, m: nat)
    requires Closed(t0) && Closed(a) && Sound(t0, r, items) && i in items && Safe(t0, a, r, items) && Due(t0, a, r, i)
    requires Promised(a, c, Src(r, i), Dest(r, i), i.conflict, m)
    requires Src(r, i) !in a || Src(r, i) <= Dest(r, i) ==> !ok && c == a
    requires ok && Clear(a, Src(r, i), Dest(r, i)) ==> Merged(a, c, Src(r, i), Dest(r, i), tidy)
    ensures Safe(t0, c, r, items)
    ensures Pending(t0, a, r, i) ==> Pending(t0, c, r, i)
    ensures ok ==> Pending(t0, c, r, i) && Arrived(t0, c, r, i) && !Swallows(r, i)
    ensures forall j :: j in items && j.name != i.name && Arrived(t0, a, r, j) ==> Arrived(t0, c, r, j)
    ensures forall j :: j in items && j.name != i.name && Pending(t0, a, r, j) ==> Pending(t0, c, r, j)
  {
    hide Sound, Closed, Harmless, Contained, Shallow, Arrived, Spared, Merged;
    SoundItems(t0, r, items, i, i);
    SourceIsNoDest(r, i, i);
    if Src(r, i) in a && !(Src(r, i) <= Dest(r, i)) {
      ClearNow(t0, a, r, i);
      AfterOneCopy(t0, a, c, r, items, i);
      CopySpares(t0, a, c, r, items, i);
      CopyKeepsOthers(t0, a, c, r, items, i);
      if ok {
        MergedParts(a, c, Src(r, i), Dest(r, i), tidy);
        CopyArrives(t0, a, c, r, i);
      }
    }
  }

  lemma ClearNow(t0: Nodes, a: Nodes, r: Request, i: Item)
    requires Pending(t0, a, r, i) && !Swallows(r, i) && !Reaches(t0, r, i, i)
    ensures Clear(a, Src(r, i), Dest(r, i))
  {
    SameClear(t0, a, Src(r, i), Dest(r, i));
  }

  lemma CopyKeepsOthers(t0: Nodes, b: Nodes, c: Nodes, r: Request, items: seq<Item>, i: Item)
    requires Closed(t0) && Sound(t0, r, items) && i in items
    requires SameUnder(t0, b, Src(r, i)) && Harmless(b, c, Src(r, i), Dest(r, i), i.conflict)
    ensures forall j :: j in items && j.name != i.name && Pending(t0, b, r, j) ==> Pending(t0, c, r, j)
    ensures forall j :: j in items && j.name != i.name && Arrived(t0, b, r, j) ==> Arrived(t0, c, r, j)
  {
    hide Sound, Closed, Harmless, Arrived, Pending;
    forall j | j in items && j.name != i.name
      ensures (Pending(t0, b, r, j) ==> Pending(t0, c, r, j)) && (Arrived(t0, b, r, j) ==> Arrived(t0, c, r, j))
    {
      CopyOther(t0, b, c, r, items, i, j);
    }
  }

  /** One step of a same-site move: the promise about all items, those that have arrived and those pending. */
  ghost predicate Stepped(t0: Nodes, a: Nodes, b: Nodes, r: Request, items: seq<Item>, i: Item, ok: bool) {
    && Spared(t0, b, r, items) && AllConserved(t0, b, r, items)
    && (ok ==> Safe(t0, b, r, items) && Arrived(t0, b, r, i))
    && (ok ==> forall j :: j in items && Arrived(t0, a, r, j) ==> Arrived(t0, b, r, j))
    && (ok ==> forall j :: j in items && j.name != i.name && Pending(t0, a, r, j) ==> Pending(t0, b, r, j))
  }

  /** An item to be overwritten whose copy, wherever it reaches, puts no file in a directory's place and no
      directory in a file's. */
  ghost predicate LevelItem(t: Nodes, r: Request, i: Item) {
    && r.srcBase <= Src(r, i) && r.destBase <= Dest(r, i) && i.conflict
    && exists kinds: Kinds :: Level(t, Src(r, i), Dest(r, i), kinds)
  }

  /** MoveOne by copy and removal. */
  method MoveOver(d: Disk, r: Request, items: seq<Item>, i: Item, f: Faults, ghost t0: Nodes) returns (ok: bool)
    requires d.Valid() && Closed(t0) && i in items && i.conflict
    requires Sound(t0, r, items) ==> Safe(t0, d.nodes, r, items) && Due(t0, d.nodes, r, i)
    modifies d
    ensures d.Valid() && Local(old(d.nodes), d.nodes, Src(r, i), Dest(r, i))
            && NewNear(old(d.nodes), d.nodes, Dest(r, i))
    ensures Sound(t0, r, items) ==> Stepped(t0, old(d.nodes), d.nodes, r, items, i, ok)
    ensures ok ==> Gone(d.nodes, Src(r, i)) && !(Src(r, i) <= Dest(r, i))
    ensures d.reliable && Ready(old(d.nodes), r, i) ==> (ok <==> i.name !in f.resisting)
    ensures d.reliable && LevelItem(old(d.nodes), r, i) ==> (ok <==> i.name !in f.resisting)
    ensures d.reliable && Ready(old(d.nodes), r, i) ==> Exact(old(d.nodes), d.nodes, Src(r, i), Dest(r, i))
  {
    hide Closed, Local, Sound, Pending, Arrived, Spared, Conserved, Contained, Harmless, Shallow, Merged,
         OnlyRemoved, Exact, NewNear, Fits, Swallows, Level, Grown;
    var src, dest := Src(r, i), Dest(r, i);
    ghost var a := d.nodes;
    ghost var easy := d.reliable && Ready(a, r, i);
    ghost var m := Deepest(d.nodes.Keys);
    ghost var tidy;
    ghost var kinds: Kinds :| LevelItem(a, r, i) ==> Level(a, src, dest, kinds);
    ok, tidy := CopyTree(d, r.srcBase, r.destBase, src, dest, true, m, kinds);
    ghost var c := d.nodes;
    ContainedIsLocal(a, c, src, dest, true);
    ContainedIsNear(a, c, dest, true);
    if Sound(t0, r, items) {
      CopiedSafely(t0, a, c, r, items, i, ok, tidy, m);
      OpenIsConserved(t0, c, r, items);
    }
    if easy { TidyMove(a, c, r, i, tidy, m); }
    if d.reliable && LevelItem(a, r, i) { GrownSource(a, c, src, dest, kinds); }
    if !ok { return; }
    ok := RemoveTree(d, src, i.name in f.resisting);
    RemovalIsLocal(c, d.nodes, src, dest);
    LocalTrans(a, c, d.nodes, src, dest);
    NearAfterRemoval(a, c, d.nodes, dest, src);
    if Sound(t0, r, items) { RemovedSafely(t0, a, c, d.nodes, r, items, i); }
    if easy {
      RemovalIsExact(c, d.nodes, src, dest);
      ExactTrans(a, c, d.nodes, src, dest);
    }
  }

  lemma ContainedIsNear(b: Nodes, c: Nodes, dest: Path, overwrite: bool)
    requires dest != [] && Contained(b, c, dest, overwrite)
    ensures NewNear(b, c, dest)
  {
  }

  lemma NearAfterRemoval(a: Nodes, b: Nodes, c: Nodes, dest: Path, gone: Path)
    requires dest != [] && NewNear(a, b, dest) && OnlyRemoved(b, c, gone)
    ensures NewNear(a, c, dest)
  {
  }

  lemma GrownSource(a: Nodes, c: Nodes, src: Path, dest: Path, kinds: Kinds)
    requires dest != [] && Level(a, src, dest, kinds) && Grown(a, c, dest, kinds)
    ensures src in c
  {
  }

  lemma TidyMove(a: Nodes, c: Nodes, r: Request, i: Item, tidy: bool, m: nat)
    requires Closed(a) && Ready(a, r, i) && tidy && Merged(a, c, Src(r, i), Dest(r, i), tidy)
    requires Promised(a, c, Src(r, i), Dest(r, i), i.conflict, m)
    ensures Exact(a, c, Src(r, i), Dest(r, i)) && Src(r, i) in c
  {
    HarmlessSource(a, c, r, i);
    TidyIsExact(a, c, Src(r, i), Dest(r, i));
  }

  lemma RemovedSafely(t0: Nodes, a: Nodes, c: Nodes, e: Nodes, r: Request, items: seq<Item>, i: Item)
    requires Closed(t0) && Sound(t0, r, items) && i in items && Safe(t0, c, r, items)
    requires Pending(t0, c, r, i) && Arrived(t0, c, r, i) && !Swallows(r, i) && OnlyRemoved(c, e, Src(r, i))
    requires forall j :: j in items && j.name != i.name && Arrived(t0, a, r, j) ==> Arrived(t0, c, r, j)
    requires forall j :: j in items && j.name != i.name && Pending(t0, a, r, j) ==> Pending(t0, c, r, j)
    ensures Stepped(t0, a, e, r, items, i, true)
  {
    hide Sound, Closed, Arrived, Pending, Spared, Conserved, OnlyRemoved, Swallows;
    AfterOneRemoval(t0, c, e, r, items, i);
    RemovalSpares(t0, c, e, r, items, i);
    OpenIsConserved(t0, e, r, items);
    SoundItems(t0, r, items, i, i);
    SourceIsNoDest(r, i, i);
    forall j | j in items
      ensures Arrived(t0, a, r, j) ==> Arrived(t0, e, r, j)
      ensures j.name != i.name && Pending(t0, a, r, j) ==> Pending(t0, e, r, j)
    {
      if j.name == i.name { SameName(t0, e, r, i, j); } else { RemoveOther(t0, c, e, r, items, i, j); }
    }
  }

  /** MoveOne by renaming. */
  method MoveFresh(d: Disk, r: Request, items: seq<Item>, i: Item, ghost t0: Nodes) returns (ok: bool)
    requires d.Valid() && Closed(t0) && i in items && !i.conflict
    requires Sound(t0, r, items) ==> Safe(t0, d.nodes, r, items) && Due(t0, d.nodes, r, i)
    modifies d
    ensures d.Valid() && Local(old(d.nodes), d.nodes, Src(r, i), Dest(r, i))
            && NewNear(old(d.nodes), d.nodes, Dest(r, i))
    ensures Sound(t0, r, items) ==> Stepped(t0, old(d.nodes), d.nodes, r, items, i, ok)
    ensures ok ==> Gone(d.nodes, Src(r, i)) && !(Src(r, i) <= Dest(r, i))
    ensures d.reliable && Ready(old(d.nodes), r, i) ==> ok && Exact(old(d.nodes), d.nodes, Src(r, i), Dest(r, i))
  {
    hide Closed, Local, Sound, Arrived, Pending, Spared, Conserved, Exact, NewNear, Renamed, Swallows;
    var src, dest := Src(r, i), Dest(r, i);
    ghost var a := d.nodes;
    ok := Rename(d, src, dest);
    if !ok {
      NothingNear(a, src, dest);
      if Sound(t0, r, items) { OpenIsConserved(t0, a, r, items); }
      return;
    }
    RenameIsLocal(a, d.nodes, src, dest);
    RenameIsNear(a, d.nodes, src, dest);
    RenameEmpties(a, d.nodes, src, dest);
    RenameIsExact(a, d.nodes, src, dest);
    if Sound(t0, r, items) { RenamedSafely(t0, a, d.nodes, r, items, i); }
  }

  lemma NothingNear(a: Nodes, src: Path, dest: Path)
    requires dest != []
    ensures NewNear(a, a, dest) && Local(a, a, src, dest)
  {
  }

  lemma RenameIsNear(b: Nodes, c: Nodes, src: Path, dest: Path)
    requires dest != [] && Renamed(b, c, src, dest)
    ensures NewNear(b, c, dest)
  {
  }

  lemma RenamedSafely(t0: Nodes, a: Nodes, c: Nodes, r: Request, items: seq<Item>, i: Item)
    requires Closed(t0) && Sound(t0, r, items) && i in items && !i.conflict
    requires Safe(t0, a, r, items) && Due(t0, a, r, i) && Src(r, i) in a
    requires Apart(Src(r, i), Dest(r, i)) && Renamed(a, c, Src(r, i), Dest(r, i))
    ensures Stepped(t0, a, c, r, items, i, true)
  {
    hide Sound, Closed, Arrived, Pending, Spared, Conserved, Renamed, Local;
    SoundItems(t0, r, items, i, i);
    AfterOneRename(t0, a, c, r, items, i);
    RenameIsLocal(a, c, Src(r, i), Dest(r, i));
    FreeSpares(t0, a, c, r, items, i);
    OpenIsConserved(t0, c, r, items);
    forall j | j in items && j.name != i.name && Pending(t0, a, r, j) ensures Pending(t0, c, r, j) {
      RenameOther(t0, a, c, r, items, i, j);
    }
  }

  /** One item of a same-site move. */
  method MoveOne(d: Disk, r: Request, items: seq<Item>, i: Item, f: Faults, ghost t0: Nodes) returns (ok: bool)
    requires d.Valid() && Closed(t0) && i in items
    requires Sound(t0, r, items) ==> Safe(t0, d.nodes, r, items) && Due(t0, d.nodes, r, i)
    modifies d
    ensures d.Valid() && Local(old(d.nodes), d.nodes, Src(r, i), Dest(r, i))
            && NewNear(old(d.nodes), d.nodes, Dest(r, i))
    ensures Sound(t0, r, items) ==> Stepped(t0, old(d.nodes), d.nodes, r, items, i, ok)
    ensures ok ==> Gone(d.nodes, Src(r, i)) && !(Src(r, i) <= Dest(r, i))
    ensures d.reliable && Ready(old(d.nodes), r, i) ==> (ok <==> Removable(i, f))
    ensures d.reliable && LevelItem(old(d.nodes), r, i) ==> (ok <==> Removable(i, f))
    ensures d.reliable && Ready(old(d.nodes), r, i) ==> Exact(old(d.nodes), d.nodes, Src(r, i), Dest(r, i))
  {
    hide Closed, Local, Sound, Safe, Due, Stepped, Exact, NewNear, Ready, Gone, Level;
    if i.conflict {
      ok := MoveOver(d, r, items, i, f, t0);
    } else {
      ok := MoveFresh(d, r, items, i, t0);
    }
  }

  /** A same-site move removes the source only of an item that replaces something. */
  predicate Removable(i: Item, f: Faults) {
    i.conflict ==> i.name !in f.resisting
  }

  // ---------- Moving all items within a site ----------

  /** The items meet no obstacle and do not get into each other's way. */
  ghost predicate Smooth(t0: Nodes, r: Request, items: seq<Item>) {
    DistinctItems(items) && Separate(r, items) && r.srcDir != r.destDir && forall i :: i in items ==> Ready(t0, r, i)
  }

  lemma ReadyStays(b: Nodes, c: Nodes, r: Request, items: seq<Item>, i: Item, j: Item)
    requires Separate(r, items) && r.srcDir != r.destDir && i in items && j in items && i.name != j.name
    requires Exact(b, c, Src(r, i), Dest(r, i)) && Ready(b, r, j)
    ensures Ready(c, r, j)
  {
    var s, d := Src(r, j), Dest(r, j);
    assert Parent(d) == r.destDir;
    forall p | s <= p || d <= p ensures SameAt(b, c, p) {
      assert Apart(s, Dest(r, i)) && Apart(Src(r, i), d);
      if s <= p {
        ChildrenApart(r.srcDir, j.name, i.name, p);
        if Dest(r, i) <= p { PrefixesOf(s, Dest(r, i), p); }
      } else {
        ChildrenApart(r.destDir, j.name, i.name, p);
        if Src(r, i) <= p { PrefixesOf(Src(r, i), d, p); }
      }
    }
    assert SameAt(b, c, r.destDir) by {
      if Src(r, i) <= r.destDir { PrefixTrans(Src(r, i), r.destDir, d); }
    }
    forall p | s <= p ensures d <= Rebase(p, s, d) {
    }
    forall p | p in c && s <= p && Rebase(p, s, d) in c
      ensures if c[p].Dir? then c[Rebase(p, s, d)].Dir? else j.conflict && c[Rebase(p, s, d)].File?
    {
      assert SameAt(b, c, p) && SameAt(b, c, Rebase(p, s, d));
    }
    assert SameAt(b, c, s) && SameAt(b, c, d);
  }

  lemma GoneStays(b: Nodes, c: Nodes, r: Request, i: Item, j: Item)
    requires r.srcDir != r.destDir && Apart(Src(r, j), Dest(r, i))
    requires NewNear(b, c, Dest(r, i)) && Gone(b, Src(r, j))
    ensures Gone(c, Src(r, j))
  {
    var s, d := Src(r, j), Dest(r, i);
    assert Parent(d) == r.destDir && Parent(s) == r.srcDir;
    forall p | p in c ensures !(s <= p) {
      if s <= p {
        assert p !in b;
        if p <= d { PrefixTrans(s, p, d); }
        if d <= p { PrefixesOf(s, d, p); }
        if p != s {
          UpToParent(s, p);
          if s <= r.destDir { PrefixTrans(s, r.destDir, d); }
        }
      }
    }
  }

  /** No item before `k` has this name. */
  predicate FirstOfName(items: seq<Item>, k: nat, name: string)
    requires k <= |items|
  {
    forall m :: 0 <= m < k ==> items[m].name != name
  }

  /** Between two items of a same-site move. */
  ghost predicate Moving(t0: Nodes, t: Nodes, r: Request, items: seq<Item>, k: nat)
    requires k <= |items|
  {
    && Safe(t0, t, r, items)
    && (forall l :: 0 <= l < k ==> Arrived(t0, t, r, items[l]))
    && (forall i :: i in items && FirstOfName(items, k, i.name) ==> Pending(t0, t, r, i))
  }

  ghost predicate Left(t: Nodes, r: Request, items: seq<Item>, k: nat)
    requires k <= |items|
  {
    forall l :: 0 <= l < k ==> Gone(t, Src(r, items[l]))
  }

  lemma NextIsDue(t0: Nodes, t: Nodes, r: Request, items: seq<Item>, k: nat)
    requires k < |items| && Sound(t0, r, items) && Moving(t0, t, r, items, k)
             && (Separate(r, items) ==> Left(t, r, items, k))
    ensures Due(t0, t, r, items[k])
  {
    hide Safe, Arrived, Pending;
    if !FirstOfName(items, k, items[k].name) {
      var m :| 0 <= m < k && items[m].name == items[k].name;
      assert Gone(t, Src(r, items[m]));
    }
  }

  lemma MovingOn(t0: Nodes, a: Nodes, b: Nodes, r: Request, items: seq<Item>, k: nat)
    requires k < |items| && Moving(t0, a, r, items, k) && Stepped(t0, a, b, r, items, items[k], true)
    ensures Moving(t0, b, r, items, k + 1)
  {
    hide Safe, Arrived, Pending, Spared, Conserved;
    forall i | i in items && FirstOfName(items, k + 1, i.name) ensures Pending(t0, b, r, i) {
      assert items[k].name != i.name;
      assert FirstOfName(items, k, i.name);
    }
  }

  ghost predicate AllGone(t: Nodes, r: Request, items: seq<Item>) {
    forall i :: i in items ==> Gone(t, Src(r, i))
  }

  /** No destination lies in its item's source. */
  predicate NoneInside(r: Request, items: seq<Item>) {
    forall i :: i in items ==> !(Src(r, i) <= Dest(r, i))
  }

  /** The items still to be moved meet no obstacle. */
  ghost predicate Ahead(t: Nodes, r: Request, items: seq<Item>, k: nat)
    requires k <= |items|
  {
    forall l :: k <= l < |items| ==> Ready(t, r, items[l])
  }

  lemma NothingLeft(t: Nodes, r: Request, items: seq<Item>)
    ensures Left(t, r, items, 0)
    ensures Smooth(t, r, items) ==> Ahead(t, r, items, 0)
  {
    hide Ready;
  }

  lemma AheadNext(t: Nodes, r: Request, items: seq<Item>, k: nat)
    requires k < |items| && Ahead(t, r, items, k)
    ensures Ready(t, r, items[k])
  {
  }

  lemma AheadOn(t0: Nodes, b: Nodes, c: Nodes, r: Request, items: seq<Item>, k: nat)
    requires k < |items| && Smooth(t0, r, items) && Ahead(b, r, items, k)
    requires Exact(b, c, Src(r, items[k]), Dest(r, items[k]))
    ensures Ahead(c, r, items, k + 1)
  {
    hide Ready, Exact;
    forall l | k < l < |items| ensures Ready(c, r, items[l]) { ReadyStays(b, c, r, items, items[k], items[l]); }
  }

  lemma LeftOn(b: Nodes, c: Nodes, r: Request, items: seq<Item>, k: nat)
    requires k < |items| && r.srcDir != r.destDir && (Separate(r, items) || |items| == 1) && Left(b, r, items, k)
    requires NewNear(b, c, Dest(r, items[k])) && Gone(c, Src(r, items[k]))
    ensures Left(c, r, items, k + 1)
  {
    hide Gone, NewNear;
    forall l | 0 <= l < k ensures Gone(c, Src(r, items[l])) {
      assert items[l] in items && items[k] in items;
      GoneStays(b, c, r, items[k], items[l]);
    }
  }

  lemma LeftAll(t: Nodes, r: Request, items: seq<Item>)
    ensures Left(t, r, items, |items|) ==> AllGone(t, r, items)
  {
    hide Gone;
  }

  /** Move inside one site. */
  method MoveWithin(d: Disk, r: Request, items: seq<Item>, f: Faults) returns (o: Response)
    requires d.Valid()
    modifies d
    ensures d.Valid() && ElsewhereKept(old(d.nodes), d.nodes, r, items)
    ensures Sound(old(d.nodes), r, items) ==>
            AllConserved(old(d.nodes), d.nodes, r, items) && Spared(old(d.nodes), d.nodes, r, items)
    ensures o.Done? && Sound(old(d.nodes), r, items) ==> forall i :: i in items ==> Arrived(old(d.nodes), d.nodes, r, i)
    ensures o.Done? && r.srcDir != r.destDir && (Separate(r, items) || |items| == 1) ==> AllGone(d.nodes, r, items)
    ensures d.reliable && Smooth(old(d.nodes), r, items) ==> (o.Done? <==> forall i :: i in items ==> Removable(i, f))
    ensures d.reliable && |items| == 1 && LevelItem(old(d.nodes), r, items[0]) ==> (o.Done? <==> Removable(items[0], f))
    ensures o.Done? ==> NoneInside(r, items)
    ensures !o.Refused?
  {
    hide Closed, Local, Sound, Safe, Spared, Conserved, Arrived, Pending, Exact, NewNear, Ready, Gone,
         ElsewhereKept, FirstOfName, Removable, LevelItem, Moving, Left, Separate, Ahead, AllConserved;
    ghost var t0 := d.nodes;
    NothingElsewhere(t0, r, items);
    NothingMoved(t0, r, items);
    NothingLeft(t0, r, items);
    for k := 0 to |items|
      invariant d.Valid() && ElsewhereKept(t0, d.nodes, r, items)
      invariant Sound(t0, r, items) ==> Moving(t0, d.nodes, r, items, k)
      invariant r.srcDir != r.destDir && (Separate(r, items) || |items| == 1) ==> Left(d.nodes, r, items, k)
      invariant d.reliable && Smooth(t0, r, items) ==>
                  && Ahead(d.nodes, r, items, k)
                  && (forall l :: 0 <= l < k ==> Removable(items[l], f))
      invariant forall l :: 0 <= l < k ==> !(Src(r, items[l]) <= Dest(r, items[l]))
      invariant if k == 0 then d.nodes == t0
                else d.reliable && |items| == 1 && LevelItem(t0, r, items[0]) ==> Removable(items[0], f)
    {
      ghost var b := d.nodes;
      assert items[k] in items;
      if Sound(t0, r, items) {
        SoundDirs(t0, r, items);
        NextIsDue(t0, b, r, items, k);
        MovingSafe(t0, b, r, items, k);
      }
      if d.reliable && Smooth(t0, r, items) { AheadNext(b, r, items, k); }
      var ok := MoveOne(d, r, items, items[k], f, t0);
      LocalElsewhere(t0, b, d.nodes, r, items, items[k]);
      if !ok {
        if Sound(t0, r, items) { SteppedSafe(t0, b, d.nodes, r, items, items[k]); }
        return Failed;
      }
      if Sound(t0, r, items) { MovingOn(t0, b, d.nodes, r, items, k); }
      if r.srcDir != r.destDir && (Separate(r, items) || |items| == 1) { LeftOn(b, d.nodes, r, items, k); }
      if d.reliable && Smooth(t0, r, items) { AheadOn(t0, b, d.nodes, r, items, k); }
    }
    LeftAll(d.nodes, r, items);
    if Sound(t0, r, items) { MovedAll(t0, d.nodes, r, items); }
    return Done;
  }

  lemma NothingMoved(t0: Nodes, r: Request, items: seq<Item>)
    ensures Moving(t0, t0, r, items, 0)
  {
    hide Spared, Arrived, Pending;
    NothingElsewhere(t0, r, items);
  }

  lemma SoundDirs(t0: Nodes, r: Request, items: seq<Item>)
    requires Sound(t0, r, items) && items != []
    ensures r.srcDir != r.destDir
  {
  }

  lemma MovingSafe(t0: Nodes, t: Nodes, r: Request, items: seq<Item>, k: nat)
    requires k <= |items| && Moving(t0, t, r, items, k)
    ensures Safe(t0, t, r, items)
  {
  }

  lemma SteppedSafe(t0: Nodes, a: Nodes, b: Nodes, r: Request, items: seq<Item>, i: Item)
    requires Stepped(t0, a, b, r, items, i, false)
    ensures Spared(t0, b, r, items) && AllConserved(t0, b, r, items)
  {
  }

  lemma MovedAll(t0: Nodes, t: Nodes, r: Request, items: seq<Item>)
    requires Moving(t0, t, r, items, |items|)
    ensures AllConserved(t0, t, r, items) && Spared(t0, t, r, items)
    ensures forall i :: i in items ==> Arrived(t0, t, r, i)
  {
    hide Spared, Pending, Arrived, Conserved;
    OpenIsConserved(t0, t, r, items);
  }

  // ---------- Copying all items to another site, or within one ----------

  /** Between two items of a copy. */
  ghost predicate Copying(t0: Nodes, t: Nodes, r: Request, items: seq<Item>, k: nat)
    requires k <= |items|
  {
    && AllPending(t0, t, r, items) && Spared(t0, t, r, items)
    && forall l :: 0 <= l < k ==> Arrived(t0, t, r, items[l])
  }

  lemma CopyingSafe(t0: Nodes, t: Nodes, r: Request, items: seq<Item>, k: nat)
    requires k < |items| && Copying(t0, t, r, items, k)
    ensures Safe(t0, t, r, items) && Due(t0, t, r, items[k])
  {
    hide Pending, Arrived, Spared;
    assert items[k] in items;
  }

  /** The copy of one more item, whether it worked or not. */
  lemma CopyingOn(t0: Nodes, a: Nodes, c: Nodes, r: Request, items: seq<Item>, k: nat, ok: bool, tidy: bool, m: nat)
    requires Closed(t0) && Closed(a) && Sound(t0, r, items) && k < |items| && Copying(t0, a, r, items, k)
    requires Promised(a, c, Src(r, items[k]), Dest(r, items[k]), items[k].conflict, m)
    requires Src(r, items[k]) !in a || Src(r, items[k]) <= Dest(r, items[k]) ==> !ok && c == a
    requires ok && Clear(a, Src(r, items[k]), Dest(r, items[k])) ==>
             Merged(a, c, Src(r, items[k]), Dest(r, items[k]), tidy)
    ensures Copying(t0, c, r, items, 0) && (ok ==> Copying(t0, c, r, items, k + 1))
  {
    hide Sound, Closed, Pending, Arrived, Spared, Promised, Merged, Safe, Due, Clear;
    var i := items[k];
    assert i in items;
    CopyingSafe(t0, a, r, items, k);
    CopiedSafely(t0, a, c, r, items, i, ok, tidy, m);
    SafeParts(t0, c, r, items);
    forall j | j in items ensures Pending(t0, c, r, j) {
      if j.name == i.name { SameName(t0, c, r, i, j); }
    }
    forall l | 0 <= l <= k && ok ensures Arrived(t0, c, r, items[l]) {
      assert items[l] in items;
      if items[l].name == i.name { SameName(t0, c, r, i, items[l]); }
    }
  }

  lemma SafeParts(t0: Nodes, t: Nodes, r: Request, items: seq<Item>)
    requires Safe(t0, t, r, items)
    ensures Spared(t0, t, r, items)
  {
  }

  lemma NothingCopied(t0: Nodes, r: Request, items: seq<Item>)
    ensures Copying(t0, t0, r, items, 0)
  {
    hide Pending, Arrived, Spared;
    NothingElsewhere(t0, r, items);
  }

  /** The copy of one item and what it leaves ready for the others. */
  method CopyOne(d: Disk, r: Request, items: seq<Item>, k: nat, ghost t0: Nodes) returns (ok: bool)
    requires d.Valid() && Closed(t0) && k < |items| && (Sound(t0, r, items) ==> Copying(t0, d.nodes, r, items, k))
    modifies d
    ensures d.Valid() && Local(old(d.nodes), d.nodes, Src(r, items[k]), Dest(r, items[k]))
    ensures Sound(t0, r, items) ==> Copying(t0, d.nodes, r, items, 0) && (ok ==> Copying(t0, d.nodes, r, items, k + 1))
    ensures ok ==> !(Src(r, items[k]) <= Dest(r, items[k]))
    ensures d.reliable && Ready(old(d.nodes), r, items[k]) ==>
            ok && Exact(old(d.nodes), d.nodes, Src(r, items[k]), Dest(r, items[k]))
    ensures d.reliable && Ready(old(d.nodes), r, items[k]) ==> SameUnder(old(d.nodes), d.nodes, Src(r, items[k]))
  {
    hide Closed, Local, Sound, Copying, Contained, Harmless, Shallow, Merged, Exact, Fits, Clear, SameUnder;
    var i := items[k];
    var src, dest := Src(r, i), Dest(r, i);
    ghost var a := d.nodes;
    ghost var m := Deepest(d.nodes.Keys);
    ghost var tidy;
    ok, tidy := CopyTree(d, r.srcBase, r.destBase, src, dest, i.conflict, m, p => true);
    ContainedIsLocal(a, d.nodes, src, dest, i.conflict);
    if Sound(t0, r, items) { CopyingOn(t0, a, d.nodes, r, items, k, ok, tidy, m); }
    if d.reliable && Ready(a, r, i) { TidyCopy(a, d.nodes, r, i, tidy, m); }
  }

  lemma TidyCopy(a: Nodes, c: Nodes, r: Request, i: Item, tidy: bool, m: nat)
    requires Closed(a) && Ready(a, r, i) && tidy
    requires Clear(a, Src(r, i), Dest(r, i)) ==> Merged(a, c, Src(r, i), Dest(r, i), tidy)
    requires Promised(a, c, Src(r, i), Dest(r, i), i.conflict, m)
    ensures Exact(a, c, Src(r, i), Dest(r, i)) && SameUnder(a, c, Src(r, i))
  {
    HarmlessSource(a, c, r, i);
    TidyIsExact(a, c, Src(r, i), Dest(r, i));
  }

  /** The copies a cross-site move makes first; a failure removes those that replaced nothing. */
  method CopyAll(d: Disk, r: Request, items: seq<Item>, f: Faults) returns (ok: bool)
    requires d.Valid()
    modifies d
    ensures d.Valid() && ElsewhereKept(old(d.nodes), d.nodes, r, items)
    ensures Sound(old(d.nodes), r, items) ==> Copying(old(d.nodes), d.nodes, r, items, if ok then |items| else 0)
    ensures ok ==> forall i :: i in items ==> !(Src(r, i) <= Dest(r, i))
    ensures d.reliable && Smooth(old(d.nodes), r, items) ==>
            (ok <==> forall i :: i in items ==> i.name !in f.unrepaired)
    ensures d.reliable && Smooth(old(d.nodes), r, items) && ok ==> forall i :: i in items ==> Src(r, i) in d.nodes
  {
    hide Closed, Local, Sound, Copying, ElsewhereKept, Exact, Ready;
    ghost var t0 := d.nodes;
    NothingElsewhere(t0, r, items);
    NothingCopied(t0, r, items);
    for k := 0 to |items|
      invariant d.Valid() && ElsewhereKept(t0, d.nodes, r, items)
      invariant Sound(t0, r, items) ==> Copying(t0, d.nodes, r, items, k)
      invariant forall l :: 0 <= l < k ==> !(Src(r, items[l]) <= Dest(r, items[l])) && items[l].name !in f.unrepaired
      invariant d.reliable && Smooth(t0, r, items) ==> Lined(d.nodes, r, items, k)
    {
      ghost var b := d.nodes;
      var i := items[k];
      assert i in items;
      if d.reliable && Smooth(t0, r, items) { LinedNext(b, r, items, k); }
      ok := CopyOne(d, r, items, k, t0);
      LocalElsewhere(t0, b, d.nodes, r, items, i);
      if !ok {
        CleanUp(d, r, items, items[..k], f, t0);
        return;
      }
      if d.reliable && Smooth(t0, r, items) { LinedOn(t0, b, d.nodes, r, items, k); }
      ok := i.name !in f.unrepaired;  // ownership repair
      if !ok {
        CleanUp(d, r, items, items[..k + 1], f, t0);
        return;
      }
    }
    if d.reliable && Smooth(t0, r, items) { LinedSources(d.nodes, r, items); }
    ok := true;
  }

  /** The items still to be copied meet no obstacle, the others' sources are there. */
  ghost predicate Lined(t: Nodes, r: Request, items: seq<Item>, k: nat)
    requires k <= |items|
  {
    (forall l :: k <= l < |items| ==> Ready(t, r, items[l])) && forall l :: 0 <= l < k ==> Src(r, items[l]) in t
  }

  lemma LinedNext(t: Nodes, r: Request, items: seq<Item>, k: nat)
    requires k < |items| && Lined(t, r, items, k)
    ensures Ready(t, r, items[k])
  {
  }

  lemma LinedSources(t: Nodes, r: Request, items: seq<Item>)
    requires Lined(t, r, items, |items|)
    ensures forall i :: i in items ==> Src(r, i) in t
  {
  }

  lemma LinedOn(t0: Nodes, b: Nodes, c: Nodes, r: Request, items: seq<Item>, k: nat)
    requires k < |items| && Smooth(t0, r, items) && Lined(b, r, items, k)
    requires Exact(b, c, Src(r, items[k]), Dest(r, items[k])) && SameUnder(b, c, Src(r, items[k]))
    ensures Lined(c, r, items, k + 1)
  {
    hide Ready, Exact;
    forall l | k < l < |items| ensures Ready(c, r, items[l]) { ReadyStays(b, c, r, items, items[k], items[l]); }
    ReadySource(b, r, items[k]);
    forall l | 0 <= l < k ensures Src(r, items[l]) in c {
      SourceStays(b, c, r, items, items[k], items[l]);
    }
  }

  lemma ReadySource(t: Nodes, r: Request, i: Item)
    requires Ready(t, r, i)
    ensures Src(r, i) in t
  {
  }

  lemma SourceStays(b: Nodes, c: Nodes, r: Request, items: seq<Item>, i: Item, j: Item)
    requires Separate(r, items) && i in items && j in items && i.name != j.name
    requires Exact(b, c, Src(r, i), Dest(r, i)) && Src(r, j) in b
    ensures Src(r, j) in c
  {
    ChildrenApart(r.srcDir, j.name, i.name, Src(r, j));
    assert SameAt(b, c, Src(r, j));
  }

  /** cleanupTransferredItems: copies that replaced nothing go; the sources are not touched. */
  method CleanUp(d: Disk, r: Request, items: seq<Item>, copied: seq<Item>, f: Faults, ghost t0: Nodes)
    requires d.Valid() && Closed(t0) && (forall i :: i in copied ==> i in items) && ElsewhereKept(t0, d.nodes, r, items)
    requires Sound(t0, r, items) ==> Copying(t0, d.nodes, r, items, 0)
    modifies d
    ensures d.Valid() && ElsewhereKept(t0, d.nodes, r, items)
    ensures Sound(t0, r, items) ==> Copying(t0, d.nodes, r, items, 0)
  {
    hide Closed, Local, OnlyRemoved, Sound, Copying, ElsewhereKept;
    for k := 0 to |copied|
      invariant d.Valid() && ElsewhereKept(t0, d.nodes, r, items)
      invariant Sound(t0, r, items) ==> Copying(t0, d.nodes, r, items, 0)
    {
      var i := copied[k];
      assert i in copied;
      if i.conflict { continue; }
      ghost var b := d.nodes;
      var _ := RemoveTree(d, Dest(r, i), i.name in f.resisting);
      RemovalIsLocal(b, d.nodes, Src(r, i), Dest(r, i));
      LocalElsewhere(t0, b, d.nodes, r, items, i);
      if Sound(t0, r, items) { UndoneSafely(t0, b, d.nodes, r, items, i); }
    }
  }

  lemma UndoneSafely(t0: Nodes, b: Nodes, c: Nodes, r: Request, items: seq<Item>, i: Item)
    requires Closed(t0) && Sound(t0, r, items) && i in items && !i.conflict
    requires Copying(t0, b, r, items, 0) && OnlyRemoved(b, c, Dest(r, i))
    ensures Copying(t0, c, r, items, 0)
  {
    hide Closed, Sound, OnlyRemoved, Pending, Spared, Local;
    SoundItems(t0, r, items, i, i);
    RemovalIsLocal(b, c, Src(r, i), Dest(r, i));
    FreeSpares(t0, b, c, r, items, i);
    forall j | j in items ensures Pending(t0, c, r, j) { UndoOther(t0, b, c, r, items, i, j); }
  }

  /** All items have arrived. */
  ghost predicate AllThere(t0: Nodes, t: Nodes, r: Request, items: seq<Item>) {
    Spared(t0, t, r, items) && forall i :: i in items ==> Arrived(t0, t, r, i)
  }

  /** The sources go once every item has arrived; one that resists is reported. */
  method RemoveSources(d: Disk, r: Request, items: seq<Item>, f: Faults, ghost t0: Nodes) returns (all: bool)
    requires d.Valid() && Closed(t0) && ElsewhereKept(t0, d.nodes, r, items)
    requires forall i :: i in items ==> !(Src(r, i) <= Dest(r, i))
    requires Sound(t0, r, items) ==> AllThere(t0, d.nodes, r, items)
    modifies d
    ensures d.Valid() && ElsewhereKept(t0, d.nodes, r, items)
    ensures Sound(t0, r, items) ==> AllThere(t0, d.nodes, r, items)
    ensures all ==> forall i :: i in items ==> Gone(d.nodes, Src(r, i))
    ensures DistinctItems(items) && (forall i :: i in items ==> Src(r, i) in old(d.nodes)) ==>
              (all <==> forall i :: i in items ==> i.name !in f.resisting)
  {
    hide Closed, Local, OnlyRemoved, Sound, AllThere, ElsewhereKept, Gone;
    all := true;
    for k := 0 to |items|
      invariant d.Valid() && ElsewhereKept(t0, d.nodes, r, items)
      invariant Sound(t0, r, items) ==> AllThere(t0, d.nodes, r, items)
      invariant all ==> forall l :: 0 <= l < k ==> Gone(d.nodes, Src(r, items[l]))
      invariant DistinctItems(items) && (forall i :: i in items ==> Src(r, i) in old(d.nodes)) ==>
                  (all <==> forall l :: 0 <= l < k ==> items[l].name !in f.resisting)
                  && forall l :: k <= l < |items| ==> Src(r, items[l]) in d.nodes
    {
      var i := items[k];
      assert i in items;
      ghost var b := d.nodes;
      var ok := RemoveTree(d, Src(r, i), i.name in f.resisting);
      if !ok { all := false; }
      RemovalIsLocal(b, d.nodes, Src(r, i), Dest(r, i));
      LocalElsewhere(t0, b, d.nodes, r, items, i);
      if Sound(t0, r, items) { SourceGoesSafely(t0, b, d.nodes, r, items, i); }
      forall l | 0 <= l < k && Gone(b, Src(r, items[l])) ensures Gone(d.nodes, Src(r, items[l])) {
        StaysGone(b, d.nodes, Src(r, i), Src(r, items[l]));
      }
      forall l | k < l < |items| && Src(r, items[l]) in b && items[l].name != i.name
          ensures Src(r, items[l]) in d.nodes {
        SiblingStays(b, d.nodes, r, i, items[l]);
      }
    }
  }

  lemma SourceGoesSafely(t0: Nodes, b: Nodes, c: Nodes, r: Request, items: seq<Item>, i: Item)
    requires Closed(t0) && Sound(t0, r, items) && i in items && !(Src(r, i) <= Dest(r, i))
    requires AllThere(t0, b, r, items) && OnlyRemoved(b, c, Src(r, i))
    ensures AllThere(t0, c, r, items)
  {
    hide Closed, Sound, OnlyRemoved, Spared, Arrived;
    RemovalSpares(t0, b, c, r, items, i);
    forall j | j in items ensures Arrived(t0, c, r, j) { RemoveOther(t0, b, c, r, items, i, j); }
  }

  lemma StaysGone(b: Nodes, c: Nodes, removed: Path, root: Path)
    requires OnlyRemoved(b, c, removed) && Gone(b, root)
    ensures Gone(c, root)
  {
  }

  lemma SiblingStays(b: Nodes, c: Nodes, r: Request, i: Item, j: Item)
    requires i.name != j.name && OnlyRemoved(b, c, Src(r, i)) && Src(r, j) in b
    ensures Src(r, j) in c
  {
    ChildrenApart(r.srcDir, j.name, i.name, Src(r, j));
  }

  // ---------- The handlers ----------

  /** No call that Move depends on fails for these items. */
  predicate Unhindered(r: Request, items: seq<Item>, f: Faults) {
    forall i :: i in items ==>
      if r.srcSite == r.destSite then Removable(i, f) else i.name !in f.unrepaired && i.name !in f.resisting
  }

  /** Move. Under every outcome of a sound request, with any conflict policy, each node below a moved source
      is still there or at its destination, and the destination's other content is untouched. After a
      success every item has arrived and left its source. Conversely, once the items of a success have all
      left their sources, as they have across sites and for a single name, something is lost if the request
      is not sound: when a copy up to an ancestor has reached into a source. */
  method Move(d: Disk, r: Request, f: Faults) returns (o: Response, items: seq<Item>)
    requires d.Valid()
    modifies d
    ensures d.Valid() && ElsewhereKept(old(d.nodes), d.nodes, r, items)
    ensures SoundRequest(old(d.nodes), r) ==>
            AllConserved(old(d.nodes), d.nodes, r, items) && Spared(old(d.nodes), d.nodes, r, items)
    ensures o.Done? && SoundRequest(old(d.nodes), r) ==> forall i :: i in items ==> Arrived(old(d.nodes), d.nodes, r, i)
    ensures o.Done? && (SeparateRequest(r) || |items| == 1 || r.srcSite != r.destSite) ==>
              AllGone(d.nodes, r, items)
    ensures o.Done? && AllGone(d.nodes, r, items) && DistinctNames(r.names) && Taken(r, items) ==>
              (AllConserved(old(d.nodes), d.nodes, r, items) <==> SoundRequest(old(d.nodes), r))
    ensures !o.Refused? && !r.policy.Skip? ==> Taken(r, items)
    ensures !o.Refused? ==> Accounted(r, old(d.nodes), items) && Itemised(old(d.nodes), r, items)
    ensures !o.Refused? && d.reliable && Smooth(old(d.nodes), r, items) ==> (o.Done? <==> Unhindered(r, items, f))
    ensures !o.Refused? && d.reliable && r.srcSite == r.destSite && |items| == 1 &&
            LevelItem(old(d.nodes), r, items[0]) ==>
              (o.Done? <==> Unhindered(r, items, f))
    ensures BadRequest(r, old(d.nodes)) ==> o.Refused?
    ensures o.Refused? ==> d.nodes == old(d.nodes)
    ensures o.Refused? && d.reliable ==> r.names == [] || BadRequest(r, old(d.nodes)) || r.policy.Ask?
  {
    hide Closed, Sound, SoundRequest, Separate, SeparateRequest, Conserved, Spared, Arrived, ElsewhereKept, Gone,
         Accounted, Itemised, BadRequest, Removable, Copying, LevelItem, Taken, AllGone, NoneInside,
         AllConserved, Unhindered, Smooth, DistinctNames, TrimSpace;
    ghost var t0 := d.nodes;
    items := [];
    NothingElsewhere(t0, r, items);
    if r.names == [] { return Refused, []; }
    var res := Resolve(d, r);
    if !res.Resolved? { return Refused, []; }
    items := res.items;
    ResolvedSound(t0, r, res);
    if r.srcSite == r.destSite {
      UnhinderedWithin(r, items, f);
      o := MoveWithin(d, r, items, f);
    } else {
      o := MoveAcross(d, r, items, f);
    }
    if !r.policy.Skip? { AllTaken(t0, r, items); }
    GoneOfNone(d.nodes, r);
    if o.Done? && AllGone(d.nodes, r, items) && DistinctNames(r.names) && Taken(r, items) {
      ConservedIff(t0, d.nodes, r, items);
    }
  }

  lemma UnhinderedWithin(r: Request, items: seq<Item>, f: Faults)
    requires r.srcSite == r.destSite
    ensures Unhindered(r, items, f) <==> forall i :: i in items ==> Removable(i, f)
    ensures |items| == 1 ==> (Unhindered(r, items, f) <==> Removable(items[0], f))
  {
    hide Removable;
    assert |items| == 1 ==> items[0] in items;
  }

  /** No requested name has been skipped. */
  ghost predicate Taken(r: Request, items: seq<Item>) {
    forall n :: n in r.names ==> exists i :: i in items && i.name == TrimSpace(n)
  }

  lemma GoneOfNone(t: Nodes, r: Request)
    ensures AllGone(t, r, [])
  {
  }

  lemma AllTaken(t0: Nodes, r: Request, items: seq<Item>)
    requires Accounted(r, t0, items) && !r.policy.Skip?
    ensures Taken(r, items)
  {
    hide TrimSpace;
  }

  /** Once all requested items have left their sources, an unsound request has lost something. */
  lemma ConservedIff(t0: Nodes, t: Nodes, r: Request, items: seq<Item>)
    requires AllGone(t, r, items) && DistinctNames(r.names) && Taken(r, items)
    requires items != [] ==> r.srcDir != r.destDir
    requires NoneInside(r, items) && forall i :: i in items ==> (i.conflict <==> Dest(r, i) in t0)
    requires SoundRequest(t0, r) ==> AllConserved(t0, t, r, items)
    ensures AllConserved(t0, t, r, items) <==> SoundRequest(t0, r)
  {
    hide Conserved, Gone, Reaches, TrimSpace, DistinctNames, SeparateRequest;
    if AllConserved(t0, t, r, items) {
      forall m, n | m in r.names && n in r.names
        ensures var i, j := Named(t0, r, m), Named(t0, r, n);
                !Reaches(t0, r, i, j) && !(i.name != j.name && Src(r, j) < Dest(r, i))
      {
        var i :| i in items && i.name == TrimSpace(m);
        var j :| j in items && j.name == TrimSpace(n);
        assert i == Named(t0, r, m) && j == Named(t0, r, n);
        if Reaches(t0, r, i, j) { LostWhenReached(t0, t, r, i, j); }
        SourceIsNoDest(r, i, j);
        SourceIsNoDest(r, j, j);
      }
    }
  }

  /** Move to another site: copy everything, then remove the sources. */
  method MoveAcross(d: Disk, r: Request, items: seq<Item>, f: Faults) returns (o: Response)
    requires d.Valid() && r.srcSite != r.destSite
    modifies d
    ensures d.Valid() && ElsewhereKept(old(d.nodes), d.nodes, r, items)
    ensures Sound(old(d.nodes), r, items) ==>
            AllConserved(old(d.nodes), d.nodes, r, items) && Spared(old(d.nodes), d.nodes, r, items)
    ensures o.Done? && Sound(old(d.nodes), r, items) ==> forall i :: i in items ==> Arrived(old(d.nodes), d.nodes, r, i)
    ensures o.Done? ==> AllGone(d.nodes, r, items) && NoneInside(r, items)
    ensures d.reliable && Smooth(old(d.nodes), r, items) ==> (o.Done? <==> Unhindered(r, items, f))
    ensures !o.Refused?
  {
    hide Closed, Sound, Separate, Conserved, Spared, Arrived, ElsewhereKept, Gone, Copying, Ready;
    ghost var t0 := d.nodes;
    var ok := CopyAll(d, r, items, f);
    if Sound(t0, r, items) { CopyingEnds(t0, d.nodes, r, items, if ok then |items| else 0); }
    if !ok { return Failed; }
    ok := RemoveSources(d, r, items, f, t0);
    if Sound(t0, r, items) { ThereIsConserved(t0, d.nodes, r, items); }
    o := if ok then Done else Failed;
  }

  lemma CopyingEnds(t0: Nodes, t: Nodes, r: Request, items: seq<Item>, k: nat)
    requires k <= |items| && Copying(t0, t, r, items, k)
    ensures AllConserved(t0, t, r, items) && Spared(t0, t, r, items)
    ensures k == |items| ==> AllThere(t0, t, r, items)
  {
    hide Pending, Arrived, Spared, Conserved;
    OpenIsConserved(t0, t, r, items);
  }

  lemma ThereIsConserved(t0: Nodes, t: Nodes, r: Request, items: seq<Item>)
    requires AllThere(t0, t, r, items)
    ensures AllConserved(t0, t, r, items) && Spared(t0, t, r, items) && forall i :: i in items ==> Arrived(t0, t, r, i)
  {
    hide Pending, Arrived, Spared, Conserved;
    OpenIsConserved(t0, t, r, items);
  }

  /** No ownership repair that fails is that of a destination with a source in it. */
  predicate RepairsSpareSources(r: Request, items: seq<Item>, f: Faults) {
    r.srcSite == r.destSite || forall i, j :: i in items && j in items && i.name in f.unrepaired ==>
        !(Dest(r, i) < Src(r, j))
  }

  predicate Repaired(r: Request, items: seq<Item>, f: Faults) {
    r.srcSite == r.destSite || forall i :: i in items ==> i.name !in f.unrepaired
  }

  lemma RepairUndone(t0: Nodes, b: Nodes, c: Nodes, r: Request, items: seq<Item>, i: Item, f: Faults)
    requires Closed(t0) && Sound(t0, r, items) && i in items && !(Src(r, i) <= Dest(r, i))
             && AllPending(t0, b, r, items)
    requires r.srcSite != r.destSite && i.name in f.unrepaired && RepairsSpareSources(r, items, f)
    requires OnlyRemoved(b, c, Dest(r, i))
    ensures AllPending(t0, c, r, items)
  {
    hide Closed, Sound, OnlyRemoved, Pending, Swallows;
    forall j | j in items ensures Pending(t0, c, r, j) {
      assert Pending(t0, b, r, j) && !(Dest(r, i) < Src(r, j));
      StaysPending(t0, b, c, r, items, i, j);
    }
  }

  lemma StaysPending(t0: Nodes, b: Nodes, c: Nodes, r: Request, items: seq<Item>, i: Item, j: Item)
    requires Closed(t0) && Sound(t0, r, items) && i in items && j in items && Pending(t0, b, r, j)
    requires !(Src(r, i) <= Dest(r, i)) && !(Dest(r, i) < Src(r, j)) && OnlyRemoved(b, c, Dest(r, i))
    ensures Pending(t0, c, r, j)
  {
    hide Closed, Sound;
    var s, d := Src(r, j), Dest(r, i);
    SoundItems(t0, r, items, i, j);
    SourceIsNoDest(r, i, j);
    forall p | s <= p && d <= p ensures p !in t0 && Swallows(r, j) {
      PrefixesOf(s, d, p);
      if p in t0 { AncestorsPresent(t0, p, d); }
    }
  }

  lemma CopyingPending(t0: Nodes, t: Nodes, r: Request, items: seq<Item>, k: nat)
    requires k <= |items| && Copying(t0, t, r, items, k)
    ensures AllPending(t0, t, r, items) && Spared(t0, t, r, items)
    ensures k == |items| ==> forall i :: i in items ==> Arrived(t0, t, r, i)
  {
  }

  /** A failed ownership repair costs no more than its item's destination: the items before it have arrived,
      and what the destination held besides the items is kept elsewhere. */
  ghost predicate OnlyBroken(t0: Nodes, t: Nodes, r: Request, items: seq<Item>, k: nat)
    requires k < |items|
  {
    && (forall l :: 0 <= l < k ==> Arrived(t0, t, r, items[l]))
    && forall q :: q in t0 && Extra(t0, r, items, q) && !(Dest(r, items[k]) <= q) ==> q in t && t[q] == t0[q]
  }

  lemma RestStays(t0: Nodes, b: Nodes, c: Nodes, r: Request, items: seq<Item>, k: nat, f: Faults)
    requires k < |items| && Copying(t0, b, r, items, k + 1) && OnlyRemoved(b, c, Dest(r, items[k]))
    requires items[k].name in f.unrepaired && forall l :: 0 <= l < k ==> items[l].name !in f.unrepaired
    ensures OnlyBroken(t0, c, r, items, k)
  {
    hide Extra, Pending;
    forall l | 0 <= l < k ensures Arrived(t0, c, r, items[l]) {
      ArrivedStays(t0, b, c, r, items[l], items[k]);
    }
  }

  lemma ArrivedStays(t0: Nodes, b: Nodes, c: Nodes, r: Request, i: Item, gone: Item)
    requires i.name != gone.name && Arrived(t0, b, r, i) && OnlyRemoved(b, c, Dest(r, gone))
    ensures Arrived(t0, c, r, i)
  {
    forall p | p in t0 && Src(r, i) <= p
      ensures Rebase(p, Src(r, i), Dest(r, i)) in c && c[Rebase(p, Src(r, i), Dest(r, i))] == t0[p]
    {
      ChildrenApart(r.destDir, i.name, gone.name, Rebase(p, Src(r, i), Dest(r, i)));
    }
  }

  /** The loop of Copy over the resolved items. `broken` is the item whose ownership repair failed, if any. */
  method CopyItems(d: Disk, r: Request, items: seq<Item>, f: Faults) returns (o: Response, broken: nat)
    requires d.Valid()
    modifies d
    ensures d.Valid() && ElsewhereKept(old(d.nodes), d.nodes, r, items)
    ensures broken <= |items| && !o.Refused?
    ensures broken < |items| ==> o.Failed? && r.srcSite != r.destSite && items[broken].name in f.unrepaired
    ensures broken < |items| ==> forall l :: 0 <= l < broken ==> items[l].name !in f.unrepaired
    ensures broken < |items| && items[broken].name !in f.resisting ==> Gone(d.nodes, Dest(r, items[broken]))
    ensures Sound(old(d.nodes), r, items) && RepairsSpareSources(r, items, f) ==>
            AllPending(old(d.nodes), d.nodes, r, items)
    ensures Sound(old(d.nodes), r, items) && broken == |items| ==>
              AllPending(old(d.nodes), d.nodes, r, items) && Spared(old(d.nodes), d.nodes, r, items)
    ensures Sound(old(d.nodes), r, items) && broken < |items| ==> OnlyBroken(old(d.nodes), d.nodes, r, items, broken)
    ensures Sound(old(d.nodes), r, items) && o.Done? ==> forall i :: i in items ==> Arrived(old(d.nodes), d.nodes, r, i)
    ensures d.reliable && Smooth(old(d.nodes), r, items) ==>
              (o.Done? <==> Repaired(r, items, f)) && (!o.Done? ==> broken < |items|)
  {
    hide Closed, Local, Sound, Copying, ElsewhereKept, Exact, Ready, Pending, Arrived, Spared, Gone,
         RepairsSpareSources, OnlyRemoved, OnlyBroken;
    ghost var t0 := d.nodes;
    NothingElsewhere(t0, r, items);
    NothingCopied(t0, r, items);
    broken := |items|;
    for k := 0 to |items|
      invariant d.Valid() && ElsewhereKept(t0, d.nodes, r, items) && broken == |items|
      invariant Sound(t0, r, items) ==> Copying(t0, d.nodes, r, items, k)
      invariant forall l :: 0 <= l < k && r.srcSite != r.destSite ==> items[l].name !in f.unrepaired
      invariant d.reliable && Smooth(t0, r, items) ==> Lined(d.nodes, r, items, k)
    {
      ghost var b := d.nodes;
      var i := items[k];
      assert i in items;
      if d.reliable && Smooth(t0, r, items) { LinedNext(b, r, items, k); }
      var ok := CopyOne(d, r, items, k, t0);
      LocalElsewhere(t0, b, d.nodes, r, items, i);
      if Sound(t0, r, items) { CopyingPending(t0, d.nodes, r, items, 0); }
      if !ok { return Failed, |items|; }
      if d.reliable && Smooth(t0, r, items) { LinedOn(t0, b, d.nodes, r, items, k); }
      if r.srcSite != r.destSite && i.name in f.unrepaired {
        ghost var c := d.nodes;
        var _ := RemoveOccupied(d, Dest(r, i), i.name in f.resisting);
        RemovalIsLocal(c, d.nodes, Src(r, i), Dest(r, i));
        LocalElsewhere(t0, c, d.nodes, r, items, i);
        if Sound(t0, r, items) { RestStays(t0, c, d.nodes, r, items, k, f); }
        if Sound(t0, r, items) && RepairsSpareSources(r, items, f) { RepairUndone(t0, c, d.nodes, r, items, i, f); }
        return Failed, k;
      }
    }
    if Sound(t0, r, items) { CopyingPending(t0, d.nodes, r, items, |items|); }
    return Done, |items|;
  }

  /** A removal that does not resist leaves nothing, whether or not there was something. */
  method RemoveOccupied(d: Disk, p: Path, resists: bool) returns (ok: bool)
    requires d.Valid()
    modifies d
    ensures d.Valid() && OnlyRemoved(old(d.nodes), d.nodes, p)
    ensures !resists ==> Gone(d.nodes, p)
  {
    hide Closed;
    ok := RemoveTree(d, p, resists);
    if p !in d.nodes { NothingBelow(d.nodes, p); }
  }

  /** Copy. The sources of a sound request are not touched, after a success every item has arrived, and what
      the destination held without a counterpart at the source is kept; unless an ownership repair fails:
      then the handler removes that item's destination, old content included, and any source that lies in
      it. Without obstacles that happens exactly to the first name whose ownership cannot be repaired. */
  method Copy(d: Disk, r: Request, f: Faults) returns (o: Response, items: seq<Item>, broken: nat)
    requires d.Valid()
    modifies d
    ensures d.Valid() && ElsewhereKept(old(d.nodes), d.nodes, r, items)
    ensures broken <= |items|
    ensures broken < |items| ==> o.Failed? && r.srcSite != r.destSite && items[broken].name in f.unrepaired
    ensures broken < |items| ==> forall l :: 0 <= l < broken ==> items[l].name !in f.unrepaired
    ensures broken < |items| && items[broken].name !in f.resisting ==> Gone(d.nodes, Dest(r, items[broken]))
    ensures SoundRequest(old(d.nodes), r) && RepairsSpareSources(r, items, f) ==>
            AllPending(old(d.nodes), d.nodes, r, items)
    ensures SoundRequest(old(d.nodes), r) && broken == |items| ==>
              AllPending(old(d.nodes), d.nodes, r, items) && Spared(old(d.nodes), d.nodes, r, items)
    ensures SoundRequest(old(d.nodes), r) && broken < |items| ==> OnlyBroken(old(d.nodes), d.nodes, r, items, broken)
    ensures SoundRequest(old(d.nodes), r) && o.Done? ==> forall i :: i in items ==> Arrived(old(d.nodes), d.nodes, r, i)
    ensures !o.Refused? ==> Accounted(r, old(d.nodes), items) && Itemised(old(d.nodes), r, items)
    ensures !o.Refused? && d.reliable && Smooth(old(d.nodes), r, items) ==>
              (o.Done? <==> Repaired(r, items, f)) && (!o.Done? ==> broken < |items|)
    ensures BadRequest(r, old(d.nodes)) ==> o.Refused?
    ensures o.Refused? ==> d.nodes == old(d.nodes)
    ensures o.Refused? && d.reliable ==> r.names == [] || BadRequest(r, old(d.nodes)) || r.policy.Ask?
  {
    hide Closed, Sound, SoundRequest, Separate, SeparateRequest, Pending, Spared, Arrived, ElsewhereKept, Gone,
         Accounted, Itemised, BadRequest, RepairsSpareSources, Repaired, Smooth;
    ghost var t0 := d.nodes;
    NothingElsewhere(t0, r, []);
    if r.names == [] { return Refused, [], 0; }
    var res := Resolve(d, r);
    if !res.Resolved? { return Refused, [], 0; }
    items := res.items;
    ResolvedSound(t0, r, res);
    o, broken := CopyItems(d, r, items, f);
  }

  // ---------- Instances ----------

  /** A name that the handlers take as it is. */
  ghost predicate PlainName(n: string) {
    CleanName(n) && TrimSpace(n) == n
  }

  /** /x/n/n/n/f, a file below three directories of one name. */
  function Deep(x: string, n: string, f: string, data: string): Nodes {
    map[[] := Dir, [x] := Dir, [x, n] := Dir, [x, n, n] := Dir, [x, n, n, n] := Dir, [x, n, n, n, f] := File(data)]
  }

  /** Moving `n` from /x/n up to /x, overwriting. */
  function Upwards(x: string, n: string): Request {
    Request(1, 1, [], [], [x, n], [x], [n], Overwrite)
  }

  lemma DeepIsClosed(x: string, n: string, f: string, data: string)
    ensures Closed(Deep(x, n, f, data))
  {
    assert Parent([x]) == [] && Parent([x, n]) == [x] && Parent([x, n, n]) == [x, n];
    assert Parent([x, n, n, n]) == [x, n, n] && Parent([x, n, n, n, f]) == [x, n, n, n];
  }

  lemma UpwardsPaths(x: string, n: string)
    ensures var i := Item(n, true);
            Src(Upwards(x, n), i) == [x, n, n] && Dest(Upwards(x, n), i) == [x, n]
            && Dest(Upwards(x, n), i) < Src(Upwards(x, n), i)
            && Src(Upwards(x, n), i) + Src(Upwards(x, n), i)[2..] == [x, n, n, n]
  {
    var s := [x, n, n];
    assert s[..2] == [x, n];
    assert s[2..] == [n];
  }

  /** Moving `n` from /x/n up to /x while /x/n/n/n exists, on a disk without failures: the move succeeds, and
      the file below that directory is in neither place. */
  method UpwardsMoveLoses(x: string, n: string, f: string, data: string) returns (d: Disk, o: Response)
    requires PlainName(n) && f != n
    ensures o.Done? && Deep(x, n, f, data)[[x, n, n, n, f]] == File(data)
    ensures [x, n, n, n, f] !in d.nodes && [x, n, n, f] !in d.nodes
    ensures !SoundRequest(Deep(x, n, f, data), Upwards(x, n))
  {
    hide Closed, BadRequest, Accounted, Itemised, Gone, SoundRequest, SeparateRequest, ElsewhereKept, Level,
         AllConserved, Spared;
    DeepIsClosed(x, n, f, data);
    UpwardsPaths(x, n);
    UpwardsIsGood(x, n, f, data);
    UpwardsIsUnsound(x, n, f, data);
    DeepIsLevel(x, n, f, data);
    d := new Disk(Deep(x, n, f, data), true);
    var items;
    o, items := Move(d, Upwards(x, n), Faults({}, {}));
    OneItem(Deep(x, n, f, data), Upwards(x, n), items, n);
    GoneBelow(d.nodes, [x, n, n], [x, n, n, n, f]);
    GoneBelow(d.nodes, [x, n, n], [x, n, n, f]);
  }

  lemma UpwardsIsGood(x: string, n: string, f: string, data: string)
    requires PlainName(n)
    ensures var t, r := Deep(x, n, f, data), Upwards(x, n);
            !BadRequest(r, t) && Named(t, r, n) == Item(n, true)
  {
    hide CleanName, TrimSpace;
    var t, r := Deep(x, n, f, data), Upwards(x, n);
    var s, d := [x, n, n], [x, n];
    assert Child(r.srcDir, n) == s && Child(r.destDir, n) == d;
    assert |s| != |d|;
    assert !BadName(r, t, n) && Child(r.destDir, TrimSpace(n)) in t;
    forall m | m in r.names ensures m == n {
    }
  }

  /** Everything but what is called `f` is to be a directory. */
  lemma DeepIsLevel(x: string, n: string, f: string, data: string)
    requires f != n
    ensures LevelItem(Deep(x, n, f, data), Upwards(x, n), Item(n, true))
  {
    var t, s, d := Deep(x, n, f, data), [x, n, n], [x, n];
    var kinds: Kinds := p => p == [] || p[|p| - 1] != f;
    UpwardsPaths(x, n);
    assert Parent(d) == [x];
    forall p | s <= p ensures kinds(Rebase(p, s, d)) == kinds(p) {
      var q := Rebase(p, s, d);
      assert q[|q| - 1] == if p == s then n else p[|p| - 1];
      assert p == s ==> p[|p| - 1] == n;
    }
    forall p | p in t && (s <= p || d <= p) ensures t[p].Dir? == kinds(p) {
      assert p != [] && p != [x];
    }
    assert Level(t, s, d, kinds);
  }

  /** The request is not sound: its copy reaches into its own source. */
  lemma UpwardsIsUnsound(x: string, n: string, f: string, data: string)
    requires PlainName(n)
    ensures !SoundRequest(Deep(x, n, f, data), Upwards(x, n))
    ensures Reaches(Deep(x, n, f, data), Upwards(x, n), Item(n, true), Item(n, true))
  {
    hide CleanName, TrimSpace;
    var i, t, r := Item(n, true), Deep(x, n, f, data), Upwards(x, n);
    UpwardsPaths(x, n);
    assert [x, n] in t && [x, n, n, n] in t;
    assert Named(t, r, n) == i && n in r.names;
  }

  /** Two sites /a and /b, each with a directory `n`; the second one's holds a file. */
  function TwoSites(a: string, b: string, n: string, f: string, data: string): Nodes {
    map[[] := Dir, [a] := Dir, [b] := Dir, [a, n] := Dir, [b, n] := Dir, [b, n, f] := File(data)]
  }

  /** Copying `n` from the one to the other, overwriting. */
  function Across(a: string, b: string, n: string): Request {
    Request(1, 2, [a], [b], [a], [b], [n], Overwrite)
  }

  lemma TwoSitesAreClosed(a: string, b: string, n: string, f: string, data: string)
    ensures Closed(TwoSites(a, b, n, f, data))
  {
    assert Parent([a]) == [] && Parent([b]) == [] && Parent([a, n]) == [a];
    assert Parent([b, n]) == [b] && Parent([b, n, f]) == [b, n];
  }

  lemma AcrossIsReady(a: string, b: string, n: string, f: string, data: string)
    requires a != b
    ensures var t, r, i := TwoSites(a, b, n, f, data), Across(a, b, n), Item(n, true);
            Src(r, i) == [a, n] && Dest(r, i) == [b, n] && Ready(t, r, i)
  {
    var t, r, i := TwoSites(a, b, n, f, data), Across(a, b, n), Item(n, true);
    var s, d := [a, n], [b, n];
    assert Src(r, i) == s && Dest(r, i) == d;
    assert s[..1] == [a] && d[..1] == [b] && Parent(d) == [b];
    assert s[0] != d[0];
    forall p | p in t && s <= p ensures p == s {
      assert |p| >= 2 && p[0] == a;
    }
    assert s[2..] == [];
    assert Rebase(s, s, d) == d;
  }

  lemma AcrossIsGood(a: string, b: string, n: string, f: string, data: string)
    requires a != b && PlainName(n)
    ensures var t, r := TwoSites(a, b, n, f, data), Across(a, b, n);
            !BadRequest(r, t) && Named(t, r, n) == Item(n, true)
  {
    hide CleanName, TrimSpace;
    var t, r := TwoSites(a, b, n, f, data), Across(a, b, n);
    var s, d := [a, n], [b, n];
    assert Child(r.srcDir, n) == s && Child(r.destDir, n) == d;
    assert s[0] != d[0];
    assert !BadName(r, t, n) && Child(r.destDir, TrimSpace(n)) in t;
    forall m | m in r.names ensures m == n {
    }
  }

  lemma OneItem(t0: Nodes, r: Request, items: seq<Item>, n: string)
    requires r.names == [n] && Accounted(r, t0, items) && Itemised(t0, r, items) && !r.policy.Skip?
    ensures items == [Named(t0, r, n)]
  {
    assert n in r.names;
    assert DistinctNames(r.names);
    forall k | 0 <= k < |items| ensures items[k] == Named(t0, r, n) {
      assert items[k] in items;
    }
    if |items| >= 2 { DistinctPair(items, 0, 1); }
  }

  lemma DistinctPair(items: seq<Item>, k: nat, l: nat)
    requires DistinctItems(items) && k < l < |items|
    ensures items[k].name != items[l].name
  {
  }

  /** Copying a directory over one of the same name at another site, with nothing failing but the ownership
      repair: the old file at the destination, which the source has no counterpart of, is gone. */
  method OldContentIsLost(a: string, b: string, n: string, f: string, data: string) returns (d: Disk)
    requires a != b && PlainName(n)
    ensures TwoSites(a, b, n, f, data)[[b, n, f]] == File(data) && [b, n, f] !in d.nodes
  {
    hide Closed, BadRequest, Ready, Accounted, Itemised, Gone, SoundRequest, SeparateRequest, ElsewhereKept,
         RepairsSpareSources;
    TwoSitesAreClosed(a, b, n, f, data);
    AcrossIsReady(a, b, n, f, data);
    AcrossIsGood(a, b, n, f, data);
    d := new Disk(TwoSites(a, b, n, f, data), true);
    var o, items, broken := Copy(d, Across(a, b, n), Faults({n}, {}));
    OneItem(TwoSites(a, b, n, f, data), Across(a, b, n), items, n);
    OneIsSmooth(TwoSites(a, b, n, f, data), Across(a, b, n), items[0]);
    assert items[0] in items;
    assert [b, n, f][..2] == [b, n];
    GoneBelow(d.nodes, [b, n], [b, n, f]);
  }

  lemma OneIsSmooth(t: Nodes, r: Request, i: Item)
    requires Ready(t, r, i) && r.srcDir != r.destDir
    ensures Smooth(t, r, [i])
  {
  }

  lemma GoneBelow(t: Nodes, p: Path, q: Path)
    requires Gone(t, p) && p <= q
    ensures q !in t
  {
  }
}
