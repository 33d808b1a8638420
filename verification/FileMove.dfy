/** Moving and copying items between two directories, of one site or of two (handlers/file.go). */
module FileMove {
  import opened GoStrings
  import opened FileTree
  import opened FileCopy
  import opened FileTransfer

  datatype Policy = Ask | Overwrite | Skip

  /** An item to transfer: its name, and whether the destination had one of that name. */
  datatype Item = Item(name: string, conflict: bool)

  /** Site 0 is the backup directory. */
  datatype Request = Request(srcSite: nat, destSite: nat, srcBase: Path, destBase: Path, srcDir: Path, destDir: Path,
                             names: seq<string>, policy: Policy)

  datatype Resolution = Resolved(items: seq<Item>, skipped: seq<string>) | Conflicts(names: seq<string>) | Invalid

  datatype Response = Done | Refused | Failed

  function Src(r: Request, i: Item): Path { Child(r.srcDir, i.name) }

  function Dest(r: Request, i: Item): Path { Child(r.destDir, i.name) }

  /** cleanFileOperationName. */
  predicate CleanName(name: string) {
    name != "" && name != "." && name != ".." && '/' !in name && '\\' !in name
  }

  ghost predicate DistinctNames(names: seq<string>) {
    forall k, l :: 0 <= k < l < |names| ==> TrimSpace(names[k]) != TrimSpace(names[l])
  }

  ghost predicate DistinctItems(items: seq<Item>) {
    forall k, l :: 0 <= k < l < |items| ==> items[k].name != items[l].name
  }

  ghost predicate Before(names: seq<string>, k: nat, name: string)
    requires k <= |names|
  {
    exists m :: 0 <= m < k && TrimSpace(names[m]) == name
  }

  lemma BeforeMore(names: seq<string>, k: nat)
    requires k < |names|
    ensures DistinctNames(names) ==> !Before(names, k, TrimSpace(names[k]))
    ensures Before(names, k + 1, TrimSpace(names[k]))
    ensures forall name :: Before(names, k, name) ==> Before(names, k + 1, name)
  {
  }

  /** Every requested name is transferred, or is skipped because the policy says so and the destination has
      it. */
  ghost predicate Accounted(r: Request, t: Nodes, items: seq<Item>) {
    forall n :: n in r.names ==>
      (exists i :: i in items && i.name == TrimSpace(n)) || (r.policy.Skip? && Child(r.destDir, TrimSpace(n)) in t)
  }

  predicate BadName(r: Request, t: Nodes, n: string) {
    var name := TrimSpace(n);
    !CleanName(name) || Child(r.srcDir, name) == Child(r.destDir, name) || Child(r.srcDir, name) !in t
  }

  /** Requests that are turned down whatever the policy. */
  ghost predicate BadRequest(r: Request, t: Nodes) {
    || (r.srcSite != r.destSite && (r.srcSite == 0 || r.destSite == 0))
    || !(r.srcBase <= r.srcDir) || !(r.destBase <= r.destDir)
    || exists n :: n in r.names && BadName(r, t, n)
  }

  /** The items made of the first `k` names. */
  ghost predicate ItemsSoFar(r: Request, t: Nodes, k: nat, items: seq<Item>)
    requires k <= |r.names|
  {
    && (forall i :: i in items ==> Src(r, i) in t && (i.conflict <==> Dest(r, i) in t) && Before(r.names, k, i.name))
    && (forall i :: i in items && i.conflict ==> r.policy.Overwrite?)
    && (DistinctNames(r.names) ==> DistinctItems(items))
  }

  /** The items so far are those of the first `k` names that are not skipped or reported. */
  ghost predicate Resolving(r: Request, t: Nodes, k: nat, items: seq<Item>, skipped: seq<string>,
      conflicts: seq<string>)
    requires k <= |r.names|
  {
    && |items| + |skipped| + |conflicts| == k && ItemsSoFar(r, t, k, items)
    && (k > 0 ==> r.srcDir != r.destDir)
    && (forall n :: n in r.names[..k] ==> !BadName(r, t, n))
    && (skipped != [] ==> r.policy.Skip?) && (conflicts != [] ==> r.policy.Ask?)
    && (forall n :: n in conflicts ==> Child(r.destDir, n) in t)
    && (conflicts == [] ==> Accounted(r.(names := r.names[..k]), t, items))
  }

  function WithItem(r: Request, t: Nodes, name: string, items: seq<Item>): seq<Item> {
    if Child(r.destDir, name) !in t then items + [Item(name, false)]
    else if r.policy.Overwrite? then items + [Item(name, true)] else items
  }

  lemma ItemsMore(r: Request, t: Nodes, k: nat, items: seq<Item>)
    requires k < |r.names| && ItemsSoFar(r, t, k, items) && !BadName(r, t, r.names[k])
    ensures ItemsSoFar(r, t, k + 1, WithItem(r, t, TrimSpace(r.names[k]), items))
  {
    hide CleanName, Before, DistinctNames, TrimSpace;
    BeforeMore(r.names, k);
    var name, more := TrimSpace(r.names[k]), WithItem(r, t, TrimSpace(r.names[k]), items);
    forall i | i in more ensures i in items || i == Item(name, Child(r.destDir, name) in t) {
    }
    if DistinctNames(r.names) {
      forall a, b | 0 <= a < b < |more| ensures more[a].name != more[b].name {
        assert more[a] in items;
      }
    }
  }

  lemma ResolvingMore(r: Request, t: Nodes, k: nat, items: seq<Item>, skipped: seq<string>, conflicts: seq<string>)
    requires k < |r.names| && Resolving(r, t, k, items, skipped, conflicts) && !BadName(r, t, r.names[k])
    ensures var name := TrimSpace(r.names[k]);
            var present := Child(r.destDir, name) in t;
            Resolving(r, t, k + 1, WithItem(r, t, name, items),
                      if present && r.policy.Skip? then skipped + [name] else skipped,
                      if present && r.policy.Ask? then conflicts + [name] else conflicts)
  {
    hide CleanName, Accounted, ItemsSoFar, TrimSpace;
    var name := TrimSpace(r.names[k]);
    var more := WithItem(r, t, name, items);
    ItemsMore(r, t, k, items);
    NamesMore(r, t, k);
    if conflicts == [] && !(Child(r.destDir, name) in t && r.policy.Ask?) {
      ItemNamed(r, t, name, items);
      AccountedMore(r, t, items, more, k);
    }
  }

  lemma NamesMore(r: Request, t: Nodes, k: nat)
    requires k < |r.names| && !BadName(r, t, r.names[k]) && forall n :: n in r.names[..k] ==> !BadName(r, t, n)
    ensures forall n :: n in r.names[..k + 1] ==> !BadName(r, t, n)
    ensures Child(r.srcDir, TrimSpace(r.names[k])) != Child(r.destDir, TrimSpace(r.names[k]))
  {
    assert r.names[..k + 1] == r.names[..k] + [r.names[k]];
  }

  lemma ItemNamed(r: Request, t: Nodes, name: string, items: seq<Item>)
    ensures var more := WithItem(r, t, name, items);
            items <= more && (more != items ==> exists i :: i in more && i.name == name)
  {
    var more := WithItem(r, t, name, items);
    if more != items { assert more[|items|] in more; }
  }

  lemma ResolvingEnds(r: Request, t: Nodes, items: seq<Item>, skipped: seq<string>, conflicts: seq<string>)
    requires Resolving(r, t, |r.names|, items, skipped, conflicts)
    ensures forall n :: n in r.names ==> !BadName(r, t, n)
    ensures conflicts == [] ==> Accounted(r, t, items)
    ensures forall i :: i in items ==> exists n :: n in r.names && i.name == TrimSpace(n)
    ensures items != [] ==> r.srcDir != r.destDir
  {
    assert r.names[..|r.names|] == r.names;
    forall i | i in items ensures exists n :: n in r.names && i.name == TrimSpace(n) {
      var m :| 0 <= m < |r.names| && TrimSpace(r.names[m]) == i.name;
      assert r.names[m] in r.names;
    }
  }

  lemma NamesTurnedDown(r: Request, t: Nodes)
    ensures forall n | n in r.names ::
              (TrimSpace(n) == "" || TrimSpace(n) == "." || TrimSpace(n) == ".."
               || '/' in TrimSpace(n) || '\\' in TrimSpace(n)) ==> BadName(r, t, n)
    ensures forall n | n in r.names && BadName(r, t, n) ::
              || TrimSpace(n) == "" || TrimSpace(n) == "." || TrimSpace(n) == ".."
              || '/' in TrimSpace(n) || '\\' in TrimSpace(n)
              || r.srcDir == r.destDir || Child(r.srcDir, TrimSpace(n)) !in t
  {
    hide TrimSpace;
    forall name | Child(r.srcDir, name) == Child(r.destDir, name) ensures r.srcDir == r.destDir {
      var path := Child(r.srcDir, name);
      assert path[..|path| - 1] == r.srcDir && path[..|path| - 1] == r.destDir;
    }
  }

  /** resolveTransferRequest: nothing is touched; items that exist at the destination are overwritten,
      skipped, or reported, as the policy says; and without failing look-ups exactly the bad requests are
      invalid. */
  method Resolve(d: Disk, r: Request) returns (o: Resolution)
    ensures BadRequest(r, d.nodes) ==> o.Invalid?
    ensures o.Invalid? && d.reliable ==> BadRequest(r, d.nodes)
    ensures o.Resolved? ==>
              && |o.items| + |o.skipped| == |r.names|
              && (o.items != [] ==> r.srcDir != r.destDir)
              && (forall i :: i in o.items ==> Src(r, i) in d.nodes && (i.conflict <==> Dest(r, i) in d.nodes))
              && (forall i :: i in o.items && i.conflict ==> r.policy.Overwrite?)
              && (forall i :: i in o.items ==> exists n :: n in r.names && i.name == TrimSpace(n))
              && (o.skipped != [] ==> r.policy.Skip?)
              && Accounted(r, d.nodes, o.items)
              && (DistinctNames(r.names) ==> DistinctItems(o.items))
    ensures o.Conflicts? ==> o.names != [] && r.policy.Ask? && forall n :: n in o.names ==>
            Child(r.destDir, n) in d.nodes
    // A name that passes is a single step downwards; and a request from and to proper places is turned down
    // only for a name that is none, that goes to itself, or that is not there.
    ensures !o.Invalid? ==>
              forall n :: n in r.names ==>
                TrimSpace(n) != "" && TrimSpace(n) != "." && TrimSpace(n) != ".."
                && '/' !in TrimSpace(n) && '\\' !in TrimSpace(n)
    ensures o.Invalid? && d.reliable && (r.srcSite == r.destSite || (r.srcSite != 0 && r.destSite != 0))
            && r.srcBase <= r.srcDir && r.destBase <= r.destDir ==>
              exists n | n in r.names ::
                || TrimSpace(n) == "" || TrimSpace(n) == "." || TrimSpace(n) == ".."
                || '/' in TrimSpace(n) || '\\' in TrimSpace(n)
                || r.srcDir == r.destDir || Child(r.srcDir, TrimSpace(n)) !in d.nodes
  {
    hide CleanName, Accounted, DistinctItems, DistinctNames, TrimSpace;
    NamesTurnedDown(r, d.nodes);
    if r.srcSite != r.destSite && (r.srcSite == 0 || r.destSite == 0) { return Invalid; }
    if !(r.srcBase <= r.srcDir) || !(r.destBase <= r.destDir) { return Invalid; }
    var items: seq<Item> := [];
    var conflicts: seq<string> := [];
    var skipped: seq<string> := [];
    NothingResolved(r, d.nodes);
    for k := 0 to |r.names|
      invariant Resolving(r, d.nodes, k, items, skipped, conflicts)
    {
      hide Resolving;
      ghost var n := r.names[k];
      assert n in r.names;
      var name := TrimSpace(r.names[k]);
      if !CleanName(name) {
        assert BadName(r, d.nodes, n);
        return Invalid;
      }
      var src, dest := Child(r.srcDir, name), Child(r.destDir, name);
      if src == dest {
        assert BadName(r, d.nodes, n);
        return Invalid;
      }
      var found := d.Attempt();
      if src !in d.nodes {
        assert BadName(r, d.nodes, n);
        return Invalid;
      }
      if !found { return Invalid; }
      ResolvingMore(r, d.nodes, k, items, skipped, conflicts);
      if dest in d.nodes {
        match r.policy
        case Overwrite => items := items + [Item(name, true)];
        case Skip => skipped := skipped + [name];
        case Ask => conflicts := conflicts + [name];
      } else {
        items := items + [Item(name, false)];
      }
    }
    ResolvingEnds(r, d.nodes, items, skipped, conflicts);
    o := if conflicts != [] then Conflicts(conflicts) else Resolved(items, skipped);
  }

  lemma NothingResolved(r: Request, t: Nodes)
    ensures Resolving(r, t, 0, [], [], [])
  {
  }

  lemma AccountedMore(r: Request, t: Nodes, earlier: seq<Item>, items: seq<Item>, k: nat)
    requires k < |r.names| && Accounted(r.(names := r.names[..k]), t, earlier)
    requires earlier <= items
    requires items == earlier ==> r.policy.Skip? && Child(r.destDir, TrimSpace(r.names[k])) in t
    requires items != earlier ==> exists i :: i in items && i.name == TrimSpace(r.names[k])
    ensures Accounted(r.(names := r.names[..k + 1]), t, items)
  {
    forall n | n in r.names[..k + 1]
      ensures (exists i :: i in items && i.name == TrimSpace(n))
              || (r.policy.Skip? && Child(r.destDir, TrimSpace(n)) in t)
    {
      if n in r.names[..k] {
        if i :| i in earlier && i.name == TrimSpace(n) { assert i in items; }
      } else {
        assert n == r.names[k];
      }
    }
  }

  /** removeFileOrDir. When it `resists`, an os.RemoveAll that fails may have removed part of the tree. */
  method RemoveTree(d: Disk, p: Path, resists: bool) returns (ok: bool)
    requires d.Valid()
    modifies d
    ensures d.Valid() && OnlyRemoved(old(d.nodes), d.nodes, p)
    ensures ok <==> !resists && p in old(d.nodes)
    ensures ok ==> Gone(d.nodes, p)
  {
    hide Closed;
    ok := !resists;
    if p !in d.nodes { return false; }
    if ok {
      RemovalCloses(d.nodes, p);
      d.nodes := map q | q in d.nodes && !(p <= q) :: d.nodes[q];
      return;
    }
    var removals: nat := *;
    while removals > 0
      invariant d.Valid() && OnlyRemoved(old(d.nodes), d.nodes, p)
    {
      var q: Path := *;
      if p <= q && forall c :: c in d.nodes && c != [] ==> Parent(c) != q {
        LeafRemovalCloses(d.nodes, q);
        d.nodes := d.nodes - {q};
      }
      removals := removals - 1;
    }
  }

  lemma RemovalCloses(t: Nodes, p: Path)
    requires Closed(t)
    ensures Closed(map q | q in t && !(p <= q) :: t[q])
  {
    forall q | q in t && !(p <= q) && q != [] ensures !(p <= Parent(q)) {
      assert Parent(q) <= q;
    }
  }

  lemma LeafRemovalCloses(t: Nodes, q: Path)
    requires Closed(t) && forall c :: c in t && c != [] ==> Parent(c) != q
    ensures Closed(t - {q})
  {
  }

  ghost predicate Gone(t: Nodes, p: Path) {
    forall q :: q in t ==> !(p <= q)
  }

  /** Only nodes below `p` are missing, and nothing is new. */
  ghost predicate OnlyRemoved(a: Nodes, b: Nodes, p: Path) {
    KeptOutside(a, b, p) && forall q :: q in b ==> q in a && b[q] == a[q]
  }

  /** `src` with all below it is now at `dest`, and nothing else is there; the rest is as before. */
  ghost predicate Renamed(a: Nodes, b: Nodes, src: Path, dest: Path) {
    forall q :: (q in b <==> if dest <= q then Rebase(q, dest, src) in a else q in a && !(src <= q))
                && (q in b ==> b[q] == if dest <= q then a[Rebase(q, dest, src)] else a[q])
  }

  /** os.Rename: refused when one path contains the other, when the target is a directory in use or of the
      other kind, or when there is nowhere to put it. */
  method Rename(d: Disk, src: Path, dest: Path) returns (ok: bool)
    requires d.Valid() && src != [] && dest != []
    modifies d
    ensures d.Valid() && (!ok ==> d.nodes == old(d.nodes))
    ensures ok ==> src in old(d.nodes) && Apart(src, dest) && Renamed(old(d.nodes), d.nodes, src, dest)
    ensures ok && dest in old(d.nodes) ==> Replaceable(old(d.nodes), src, dest)
    ensures d.reliable && src in old(d.nodes) && Apart(src, dest) && Vacant(old(d.nodes), dest) ==> ok
  {
    hide Closed, Renamed, RenamedNodes, Replaceable;
    ok := d.Attempt();
    if !ok || src !in d.nodes || !Apart(src, dest) { return false; }
    if Parent(dest) !in d.nodes || d.nodes[Parent(dest)].File? { return false; }
    if dest in d.nodes && !Replaceable(d.nodes, src, dest) { return false; }
    MovedMembers(d.nodes, src, dest);
    RenameCloses(d.nodes, RenamedNodes(d.nodes, src, dest), src, dest);
    d.nodes := RenamedNodes(d.nodes, src, dest);
  }

  /** The place is free and there is a directory to put something in. */
  predicate Vacant(t: Nodes, dest: Path)
    requires dest != []
  {
    dest !in t && Parent(dest) in t && t[Parent(dest)].Dir?
  }

  /** A file may take a file's place, a directory an empty directory's. */
  predicate Replaceable(t: Nodes, src: Path, dest: Path)
    requires src in t && dest in t
  {
    if t[src].File? then t[dest].File? else t[dest].Dir? && forall q :: q in t && dest <= q ==> q == dest
  }

  function RenamedNodes(t: Nodes, src: Path, dest: Path): (r: Nodes)
    ensures Renamed(t, r, src, dest)
  {
    MovedMembers(t, src, dest);
    var kept := set q | q in t && !(src <= q) && !(dest <= q);
    var moved := set q | q in t && src <= q :: Rebase(q, src, dest);
    map q | q in kept + moved :: if dest <= q then t[Rebase(q, dest, src)] else t[q]
  }

  lemma RebaseBack(a: Nodes, src: Path, dest: Path)
    ensures forall q :: q in a && src <= q ==>
            dest <= Rebase(q, src, dest) && Rebase(Rebase(q, src, dest), dest, src) == q
  {
    forall q | q in a && src <= q ensures dest <= Rebase(q, src, dest) && Rebase(Rebase(q, src, dest), dest, src) == q {
      assert Rebase(q, src, dest)[|dest|..] == q[|src|..];
      assert q == src + q[|src|..];
    }
  }

  lemma MovedMembers(a: Nodes, src: Path, dest: Path)
    ensures forall q :: q in (set p | p in a && src <= p :: Rebase(p, src, dest)) <==>
            dest <= q && Rebase(q, dest, src) in a
  {
    RebaseBack(a, src, dest);
    forall q | dest <= q && Rebase(q, dest, src) in a
      ensures q in (set p | p in a && src <= p :: Rebase(p, src, dest))
    {
      var p := Rebase(q, dest, src);
      assert p[|src|..] == q[|dest|..];
      assert Rebase(p, src, dest) == q;
    }
  }

  lemma RenamedAt(a: Nodes, b: Nodes, src: Path, dest: Path, q: Path)
    requires Renamed(a, b, src, dest)
    ensures q in b <==> if dest <= q then Rebase(q, dest, src) in a else q in a && !(src <= q)
    ensures q in b ==> b[q] == if dest <= q then a[Rebase(q, dest, src)] else a[q]
  {
  }

  lemma ParentIsDirectory(t: Nodes, q: Path)
    requires Closed(t) && q in t && q != []
    ensures Parent(q) in t && t[Parent(q)].Dir?
  {
  }

  /** Rebasing a path below `from` rebases the directory it lies in. */
  lemma RebaseParent(q: Path, from: Path, to: Path)
    requires from <= q && q != from
    ensures q != [] && from <= Parent(q) && Rebase(q, from, to) != []
    ensures Parent(Rebase(q, from, to)) == Rebase(Parent(q), from, to)
  {
    assert |q| > |from|;
    assert Parent(q)[..|from|] == q[..|from|] == from;
    assert Parent(q)[|from|..] == q[|from|..][..|q| - 1 - |from|];
  }

  lemma ParentIsAbove(q: Path)
    requires q != []
    ensures Parent(q) <= q && !(q <= Parent(q))
  {
  }

  lemma RenameCloses(a: Nodes, b: Nodes, src: Path, dest: Path)
    requires Closed(a) && Apart(src, dest) && dest != [] && src != []
    requires Parent(dest) in a && a[Parent(dest)].Dir?
    requires Renamed(a, b, src, dest)
    ensures Closed(b)
  {
    forall q | q in b && q != [] ensures Parent(q) in b && b[Parent(q)].Dir? {
      hide Renamed, Closed, Parent, Rebase;
      var r := Parent(q);
      RenamedAt(a, b, src, dest, q);
      RenamedAt(a, b, src, dest, r);
      ParentIsAbove(q);
      if dest <= q && q != dest {
        RebaseParent(q, dest, src);
        ParentIsDirectory(a, Rebase(q, dest, src));
      } else if q == dest {
        if src <= r { PrefixTrans(src, r, dest); }
      } else {
        ParentIsDirectory(a, q);
        if src <= r { PrefixTrans(src, r, q); }
        if dest <= r { PrefixTrans(dest, r, q); }
      }
    }
  }
}
