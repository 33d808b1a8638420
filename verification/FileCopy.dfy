/** The recursive copy of the file manager is a merge (handlers/file.go). */
module FileCopy {
  import opened FileTree

  function Child(p: Path, name: string): Path {
    p + [name]
  }

  /** A node below `dest` that existed is unchanged or is now the file that its counterpart is. */
  ghost predicate IntactOrReplaced(a: Nodes, b: Nodes, src: Path, dest: Path) {
    forall p :: p in a && dest <= p ==>
      p in b && (b[p] == a[p]
          || (Rebase(p, dest, src) in a && a[p].File? && b[p].File? && b[p] == a[Rebase(p, dest, src)]))
  }

  /** What a copy may and may not do, whether or not it succeeds. */
  ghost predicate Harmless(a: Nodes, b: Nodes, src: Path, dest: Path, overwrite: bool)
    requires dest != []
  {
    && SameUnder(a, b, src) && KeptOutside(a, b, dest) && (!overwrite ==> Kept(a, b))
    && NothingLost(a, b, src, dest) && ExtrasKept(a, b, src, dest) && NewNear(a, b, dest)
       && NewInShadow(a, b, src, dest)
  }

  /** What a successful copy has done: the destination is the merge of both trees. */
  ghost predicate Merged(a: Nodes, b: Nodes, src: Path, dest: Path, tidy: bool) {
    Copied(a, b, src, dest) && IntactOrReplaced(a, b, src, dest) && (tidy ==> NewAreCopies(a, b, src, dest))
  }

  lemma NoChange(a: Nodes, src: Path, dest: Path, overwrite: bool)
    requires dest != []
    ensures Harmless(a, a, src, dest, overwrite)
  {
  }

  // ---------- Whatever the destination ----------

  /** What holds even of a copy onto a directory that contains the source: nothing outside the destination
      changes, nothing at all without overwrite, and what is new is near. */
  ghost predicate Contained(a: Nodes, b: Nodes, dest: Path, overwrite: bool)
    requires dest != []
  {
    KeptOutside(a, b, dest) && (!overwrite ==> Kept(a, b)) && NewNear(a, b, dest)
  }

  /** No node below `root` lies deeper than `m`. */
  ghost predicate Depth(t: Nodes, root: Path, m: nat) {
    forall p :: p in t && root <= p ==> |p| <= m
  }

  /** New nodes lie no deeper below `dest` than the old ones below `src`. */
  ghost predicate Shallow(a: Nodes, b: Nodes, src: Path, dest: Path, m: nat) {
    forall p :: p in b && p !in a ==> |p| + |src| <= |dest| + m
  }

  /** The promise of a copy. Less is promised when it reaches into the tree it reads. */
  ghost predicate Promised(a: Nodes, b: Nodes, src: Path, dest: Path, overwrite: bool, m: nat)
    requires dest != []
  {
    (Clear(a, src, dest) ==> Harmless(a, b, src, dest, overwrite)) && Contained(a, b, dest, overwrite)
        && Shallow(a, b, src, dest, m)
  }

  lemma NothingDone(a: Nodes, src: Path, dest: Path, overwrite: bool, m: nat)
    requires dest != []
    ensures Promised(a, a, src, dest, overwrite, m)
  {
    NoChange(a, src, dest, overwrite);
  }

  lemma HarmlessIsContained(a: Nodes, b: Nodes, src: Path, dest: Path, overwrite: bool)
    requires dest != [] && Harmless(a, b, src, dest, overwrite)
    ensures Contained(a, b, dest, overwrite)
  {
  }

  /** The bound on depth passes to the entries. */
  lemma EntryDepth(a: Nodes, b: Nodes, src: Path, dest: Path, name: string, m: nat)
    requires Depth(a, src, m) && (dest < src ==> Depth(a, [], m))
    requires if dest < src then Shallow(a, b, src, dest, m) else Apart(src, dest) && SameUnder(a, b, src)
    ensures Depth(b, Child(src, name), m)
    ensures Child(dest, name) < Child(src, name) ==> Depth(b, [], m)
  {
    if dest < src {
      forall p | p in b ensures |p| <= m { assert [] <= p; }
    } else {
      ChildApart(src, dest, name, name, []);
      forall p | p in b && Child(src, name) <= p ensures |p| <= m { PrefixTrans(src, Child(src, name), p); }
    }
  }

  lemma StepContained(a: Nodes, b: Nodes, c: Nodes, dest: Path, overwrite: bool, name: string)
    requires dest != [] && Contained(a, b, dest, overwrite) && Contained(b, c, Child(dest, name), overwrite)
    ensures Contained(a, c, dest, overwrite)
  {
    StepOutside(a, b, c, dest, name);
  }

  lemma StepShallow(a: Nodes, b: Nodes, c: Nodes, src: Path, dest: Path, name: string, m: nat)
    requires Shallow(a, b, src, dest, m) && Shallow(b, c, Child(src, name), Child(dest, name), m)
    ensures Shallow(a, c, src, dest, m)
  {
  }

  // ---------- The loop over a directory's entries ----------

  /** Nothing is new at the entries still to come. */
  ghost predicate NewAreDone(a: Nodes, b: Nodes, dest: Path, names: seq<string>, k: nat) {
    forall p, j :: p in b && p !in a && k <= j < |names| ==> !(Child(dest, names[j]) <= p)
  }

  /** The first `k` entries have been merged, the others are as they were. */
  ghost predicate PartlyMerged(a: Nodes, b: Nodes, src: Path, dest: Path, overwrite: bool, names: seq<string>, k: nat,
      tidy: bool)
    requires dest != [] && k <= |names|
  {
    && SameUnder(a, b, src) && KeptOutside(a, b, dest) && (!overwrite ==> Kept(a, b))
    && IntactOrReplaced(a, b, src, dest) && ExtrasKept(a, b, src, dest) && NewNear(a, b, dest)
       && NewInShadow(a, b, src, dest)
    && (forall p, j :: p in a && k <= j < |names| && Child(dest, names[j]) <= p ==> p in b && b[p] == a[p])
    && (forall j :: 0 <= j < k ==> Copied(a, b, Child(src, names[j]), Child(dest, names[j])))
    && (tidy ==> NewAreCopies(a, b, src, dest) && NewAreDone(a, b, dest, names, k))
    && src in a && dest in b && a[src] == b[dest]
  }

  lemma PrefixTrans(a: Path, b: Path, c: Path)
    requires a <= b <= c
    ensures a <= c
  {
    assert c[..|a|] == b[..|a|];
  }

  lemma PrefixesOf(a: Path, b: Path, p: Path)
    requires a <= p && b <= p
    ensures a <= b || b <= a
  {
    if |a| <= |b| { assert b[..|a|] == p[..|a|]; } else { assert a[..|b|] == p[..|b|]; }
  }

  lemma ChildApart(src: Path, dest: Path, c: string, e: string, p: Path)
    requires Apart(src, dest)
    ensures Apart(Child(src, c), Child(dest, e)) && Apart(src, Child(dest, e))
    ensures p <= Child(dest, e) ==> !(src <= p)
    ensures Child(dest, e) <= p ==> !(src <= p) && dest <= p
    ensures p != [] && Parent(p) == dest ==> !(src <= p) && dest <= p
  {
    var d := Child(dest, e);
    assert dest <= d;
    if src <= d { PrefixesOf(src, dest, d); }
    if d <= src { PrefixTrans(dest, d, src); }
    if Child(src, c) <= d { PrefixTrans(src, Child(src, c), d); }
    if d <= Child(src, c) {
      PrefixTrans(dest, d, Child(src, c));
      PrefixesOf(src, dest, Child(src, c));
    }
    if src <= p && p <= d { PrefixTrans(src, p, d); }
    if d <= p {
      PrefixTrans(dest, d, p);
      if src <= p { PrefixesOf(src, dest, p); }
    }
    if p != [] && Parent(p) == dest {
      assert dest <= p;
      if src <= p { PrefixesOf(src, dest, p); }
    }
  }

  /** What an entry's copy may replace does not lie below the source. */
  lemma NotShadowed(b: Nodes, src: Path, dest: Path, name: string, p: Path)
    requires Closed(b) && Clear(b, src, dest) && !(src <= dest)
    requires src <= p && Child(dest, name) <= p
    ensures Rebase(p, Child(dest, name), Child(src, name)) !in b
  {
    var t, q := Child(dest, name), Rebase(p, Child(dest, name), Child(src, name));
    PrefixesOf(src, t, p);
    if src <= t { assert src == t; }
    assert t <= src && dest <= t;
    PrefixTrans(dest, t, src);
    var inner := src + src[|dest|..];
    assert src[|dest|..] == [name] + src[|t|..];
    assert p[|t|..] == src[|t|..] + p[|src|..];
    assert q == inner + p[|src|..];
    if q in b { AncestorsPresent(b, q, inner); }
  }

  lemma SameClear(a: Nodes, b: Nodes, src: Path, dest: Path)
    requires SameUnder(a, b, src)
    ensures Clear(a, src, dest) == Clear(b, src, dest)
  {
    if dest < src { assert src <= src + src[|dest|..]; }
  }

  /** Nothing below the source changes while an entry is copied. */
  lemma StepSource(a: Nodes, b: Nodes, c: Nodes, src: Path, dest: Path, name: string)
    requires src in a && Closed(b) && Clear(a, src, dest) && !(src <= dest) && SameUnder(a, b, src)
    requires KeptOutside(b, c, Child(dest, name)) && ExtrasKept(b, c, Child(src, name), Child(dest, name))
    requires NewInShadow(b, c, Child(src, name), Child(dest, name))
    ensures SameUnder(a, c, src)
  {
    var t := Child(dest, name);
    assert Parent(t) == dest;
    SameClear(a, b, src, dest);
    forall p | src <= p ensures (p in a <==> p in c) && (p in a ==> c[p] == a[p]) {
      if p in b {
        if t <= p { NotShadowed(b, src, dest, name, p); }
      } else if p in c {
        NewNotUnder(b, src, dest, name, p);
      }
    }
  }

  lemma NewNotUnder(b: Nodes, src: Path, dest: Path, name: string, p: Path)
    requires Closed(b) && Clear(b, src, dest) && !(src <= dest) && src in b && p !in b && src <= p
    ensures !(p <= Child(dest, name))
    ensures p != [] && Parent(p) != dest
    ensures Child(dest, name) <= Parent(p) ==> Rebase(Parent(p), Child(dest, name), Child(src, name)) !in b
  {
    var t := Child(dest, name);
    assert Parent(t) == dest && p != src;
    assert p[..|src|] == src && src <= Parent(p);
    assert t[..|dest|] == dest;
    if p <= t { PrefixTrans(src, p, t); }
    if t <= Parent(p) { NotShadowed(b, src, dest, name, Parent(p)); }
  }

  lemma StepOutside(a: Nodes, b: Nodes, c: Nodes, dest: Path, name: string)
    requires dest != []
    requires KeptOutside(a, b, dest) && KeptOutside(b, c, Child(dest, name))
    requires NewNear(a, b, dest) && NewNear(b, c, Child(dest, name))
    ensures KeptOutside(a, c, dest) && NewNear(a, c, dest)
  {
    var d := Child(dest, name);
    assert Parent(d) == dest;
    forall p | p in a && !(dest <= p) ensures p in c && c[p] == a[p] {
      assert p in b && b[p] == a[p];
      if d <= p { PrefixTrans(dest, d, p); }
    }
    forall p | p in c && p !in a ensures p <= dest || dest <= p || (p != [] && Parent(p) == Parent(dest)) {
      if p !in b {
        if p <= d && |p| <= |dest| { assert d[..|p|] == dest[..|p|]; }
        if d <= p { PrefixTrans(dest, d, p); }
        if p != [] && Parent(p) == dest { assert p[..|dest|] == dest; }
      }
    }
  }

  lemma StepShadow(a: Nodes, b: Nodes, c: Nodes, src: Path, dest: Path, name: string)
    requires dest != [] && src in a && SameUnder(a, b, src)
    requires NewInShadow(a, b, src, dest) && NewInShadow(b, c, Child(src, name), Child(dest, name))
    ensures NewInShadow(a, c, src, dest)
  {
    var s, t := Child(src, name), Child(dest, name);
    assert Parent(t) == dest && Rebase(dest, dest, src) == src;
    forall p | p in c && p !in a
      ensures p <= dest || (p != []
              && (Parent(p) == Parent(dest) || (dest <= Parent(p) && Rebase(Parent(p), dest, src) in a)))
    {
      if p !in b {
        if p <= t {
          if |p| <= |dest| { assert p == t[..|p|] == dest[..|p|]; } else { assert p == t; }
        } else if Parent(p) != dest {
          ChildRebase(Parent(p), src, dest, name);
          assert src <= Rebase(Parent(p), dest, src);
        }
      }
    }
  }

  lemma ChildRebase(p: Path, src: Path, dest: Path, name: string)
    requires Child(dest, name) <= p
    ensures dest <= p && Rebase(p, Child(dest, name), Child(src, name)) == Rebase(p, dest, src)
    ensures Child(src, name) <= Rebase(p, dest, src)
  {
    assert p[..|dest| + 1] == dest + [name];
    assert p[..|dest|] == dest;
    assert p[|dest|..] == [name] + p[|dest| + 1..];
    assert Rebase(p, dest, src) == Child(src, name) + p[|dest| + 1..];
  }

  /** What survives in a step that may fail. */
  lemma StepLost(a: Nodes, b: Nodes, c: Nodes, src: Path, dest: Path, name: string)
    requires SameUnder(a, b, src) && IntactOrReplaced(a, b, src, dest) && KeptOutside(a, b, dest)
    requires forall p :: p in a && Child(dest, name) <= p ==> p in b && b[p] == a[p]
    requires KeptOutside(b, c, Child(dest, name)) && NothingLost(b, c, Child(src, name), Child(dest, name))
    ensures NothingLost(a, c, src, dest)
  {
    var d, s := Child(dest, name), Child(src, name);
    assert forall p :: p in a ==> p in b;
    forall p | p in a && dest <= p ensures Survives(a, c, src, dest, p) {
      if d <= p {
        ChildRebase(p, src, dest, name);
        var q := Rebase(p, dest, src);
        assert src <= q && (q in a <==> q in b);
        assert Survives(b, c, s, d, p);
        if Saved(b, c, b[p]) {
          var f :| f !in b && f in c && c[f] == b[p];
          assert f !in a;
        }
      }
    }
  }

  lemma StepExtras(a: Nodes, b: Nodes, c: Nodes, src: Path, dest: Path, name: string)
    requires SameUnder(a, b, src) && ExtrasKept(a, b, src, dest)
    requires KeptOutside(b, c, Child(dest, name)) && ExtrasKept(b, c, Child(src, name), Child(dest, name))
    ensures ExtrasKept(a, c, src, dest)
  {
    var d, s := Child(dest, name), Child(src, name);
    forall p | p in a && dest <= p && Rebase(p, dest, src) !in a ensures p in c && c[p] == a[p] {
      assert p in b && b[p] == a[p];
      if d <= p {
        ChildRebase(p, src, dest, name);
        assert src <= Rebase(p, dest, src);
      }
    }
  }

  /** A step that failed leaves the whole copy harmless. */
  lemma StepHarmless(a: Nodes, b: Nodes, c: Nodes, src: Path, dest: Path, overwrite: bool, names: seq<string>, k: nat,
      tidy: bool)
    requires dest != [] && Clear(a, src, dest) && !(src <= dest) && k < |names| && Closed(b)
    requires PartlyMerged(a, b, src, dest, overwrite, names, k, tidy)
    requires Harmless(b, c, Child(src, names[k]), Child(dest, names[k]), overwrite)
    ensures Harmless(a, c, src, dest, overwrite)
  {
    var name := names[k];
    StepSource(a, b, c, src, dest, name);
    StepOutside(a, b, c, dest, name);
    StepShadow(a, b, c, src, dest, name);
    StepLost(a, b, c, src, dest, name);
    StepExtras(a, b, c, src, dest, name);
  }

  lemma ChildrenApart(root: Path, c: string, e: string, p: Path)
    requires c != e && Child(root, c) <= p
    ensures !(Child(root, e) <= p)
  {
    ChildName(root, c, p);
    if Child(root, e) <= p { ChildName(root, e, p); }
  }

  lemma ChildName(root: Path, c: string, p: Path)
    requires Child(root, c) <= p
    ensures |root| < |p| && p[|root|] == c
  {
    assert p[|root|] == Child(root, c)[|root|];
  }

  lemma StepCopied(a: Nodes, b: Nodes, c: Nodes, src: Path, dest: Path, names: seq<string>, k: nat)
    requires k < |names| && forall i, j :: 0 <= i < j < |names| ==> names[i] != names[j]
    requires SameUnder(a, b, src)
    requires forall j :: 0 <= j < k ==> Copied(a, b, Child(src, names[j]), Child(dest, names[j]))
    requires KeptOutside(b, c, Child(dest, names[k])) && Copied(b, c, Child(src, names[k]), Child(dest, names[k]))
    ensures forall j :: 0 <= j < k + 1 ==> Copied(a, c, Child(src, names[j]), Child(dest, names[j]))
  {
    forall j, p | 0 <= j < k + 1 && p in a && Child(src, names[j]) <= p
      ensures Rebase(p, Child(src, names[j]), Child(dest, names[j])) in c
      ensures c[Rebase(p, Child(src, names[j]), Child(dest, names[j]))] == a[p]
    {
      var s, d := Child(src, names[j]), Child(dest, names[j]);
      var t := Rebase(p, s, d);
      assert s[..|src|] == src && p[..|s|] == s;
      assert src <= p;
      if j < k {
        assert Copied(a, b, s, d);
        assert d <= t;
        ChildrenApart(dest, names[j], names[k], t);
      }
    }
  }

  lemma StepUntouched(a: Nodes, b: Nodes, c: Nodes, dest: Path, names: seq<string>, k: nat)
    requires k < |names| && forall i, j :: 0 <= i < j < |names| ==> names[i] != names[j]
    requires forall p, j :: p in a && k <= j < |names| && Child(dest, names[j]) <= p ==> p in b && b[p] == a[p]
    requires KeptOutside(b, c, Child(dest, names[k]))
    ensures forall p, j :: p in a && k + 1 <= j < |names| && Child(dest, names[j]) <= p ==> p in c && c[p] == a[p]
  {
    forall p, j | p in a && k + 1 <= j < |names| && Child(dest, names[j]) <= p ensures p in c && c[p] == a[p] {
      ChildrenApart(dest, names[j], names[k], p);
    }
  }

  lemma StepNewAreCopies(a: Nodes, b: Nodes, c: Nodes, src: Path, dest: Path, name: string)
    requires SameUnder(a, b, src) && NewAreCopies(a, b, src, dest)
             && NewAreCopies(b, c, Child(src, name), Child(dest, name))
    requires Closed(b) && dest in b && KeptOutside(b, c, Child(dest, name))
    ensures NewAreCopies(a, c, src, dest)
  {
    var d, s := Child(dest, name), Child(src, name);
    forall p | p in c && p !in a ensures (dest <= p && Rebase(p, dest, src) in a) || (p < dest && c[p].Dir?) {
      if p in b {
        if d <= p { ChildRebase(p, src, dest, name); }
        if p < dest && d <= p { PrefixTrans(d, p, dest); }
      } else if d <= p {
        ChildRebase(p, src, dest, name);
        assert src <= Rebase(p, dest, src);
      } else {
        assert p < d;
        AncestorsPresent(b, dest, p);
        assert false;
      }
    }
  }

  lemma StepNewAreDone(a: Nodes, b: Nodes, c: Nodes, src: Path, dest: Path, names: seq<string>, k: nat)
    requires k < |names| && forall i, j :: 0 <= i < j < |names| ==> names[i] != names[j]
    requires NewAreDone(a, b, dest, names, k) && NewAreCopies(b, c, Child(src, names[k]), Child(dest, names[k]))
    requires Closed(b) && dest in b
    ensures NewAreDone(a, c, dest, names, k + 1)
  {
    var t := Child(dest, names[k]);
    forall p, j | p in c && p !in a && k + 1 <= j < |names| ensures !(Child(dest, names[j]) <= p) {
      if p !in b && t <= p { ChildrenApart(dest, names[k], names[j], p); }
    }
  }

  /** The next entry meets no obstacle when the directory does not. */
  lemma StepFits(a: Nodes, b: Nodes, src: Path, dest: Path, overwrite: bool, names: seq<string>, k: nat)
    requires dest != [] && k < |names| && Fits(a, src, dest, overwrite) && a[src].Dir?
    requires PartlyMerged(a, b, src, dest, overwrite, names, k, true) && Child(src, names[k]) in a
    ensures Fits(b, Child(src, names[k]), Child(dest, names[k]), overwrite)
  {
    var s, t := Child(src, names[k]), Child(dest, names[k]);
    assert Parent(t) == dest && src <= s;
    forall p | p in b && s <= p && Rebase(p, s, t) in b
      ensures if b[p].Dir? then b[Rebase(p, s, t)].Dir? else overwrite && b[Rebase(p, s, t)].File?
    {
      ChildRebase(p, dest, src, names[k]);
      var q := Rebase(p, s, t);
      assert t <= q;
      assert q in a;
    }
  }

  lemma {:induction false} AncestorsPresent(t: Nodes, p: Path, q: Path)
    requires Closed(t) && p in t && q <= p
    ensures q in t
    decreases |p|
  {
    if q != p {
      assert q <= Parent(p);
      AncestorsPresent(t, Parent(p), q);
    } else {
      assert q == p;
    }
  }

  /** One more entry merged. */
  lemma StepMerged(a: Nodes, b: Nodes, c: Nodes, src: Path, dest: Path, overwrite: bool, names: seq<string>, k: nat,
      tidy: bool, stepTidy: bool)
    requires dest != [] && Clear(a, src, dest) && !(src <= dest) && k < |names| && Closed(b)
    requires forall i, j :: 0 <= i < j < |names| ==> names[i] != names[j]
    requires PartlyMerged(a, b, src, dest, overwrite, names, k, tidy)
    requires Harmless(b, c, Child(src, names[k]), Child(dest, names[k]), overwrite)
    requires Merged(b, c, Child(src, names[k]), Child(dest, names[k]), stepTidy)
    ensures PartlyMerged(a, c, src, dest, overwrite, names, k + 1, tidy && stepTidy)
  {
    var name := names[k];
    StepHarmless(a, b, c, src, dest, overwrite, names, k, tidy);
    StepCopied(a, b, c, src, dest, names, k);
    StepUntouched(a, b, c, dest, names, k);
    if tidy && stepTidy {
      StepNewAreCopies(a, b, c, src, dest, name);
      StepNewAreDone(a, b, c, src, dest, names, k);
    }
    StepIntact(a, b, c, src, dest, name);
    assert dest in c && c[dest] == b[dest] by { assert !(Child(dest, name) <= dest); }
  }

  lemma StepIntact(a: Nodes, b: Nodes, c: Nodes, src: Path, dest: Path, name: string)
    requires SameUnder(a, b, src) && IntactOrReplaced(a, b, src, dest)
    requires forall p :: p in a && Child(dest, name) <= p ==> p in b && b[p] == a[p]
    requires KeptOutside(b, c, Child(dest, name)) && IntactOrReplaced(b, c, Child(src, name), Child(dest, name))
    ensures IntactOrReplaced(a, c, src, dest)
  {
    forall p | p in a && dest <= p
      ensures p in c && (c[p] == a[p]
              || (Rebase(p, dest, src) in a && a[p].File? && c[p].File? && c[p] == a[Rebase(p, dest, src)]))
    {
      assert p in b;
      if Child(dest, name) <= p {
        ChildRebase(p, src, dest, name);
        assert src <= Rebase(p, dest, src);
      }
    }
  }

  lemma EntryMerged(a: Nodes, b: Nodes, src: Path, dest: Path, names: seq<string>, p: Path)
    requires Closed(a) && p in a && src <= p
    requires forall name :: Child(src, name) in a ==> name in names
    requires forall j :: 0 <= j < |names| ==> Copied(a, b, Child(src, names[j]), Child(dest, names[j]))
    requires src in a && dest in b && a[src] == b[dest]
    ensures Rebase(p, src, dest) in b && b[Rebase(p, src, dest)] == a[p]
  {
    hide Copied, Closed, Rebase;
    RebaseRoot(src, dest);
    if p != src {
      var name := FirstStep(src, p);
      AncestorsPresent(a, p, Child(src, name));
      assert name in names;
      var j :| 0 <= j < |names| && names[j] == name;
      CopiedAt(a, b, Child(src, name), Child(dest, name), p);
      ChildRebase(p, dest, src, name);
    }
  }

  lemma RebaseRoot(src: Path, dest: Path)
    ensures Rebase(src, src, dest) == dest
  {
  }

  lemma FirstStep(src: Path, p: Path) returns (name: string)
    requires src <= p && p != src
    ensures Child(src, name) <= p
  {
    name := p[|src|];
    assert Child(src, name) == p[..|src| + 1];
  }

  lemma CopiedAt(a: Nodes, b: Nodes, src: Path, dest: Path, p: Path)
    requires Copied(a, b, src, dest) && p in a && src <= p
    ensures Rebase(p, src, dest) in b && b[Rebase(p, src, dest)] == a[p]
  {
  }

  /** All entries merged: the directory is. */
  lemma AllMerged(a: Nodes, b: Nodes, src: Path, dest: Path, overwrite: bool, names: seq<string>, tidy: bool)
    requires dest != [] && Closed(a) && src in a
    requires forall name :: Child(src, name) in a ==> name in names
    requires PartlyMerged(a, b, src, dest, overwrite, names, |names|, tidy)
    ensures Harmless(a, b, src, dest, overwrite) && Merged(a, b, src, dest, tidy)
  {
    CopiedByEntries(a, b, src, dest, names);
    IntactIsNotLost(a, b, src, dest);
    hide Copied, IntactOrReplaced, NothingLost, ExtrasKept, NewNear, NewInShadow, NewAreCopies, KeptOutside,
         SameUnder, Kept;
  }

  lemma CopiedByEntries(a: Nodes, b: Nodes, src: Path, dest: Path, names: seq<string>)
    requires Closed(a) && src in a && dest in b && a[src] == b[dest]
    requires forall name :: Child(src, name) in a ==> name in names
    requires forall j :: 0 <= j < |names| ==> Copied(a, b, Child(src, names[j]), Child(dest, names[j]))
    ensures Copied(a, b, src, dest)
  {
    forall p | p in a && src <= p ensures Rebase(p, src, dest) in b && b[Rebase(p, src, dest)] == a[p] {
      EntryMerged(a, b, src, dest, names, p);
    }
  }

  lemma IntactIsNotLost(a: Nodes, b: Nodes, src: Path, dest: Path)
    requires IntactOrReplaced(a, b, src, dest)
    ensures NothingLost(a, b, src, dest)
  {
    hide Rebase;
  }
}
