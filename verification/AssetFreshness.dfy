/**
 When a preview is judged fresh: its snapshot matches the tree found now exactly
 when the two trees agree in shape, kinds, modes, sizes and times.
 */
module AssetFreshness {
  import opened Wrappers
  import opened AssetTree

  // ----- the comparison of snapshots

  lemma SameSizeSubset<T>(a: set<T>, b: set<T>)
    requires a <= b && |a| == |b|
    ensures a == b
  {
    if x :| x in b && x !in a {
      assert a <= b - {x};
      SubsetSize(a, b - {x});
    }
  }

  lemma {:induction false} SubsetSize<T>(a: set<T>, b: set<T>)
    requires a <= b
    ensures |a| <= |b|
  {
    if a != {} {
      var x :| x in a;
      SubsetSize(a - {x}, b - {x});
    }
  }

  /** `harnessAssetPathSnapshotMatches`; `current` is what the cheap walk finds, None when it refuses the path. */
  method SnapshotMatches(current: Option<Snapshot>, snapshot: Snapshot) returns (r: bool)
    ensures r <==> snapshot != map[] && current == Some(snapshot)
  {
    if |snapshot| == 0 {
      return false;
    }
    if current == None {
      return false;
    }
    if |current.value| != |snapshot| {
      assert current.value != snapshot;
      return false;
    }
    var todo := snapshot.Keys;
    while todo != {}
      invariant todo <= snapshot.Keys
      invariant forall rel: Rel :: rel in snapshot.Keys - todo ==> rel in current.value && current.value[rel] == snapshot[rel]
      decreases todo
    {
      var rel :| rel in todo;
      if rel !in current.value || current.value[rel] != snapshot[rel] {
        return false;
      }
      todo := todo - {rel};
    }
    assert forall rel: Rel :: rel in snapshot ==> rel in snapshot.Keys - todo;
    assert |snapshot.Keys| == |snapshot| && |current.value.Keys| == |current.value|;
    SameSizeSubset(snapshot.Keys, current.value.Keys);
    assert current.value == snapshot;
    return true;
  }

  // ----- looking up a path in a tree

  function Find(children: seq<Child>, name: string): Option<Node> {
    if children == [] then None
    else if children[0].name == name then Some(children[0].node)
    else Find(children[1..], name)
  }

  function At(t: Node, q: Rel): Option<Node>
    decreases |q|
  {
    if q == [] then Some(t)
    else if !t.Dir? then None
    else AtChild(t.children, q)
  }

  function AtChild(children: seq<Child>, q: Rel): Option<Node>
    requires q != []
    decreases |q|, 0
  {
    match Find(children, q[0])
    case None => None
    case Some(n) => At(n, q[1..])
  }

  /** Strict lexicographic order: `os.ReadDir` lists a directory in it, so names are distinct. */
  predicate Less(a: string, b: string) {
    if b == "" then false
    else if a == "" then true
    else a[0] < b[0] || (a[0] == b[0] && Less(a[1..], b[1..]))
  }

  predicate Sorted(children: seq<Child>) {
    forall i, j :: 0 <= i < j < |children| ==> Less(children[i].name, children[j].name)
  }

  predicate Listed(t: Node) {
    t.Dir? ==> Sorted(t.children) && forall i :: 0 <= i < |t.children| ==> Listed(t.children[i].node)
  }

  lemma {:induction false} LessIsAsymmetric(a: string, b: string)
    requires Less(a, b)
    ensures !Less(b, a) && a != b
  {
    if a != "" && a[0] == b[0] {
      LessIsAsymmetric(a[1..], b[1..]);
    }
  }

  lemma {:induction false} FindAt(children: seq<Child>, i: nat)
    requires Sorted(children) && i < |children|
    ensures Find(children, children[i].name) == Some(children[i].node)
  {
    hide Less;
    if i > 0 {
      LessIsAsymmetric(children[0].name, children[i].name);
      assert children[1..][i - 1] == children[i];
      FindAt(children[1..], i - 1);
    }
  }

  lemma {:induction false} FoundIsChild(children: seq<Child>, name: string) returns (i: nat)
    requires Find(children, name).Some?
    ensures i < |children| && children[i].name == name && Find(children, name) == Some(children[i].node)
  {
    if children[0].name == name {
      i := 0;
    } else {
      i := FoundIsChild(children[1..], name);
      i := i + 1;
    }
  }

  // ----- what a snapshot holds

  /** The entries of `children` below `rel`, laid over what was collected before. */
  ghost predicate Holds(children: seq<Child>, rel: Rel, before: Snapshot, after: Snapshot) {
    forall k: Rel :: HoldsAt(children, rel, before, after, k)
  }

  ghost predicate HoldsAt(children: seq<Child>, rel: Rel, before: Snapshot, after: Snapshot, k: Rel) {
    if rel < k && AtChild(children, k[|rel|..]).Some? && Walkable(AtChild(children, k[|rel|..]).value) then
      k in after && after[k] == InfoOf(AtChild(children, k[|rel|..]).value)
    else (k in after <==> k in before) && (k in after ==> after[k] == before[k])
  }

  ghost predicate HoldsTree(t: Node, rel: Rel, before: Snapshot, after: Snapshot) {
    forall k: Rel :: HoldsTreeAt(t, rel, before, after, k)
  }

  ghost predicate HoldsTreeAt(t: Node, rel: Rel, before: Snapshot, after: Snapshot, k: Rel) {
    if rel <= k && At(t, k[|rel|..]).Some? && Walkable(At(t, k[|rel|..]).value) then
      k in after && after[k] == InfoOf(At(t, k[|rel|..]).value)
    else (k in after <==> k in before) && (k in after ==> after[k] == before[k])
  }

  lemma {:induction false} SnapDirHolds(t: Node, rel: Rel, before: Snapshot)
    requires t.Dir? && Listed(t) && SnapDir(t, rel, before).Some?
    ensures HoldsTree(t, rel, before, SnapDir(t, rel, before).value)
    decreases t, 1
  {
    var middle := before[rel := InfoOf(t)];
    var after := SnapDir(t, rel, before).value;
    SnapChildrenHold(t.children, rel, middle);
    forall k: Rel
      ensures HoldsTreeAt(t, rel, before, after, k)
    {
      assert HoldsAt(t.children, rel, middle, after, k);
      if rel <= k && |k| == |rel| {
        assert k == rel && k[|rel|..] == [];
      }
    }
  }

  lemma {:induction false} SnapChildrenHold(children: seq<Child>, rel: Rel, before: Snapshot)
    requires Sorted(children) && (forall i :: 0 <= i < |children| ==> Listed(children[i].node))
    requires SnapChildren(children, rel, before).Some?
    ensures Holds(children, rel, before, SnapChildren(children, rel, before).value)
    decreases children, 0
  {
    var after := SnapChildren(children, rel, before).value;
    if children == [] {
      forall k: Rel
        ensures HoldsAt(children, rel, before, after, k)
      {
      }
    } else {
      var c := children[0];
      var middle: Snapshot;
      if c.node.File? {
        middle := before[rel + [c.name] := InfoOf(c.node)];
        FileHolds(c.node, rel + [c.name], before);
      } else {
        SnapDirHolds(c.node, rel + [c.name], before);
        middle := SnapDir(c.node, rel + [c.name], before).value;
      }
      assert Sorted(children[1..]);
      SnapChildrenHold(children[1..], rel, middle);
      forall k: Rel
        ensures HoldsAt(children, rel, before, after, k)
      {
        HoldsCons(children, rel, before, middle, after, k);
      }
    }
  }

  lemma FileHolds(t: Node, rel: Rel, before: Snapshot)
    requires t.File?
    ensures HoldsTree(t, rel, before, before[rel := InfoOf(t)])
  {
    var after := before[rel := InfoOf(t)];
    forall k: Rel
      ensures HoldsTreeAt(t, rel, before, after, k)
    {
      if rel <= k && |k| == |rel| {
        assert k == rel && k[|rel|..] == [];
      }
    }
  }

  lemma HoldsCons(children: seq<Child>, rel: Rel, before: Snapshot, middle: Snapshot, after: Snapshot, k: Rel)
    requires children != [] && Sorted(children)
    requires HoldsTree(children[0].node, rel + [children[0].name], before, middle)
    requires Holds(children[1..], rel, middle, after)
    ensures HoldsAt(children, rel, before, after, k)
  {
    hide Less;
    var c := children[0];
    assert HoldsTreeAt(c.node, rel + [c.name], before, middle, k);
    assert HoldsAt(children[1..], rel, middle, after, k);
    if rel < k {
      var q := k[|rel|..];
      assert q[0] == k[|rel|];
      if q[0] == c.name {
        assert rel + [c.name] <= k && k[|rel| + 1..] == q[1..];
        FirstNameIsAlone(children);
      } else {
        assert !(rel + [c.name] <= k);
      }
    } else {
      assert !(rel + [c.name] <= k);
    }
  }

  lemma FirstNameIsAlone(children: seq<Child>)
    requires children != [] && Sorted(children)
    ensures Find(children[1..], children[0].name) == None
  {
    hide Less;
    if Find(children[1..], children[0].name).Some? {
      var i := FoundIsChild(children[1..], children[0].name);
      assert children[1..][i] == children[i + 1];
      LessIsAsymmetric(children[0].name, children[i + 1].name);
    }
  }

  // ----- snapshots decide metadata

  /** The trees differ at most in the bytes of files of equal size. */
  predicate SameMeta(t: Node, u: Node)
    decreases t
  {
    match t
    case File(mode, mtime, data) => u.File? && u.mode == mode && u.mtime == mtime && |u.data| == |data|
    case Dir(mode, mtime, size, children) =>
      && u.Dir? && u.mode == mode && u.mtime == mtime && u.size == size && |u.children| == |children|
      && forall i :: 0 <= i < |children| ==>
           u.children[i].name == children[i].name && SameMeta(children[i].node, u.children[i].node)
    case Symlink => u.Symlink?
    case Special => u.Special?
  }

  lemma {:induction false} SameMetaSameWalk(t: Node, u: Node, rel: Rel, snapshot: Snapshot)
    requires SameMeta(t, u) && t.Dir?
    ensures SnapDir(t, rel, snapshot) == SnapDir(u, rel, snapshot)
    decreases t, 1
  {
    SameMetaSameChildren(t.children, u.children, rel, snapshot[rel := InfoOf(t)]);
  }

  lemma {:induction false} SameMetaSameChildren(a: seq<Child>, b: seq<Child>, rel: Rel, snapshot: Snapshot)
    requires |a| == |b|
    requires forall i :: 0 <= i < |a| ==> a[i].name == b[i].name && SameMeta(a[i].node, b[i].node)
    ensures SnapChildren(a, rel, snapshot) == SnapChildren(b, rel, snapshot)
    decreases a, 0
  {
    if a != [] {
      var n := a[0].node;
      assert a[0].name == b[0].name && SameMeta(n, b[0].node);
      if n.File? {
        SameMetaSameChildren(a[1..], b[1..], rel, snapshot[rel + [a[0].name] := InfoOf(n)]);
      } else if n.Dir? {
        SameMetaSameWalk(n, b[0].node, rel + [a[0].name], snapshot);
        if SnapDir(n, rel + [a[0].name], snapshot).Some? {
          SameMetaSameChildren(a[1..], b[1..], rel, SnapDir(n, rel + [a[0].name], snapshot).value);
        }
      }
    }
  }

  /** At every path both trees have a node, with the same metadata, or neither has. */
  ghost predicate SameAt(t: Node, u: Node, q: Rel) {
    && (At(t, q).Some? <==> At(u, q).Some?)
    && (At(t, q).Some? ==> Walkable(At(t, q).value) && Walkable(At(u, q).value) && InfoOf(At(t, q).value) == InfoOf(At(u, q).value))
  }

  ghost predicate SameEverywhere(t: Node, u: Node) {
    forall q: Rel :: SameAt(t, u, q)
  }

  lemma {:induction false} PlainAt(t: Node, q: Rel)
    requires Plain(t)
    ensures At(t, q).Some? ==> Plain(At(t, q).value)
    decreases |q|
  {
    if q == [] {
      assert At(t, q) == Some(t);
    } else if t.Dir? {
      AtIs(t, q);
      if Find(t.children, q[0]).Some? {
        var i := FoundIsChild(t.children, q[0]);
        PlainChild(t, i);
        hide *;
        PlainAt(t.children[i].node, q[1..]);
      }
    }
  }

  lemma PlainChild(t: Node, i: nat)
    requires t.Dir? && Plain(t) && i < |t.children|
    ensures Plain(t.children[i].node)
  {
  }

  lemma AtIs(t: Node, q: Rel)
    requires t.Dir? && q != []
    ensures At(t, q) == match Find(t.children, q[0]) case None => None case Some(n) => At(n, q[1..])
  {
    hide Find;
  }

  lemma ChildAt(t: Node, i: nat, q: Rel)
    requires t.Dir? && Sorted(t.children) && i < |t.children|
    ensures At(t, [t.children[i].name] + q) == At(t.children[i].node, q)
  {
    hide Less;
    FindAt(t.children, i);
    assert ([t.children[i].name] + q)[1..] == q;
  }

  lemma NameAt(t: Node, name: string)
    requires t.Dir?
    ensures At(t, [name]).Some? <==> Find(t.children, name).Some?
  {
    var q: Rel := [name];
    assert q[1..] == [];
    assert At(t, q) == AtChild(t.children, q);
    if Find(t.children, name).Some? {
      assert At(Find(t.children, name).value, q[1..]).Some?;
    }
  }

  /** Two sorted listings with the same names are the same list of names. */
  lemma {:induction false} SameNames(a: seq<Child>, b: seq<Child>)
    requires Sorted(a) && Sorted(b)
    requires forall name :: Find(a, name).Some? <==> Find(b, name).Some?
    ensures |a| == |b| && forall i :: 0 <= i < |a| ==> a[i].name == b[i].name
  {
    hide Less;
    if a == [] {
      if b != [] {
        assert Find(b, b[0].name).Some?;
      }
    } else {
      assert Find(a, a[0].name).Some?;
      var i := FoundIsChild(b, a[0].name);
      assert Find(b, b[0].name).Some?;
      var j := FoundIsChild(a, b[0].name);
      assert i > 0 ==> Less(b[0].name, b[i].name);
      if i > 0 && j > 0 {
        LessIsAsymmetric(a[0].name, a[j].name);
      }
      assert a[0].name == b[0].name;
      FirstNameIsAlone(a);
      FirstNameIsAlone(b);
      forall name
        ensures Find(a[1..], name).Some? <==> Find(b[1..], name).Some?
      {
        assert Find(a, name).Some? <==> Find(b, name).Some?;
      }
      SameNames(a[1..], b[1..]);
      forall k | 0 < k < |a|
        ensures a[k].name == b[k].name
      {
        assert a[k] == a[1..][k - 1] && b[k] == b[1..][k - 1];
      }
    }
  }

  lemma {:induction false} SameEverywhereIsSameMeta(t: Node, u: Node)
    requires Listed(t) && Listed(u) && SameEverywhere(t, u)
    ensures SameMeta(t, u)
    decreases t
  {
    hide Less;
    assert SameAt(t, u, []);
    if t.Dir? {
      forall name
        ensures Find(t.children, name).Some? <==> Find(u.children, name).Some?
      {
        assert SameAt(t, u, [name]);
        NameAt(t, name);
        NameAt(u, name);
      }
      SameNames(t.children, u.children);
      forall i | 0 <= i < |t.children|
        ensures SameMeta(t.children[i].node, u.children[i].node)
      {
        forall q: Rel
          ensures SameAt(t.children[i].node, u.children[i].node, q)
        {
          ChildAt(t, i, q);
          ChildAt(u, i, q);
          assert SameAt(t, u, [t.children[i].name] + q);
        }
        SameEverywhereIsSameMeta(t.children[i].node, u.children[i].node);
      }
    }
  }

  lemma SnapshotHolds(t: Node)
    requires Listed(t) && TakeSnapshot(t).Some?
    ensures HoldsTree(t, [], map[], TakeSnapshot(t).value)
  {
    hide Less;
    if t.Dir? {
      SnapDirHolds(t, [], map[]);
    } else {
      FileHolds(t, [], map[]);
    }
  }

  lemma EqualSnapshotsAreSame(t: Node, u: Node)
    requires Plain(t) && Plain(u) && Listed(t) && Listed(u)
    requires TakeSnapshot(t).Some? && TakeSnapshot(t) == TakeSnapshot(u)
    ensures SameEverywhere(t, u)
  {
    hide Plain;
    hide Listed;
    hide TakeSnapshot;
    var snapshot := TakeSnapshot(t).value;
    SnapshotHolds(t);
    SnapshotHolds(u);
    forall q: Rel
      ensures SameAt(t, u, q)
    {
      assert HoldsTreeAt(t, [], map[], snapshot, q) && HoldsTreeAt(u, [], map[], snapshot, q);
      assert q[0..] == q;
      PlainAt(t, q);
      PlainAt(u, q);
      PlainIsWalkable(t, q);
      PlainIsWalkable(u, q);
    }
  }

  lemma PlainIsWalkable(t: Node, q: Rel)
    requires At(t, q).Some? ==> Plain(At(t, q).value)
    ensures At(t, q).Some? ==> Walkable(At(t, q).value)
  {
  }

  /**
   A preview taken of `t` is judged fresh against the tree `u` found later exactly when `u` is `t` up to the bytes of
   files whose size, mode and time are unchanged; in particular an unchanged tree is always judged fresh.
   */
  lemma FreshIffSameMetadata(t: Node, u: Node)
    requires Plain(t) && Listed(t) && Listed(u)
    ensures Fingerprint(t).Some?
    ensures (Fingerprint(t).value.snapshot != map[] && TakeSnapshot(u) == Some(Fingerprint(t).value.snapshot)) <==> SameMeta(t, u)
  {
    hide Listed;
    WalksAcceptPlainTrees(t, 0, 0);
    WalksAcceptPlainTrees(u, 0, 0);
    SnapshotsAgree(t);
    SnapshotHolds(t);
    var snapshot := TakeSnapshot(t).value;
    assert HoldsTreeAt(t, [], map[], snapshot, []);
    PlainIsWalkable(t, []);
    assert [] in snapshot;
    if TakeSnapshot(u) == Some(snapshot) {
      EqualSnapshotsAreSame(t, u);
      SameEverywhereIsSameMeta(t, u);
    }
    if SameMeta(t, u) && t.Dir? {
      SameMetaSameWalk(t, u, [], map[]);
    }
  }
}
