/**
 The three walks over an asset's source tree: the walk that feeds the hasher and
 takes a snapshot on the way, the cheap walk that only takes the snapshot, and
 the strict copy. All refuse symlinks and special files.
 */
module AssetTree {
  import opened Wrappers

  datatype Node =
    | File(mode: nat, mtime: int, data: string)
    | Dir(mode: nat, mtime: int, size: nat, children: seq<Child>)   // in the order of `os.ReadDir`
    | Symlink
    | Special

  datatype Child = Child(name: string, node: Node)

  /** A path below the root, as its list of names; [] is the root, written ".". */
  type Rel = seq<string>

  datatype Info = Info(kind: string, mode: nat, size: nat, mtime: int)

  type Snapshot = map<Rel, Info>

  predicate Walkable(t: Node) {
    t.File? || t.Dir?
  }

  function InfoOf(t: Node): Info
    requires Walkable(t)
  {
    if t.File? then Info("file", t.mode, |t.data|, t.mtime) else Info("dir", t.mode, t.size, t.mtime)
  }

  function RelText(rel: Rel): string {
    if rel == [] then "." else if |rel| == 1 then rel[0] else RelText(rel[..|rel| - 1]) + "/" + rel[|rel| - 1]
  }

  /** No symlink or special file anywhere. */
  predicate Plain(t: Node) {
    match t
    case File(_, _, _) => true
    case Dir(_, _, _, children) => forall i :: 0 <= i < |children| ==> Plain(children[i].node)
    case _ => false
  }

  // ----- the walks as functions of what has been collected so far

  datatype Hashed = Hashed(stream: string, snapshot: Snapshot)

  function HashDir(t: Node, rel: Rel, acc: Hashed): Option<Hashed>
    requires t.Dir?
    decreases t, 1
  {
    HashChildren(t.children, rel, Hashed(acc.stream + "dir\0" + RelText(rel) + "\0", acc.snapshot[rel := InfoOf(t)]))
  }

  function HashChildren(children: seq<Child>, rel: Rel, acc: Hashed): Option<Hashed>
    decreases children, 0
  {
    if children == [] then Some(acc)
    else
      var c := children[0];
      var childRel := rel + [c.name];
      match c.node
      case File(_, _, data) =>
        HashChildren(children[1..], rel,
          Hashed(acc.stream + "file\0" + RelText(childRel) + "\0" + data, acc.snapshot[childRel := InfoOf(c.node)]))
      case Dir(_, _, _, _) =>
        (match HashDir(c.node, childRel, acc)
         case None => None
         case Some(acc') => HashChildren(children[1..], rel, acc'))
      case _ => None
  }

  /** Kind, bytes given to the hasher, and snapshot; None when the tree is refused. */
  datatype Fingerprinted = Fingerprinted(kind: string, stream: string, snapshot: Snapshot)

  function Fingerprint(t: Node): Option<Fingerprinted> {
    match t
    case File(_, _, data) => Some(Fingerprinted("file", data, map[[] := InfoOf(t)]))
    case Dir(_, _, _, _) =>
      (match HashDir(t, [], Hashed("", map[]))
       case None => None
       case Some(h) => Some(Fingerprinted("dir", h.stream, h.snapshot)))
    case _ => None
  }

  // ----- what equal bytes say of the trees

  /** The bytes the walk gives the hasher for a directory and for its children. */
  function DirBytes(t: Node, rel: Rel): string
    requires t.Dir?
    decreases t, 1
  {
    "dir\0" + RelText(rel) + "\0" + ChildBytes(t.children, rel)
  }

  function ChildBytes(children: seq<Child>, rel: Rel): string
    decreases children, 0
  {
    if children == [] then ""
    else
      var c := children[0];
      var childRel := rel + [c.name];
      (match c.node
       case File(_, _, data) => "file\0" + RelText(childRel) + "\0" + data
       case Dir(_, _, _, _) => DirBytes(c.node, childRel)
       case _ => "")
      + ChildBytes(children[1..], rel)
  }

  lemma {:induction false} HashDirBytes(t: Node, rel: Rel, acc: Hashed)
    requires t.Dir?
    ensures HashDir(t, rel, acc).Some? ==> HashDir(t, rel, acc).value.stream == acc.stream + DirBytes(t, rel)
    decreases t, 1
  {
    hide RelText;
    var head := "dir\0" + RelText(rel) + "\0";
    HashChildBytes(t.children, rel, Hashed(acc.stream + head, acc.snapshot[rel := InfoOf(t)]));
    assert acc.stream + "dir\0" + RelText(rel) + "\0" == acc.stream + head;
    assert acc.stream + head + ChildBytes(t.children, rel) == acc.stream + (head + ChildBytes(t.children, rel));
  }

  lemma Grouped(a: string, b: string, c: string, d: string, e: string, f: string)
    ensures a + b + c + d + e + f == a + ((b + c + d + e) + f)
  {
  }

  lemma {:induction false} HashChildBytes(children: seq<Child>, rel: Rel, acc: Hashed)
    ensures HashChildren(children, rel, acc).Some? ==> HashChildren(children, rel, acc).value.stream == acc.stream + ChildBytes(children, rel)
    decreases children, 0
  {
    hide RelText;
    if children == [] {
      assert acc.stream + "" == acc.stream;
    } else {
      var c, rest := children[0], ChildBytes(children[1..], rel);
      var childRel := rel + [c.name];
      match c.node
      case File(_, _, data) =>
        HashChildBytes(children[1..], rel, Hashed(acc.stream + "file\0" + RelText(childRel) + "\0" + data,
                                                  acc.snapshot[childRel := InfoOf(c.node)]));
        Grouped(acc.stream, "file\0", RelText(childRel), "\0", data, rest);
      case Dir(_, _, _, _) =>
        HashDirBytes(c.node, childRel, acc);
        if HashDir(c.node, childRel, acc).Some? {
          HashChildBytes(children[1..], rel, HashDir(c.node, childRel, acc).value);
          assert acc.stream + DirBytes(c.node, childRel) + rest == acc.stream + (DirBytes(c.node, childRel) + rest);
        }
      case _ =>
    }
  }

  /** The same names, kinds and file lengths everywhere. */
  predicate SameShape(a: Node, b: Node)
    decreases a
  {
    match a
    case File(_, _, data) => b.File? && |b.data| == |data|
    case Dir(_, _, _, children) =>
      && b.Dir? && |b.children| == |children|
      && forall i :: 0 <= i < |children| ==> b.children[i].name == children[i].name && SameShape(children[i].node, b.children[i].node)
    case Symlink => b.Symlink?
    case Special => b.Special?
  }

  /** The same names, kinds and file contents everywhere. */
  predicate SameData(a: Node, b: Node)
    decreases a
  {
    match a
    case File(_, _, data) => b.File? && b.data == data
    case Dir(_, _, _, children) =>
      && b.Dir? && |b.children| == |children|
      && forall i :: 0 <= i < |children| ==> b.children[i].name == children[i].name && SameData(children[i].node, b.children[i].node)
    case Symlink => b.Symlink?
    case Special => b.Special?
  }

  lemma {:induction false} SameDataIsShape(a: Node, b: Node)
    requires SameData(a, b)
    ensures SameShape(a, b)
    decreases a
  {
    if a.Dir? {
      forall i | 0 <= i < |a.children|
        ensures SameShape(a.children[i].node, b.children[i].node)
      {
        SameDataIsShape(a.children[i].node, b.children[i].node);
      }
    }
  }

  lemma SplitAlike(a: string, b: string, c: string, d: string)
    requires |a| == |c|
    ensures a + b == c + d <==> a == c && b == d
  {
    assert (a + b)[..|a|] == a && (c + d)[..|a|] == c;
    assert (a + b)[|a|..] == b && (c + d)[|a|..] == d;
  }

  predicate SameShapes(a: seq<Child>, b: seq<Child>) {
    |a| == |b| && forall i :: 0 <= i < |a| ==> a[i].name == b[i].name && SameShape(a[i].node, b[i].node)
  }

  predicate SameDatas(a: seq<Child>, b: seq<Child>) {
    |a| == |b| && forall i :: 0 <= i < |a| ==> a[i].name == b[i].name && SameData(a[i].node, b[i].node)
  }

  lemma {:induction false} DirBytesIff(a: Node, b: Node, rel: Rel)
    requires a.Dir? && SameShape(a, b)
    ensures |DirBytes(a, rel)| == |DirBytes(b, rel)|
    ensures DirBytes(a, rel) == DirBytes(b, rel) <==> SameData(a, b)
    decreases a, 1
  {
    hide RelText;
    assert SameShapes(a.children, b.children);
    ChildBytesIff(a.children, b.children, rel);
    assert SameData(a, b) <==> SameDatas(a.children, b.children);
    var head := "dir\0" + RelText(rel) + "\0";
    SplitAlike(head, ChildBytes(a.children, rel), head, ChildBytes(b.children, rel));
  }

  function OneBytes(c: Child, rel: Rel): string {
    match c.node
    case File(_, _, data) => "file\0" + RelText(rel + [c.name]) + "\0" + data
    case Dir(_, _, _, _) => DirBytes(c.node, rel + [c.name])
    case _ => ""
  }

  lemma OneBytesIff(c: Child, d: Child, rel: Rel)
    requires c.name == d.name && SameShape(c.node, d.node)
    ensures |OneBytes(c, rel)| == |OneBytes(d, rel)|
    ensures OneBytes(c, rel) == OneBytes(d, rel) <==> SameData(c.node, d.node)
    decreases c.node, 2
  {
    hide RelText;
    if c.node.File? {
      var head := "file\0" + RelText(rel + [c.name]) + "\0";
      SplitAlike(head, c.node.data, head, d.node.data);
    } else if c.node.Dir? {
      DirBytesIff(c.node, d.node, rel + [c.name]);
    }
  }

  lemma {:induction false} ChildBytesIff(a: seq<Child>, b: seq<Child>, rel: Rel)
    requires SameShapes(a, b)
    ensures |ChildBytes(a, rel)| == |ChildBytes(b, rel)|
    ensures ChildBytes(a, rel) == ChildBytes(b, rel) <==> SameDatas(a, b)
    decreases a, 0
  {
    hide RelText;
    if a != [] {
      OneBytesIff(a[0], b[0], rel);
      ChildBytesIff(a[1..], b[1..], rel);
      assert SameDatas(a, b) <==> SameData(a[0].node, b[0].node) && SameDatas(a[1..], b[1..]) by {
        SameDatasCons(a, b);
      }
      assert ChildBytes(a, rel) == OneBytes(a[0], rel) + ChildBytes(a[1..], rel);
      assert ChildBytes(b, rel) == OneBytes(b[0], rel) + ChildBytes(b[1..], rel);
      SplitAlike(OneBytes(a[0], rel), ChildBytes(a[1..], rel), OneBytes(b[0], rel), ChildBytes(b[1..], rel));
    }
  }

  lemma SameDatasCons(a: seq<Child>, b: seq<Child>)
    requires a != [] && b != [] && a[0].name == b[0].name
    ensures SameDatas(a, b) <==> SameData(a[0].node, b[0].node) && SameDatas(a[1..], b[1..])
  {
    hide SameData;
    if SameDatas(a[1..], b[1..]) && SameData(a[0].node, b[0].node) {
      forall i | 0 <= i < |a|
        ensures a[i].name == b[i].name && SameData(a[i].node, b[i].node)
      {
        assert i > 0 ==> a[i] == a[1..][i - 1] && b[i] == b[1..][i - 1];
      }
    }
  }

  lemma DirStream(t: Node)
    requires t.Dir? && Fingerprint(t).Some?
    ensures Fingerprint(t).value.stream == DirBytes(t, [])
  {
    HashDirBytes(t, [], Hashed("", map[]));
    assert "" + DirBytes(t, []) == DirBytes(t, []);
  }

  /** Directories that give the hasher the same bytes have the same contents exactly if they have the same shape. */
  lemma SameBytesIff(a: Node, b: Node)
    requires a.Dir? && b.Dir? && Fingerprint(a).Some? && Fingerprint(b).Some?
    requires Fingerprint(a).value.stream == Fingerprint(b).value.stream
    ensures SameData(a, b) <==> SameShape(a, b)
  {
    hide Fingerprint;
    DirStream(a);
    DirStream(b);
    if SameShape(a, b) {
      DirBytesIff(a, b, []);
    } else if SameData(a, b) {
      SameDataIsShape(a, b);
    }
  }

  /** No length is hashed, so shapes may differ: a second file can hide in the contents of the first. */
  lemma FileHidesInContents(mode: nat, mtime: int, size: nat, first: string, second: string, x: string, y: string)
    ensures var one := Dir(mode, mtime, size, [Child(first, File(mode, mtime, x + ("file\0" + second + "\0" + y)))]);
            var two := Dir(mode, mtime, size, [Child(first, File(mode, mtime, x)), Child(second, File(mode, mtime, y))]);
            && Fingerprint(one).Some? && Fingerprint(two).Some? && !SameShape(one, two)
            && Fingerprint(one).value.stream == Fingerprint(two).value.stream
  {
    var z := x + ("file\0" + second + "\0" + y);
    var a, b, c := Child(first, File(mode, mtime, z)), Child(first, File(mode, mtime, x)), Child(second, File(mode, mtime, y));
    var one, two := Dir(mode, mtime, size, [a]), Dir(mode, mtime, size, [b, c]);
    assert [a][1..] == [] && [b, c][1..] == [c] && [c][1..] == [];
    assert [] + [first] == [first] && [] + [second] == [second];
    assert RelText([first]) == first && RelText([second]) == second;
    HashesFiles(one);
    HashesFiles(two);
    DirStream(one);
    DirStream(two);
    assert ChildBytes([c], []) == "file\0" + second + "\0" + y + "";
    assert ChildBytes([b, c], []) == "file\0" + first + "\0" + x + ChildBytes([c], []);
    assert ChildBytes([a], []) == "file\0" + first + "\0" + z + "";
    assert "file\0" + first + "\0" + x + ("file\0" + second + "\0" + y) == "file\0" + first + "\0" + z;
  }

  lemma HashesFiles(t: Node)
    requires t.Dir? && forall c :: c in t.children ==> c.node.File?
    ensures Fingerprint(t).Some?
  {
    hide RelText;
    FilesHash(t.children, [], Hashed("" + "dir\0" + RelText([]) + "\0", map[][[] := InfoOf(t)]));
  }

  lemma {:induction false} FilesHash(children: seq<Child>, rel: Rel, acc: Hashed)
    requires forall c :: c in children ==> c.node.File?
    ensures HashChildren(children, rel, acc).Some?
  {
    hide RelText;
    if children != [] {
      var c := children[0];
      var childRel := rel + [c.name];
      FilesHash(children[1..], rel,
        Hashed(acc.stream + "file\0" + RelText(childRel) + "\0" + c.node.data, acc.snapshot[childRel := InfoOf(c.node)]));
    }
  }

  function SnapDir(t: Node, rel: Rel, snapshot: Snapshot): Option<Snapshot>
    requires t.Dir?
    decreases t, 1
  {
    SnapChildren(t.children, rel, snapshot[rel := InfoOf(t)])
  }

  function SnapChildren(children: seq<Child>, rel: Rel, snapshot: Snapshot): Option<Snapshot>
    decreases children, 0
  {
    if children == [] then Some(snapshot)
    else
      var c := children[0];
      match c.node
      case File(_, _, _) => SnapChildren(children[1..], rel, snapshot[rel + [c.name] := InfoOf(c.node)])
      case Dir(_, _, _, _) =>
        (match SnapDir(c.node, rel + [c.name], snapshot)
         case None => None
         case Some(snapshot') => SnapChildren(children[1..], rel, snapshot'))
      case _ => None
  }

  function TakeSnapshot(t: Node): Option<Snapshot> {
    match t
    case File(_, _, _) => Some(map[[] := InfoOf(t)])
    case Dir(_, _, _, _) => SnapDir(t, [], map[])
    case _ => None
  }

  const DIR_MODE: nat := 0x5F8   // 0o2770

  /** Read, write and execute of two octal digits together. */
  function Either(a: nat, b: nat): (r: nat)
    requires a < 8 && b < 8
    ensures r < 8
  {
    (if a / 4 == 1 || b / 4 == 1 then 4 else 0) + (if a / 2 % 2 == 1 || b / 2 % 2 == 1 then 2 else 0)
    + (if a % 2 == 1 || b % 2 == 1 then 1 else 0)
  }

  /** The file mode the copy gets: the group may what the owner may, and some of them may read. */
  function PortableMode(mode: nat): nat {
    var owner, group, others := mode / 64 % 8, Either(mode / 8 % 8, mode / 64 % 8), mode % 8;
    if owner < 4 && group < 4 && others < 4 then (owner + 4) * 64 + (group + 4) * 8 + others
    else owner * 64 + group * 8 + others
  }

  /** Does the octal digit allow reading, writing, executing? */
  predicate Allows(digit: nat, read: bool, write: bool, execute: bool) {
    digit < 8 && (digit >= 4 <==> read) && (digit / 2 % 2 == 1 <==> write) && (digit % 2 == 1 <==> execute)
  }

  /** The group gets what it had and what the owner has; a file nobody may read becomes readable to owner and group. */
  lemma PortableModeMeans(owner: nat, group: nat, others: nat) returns (owner': nat, group': nat)
    requires owner < 8 && group < 8 && others < 8
    ensures PortableMode(owner * 64 + group * 8 + others) == owner' * 64 + group' * 8 + others
    ensures var unread := owner < 4 && group < 4 && others < 4;
            && Allows(owner', owner >= 4 || unread, owner / 2 % 2 == 1, owner % 2 == 1)
            && Allows(group', owner >= 4 || group >= 4 || unread, owner / 2 % 2 == 1 || group / 2 % 2 == 1,
                      owner % 2 == 1 || group % 2 == 1)
  {
    DigitsOf(owner, group, others);
    var g := Either(group, owner);
    EitherAllows(group, owner);
    if owner < 4 && group < 4 && others < 4 {
      owner', group' := owner + 4, g + 4;
    } else {
      owner', group' := owner, g;
    }
  }

  lemma EitherAllows(a: nat, b: nat)
    requires a < 8 && b < 8
    ensures Allows(Either(a, b), a >= 4 || b >= 4, a / 2 % 2 == 1 || b / 2 % 2 == 1, a % 2 == 1 || b % 2 == 1)
  {
  }

  lemma DigitsOf(a: nat, b: nat, c: nat)
    requires a < 8 && b < 8 && c < 8
    ensures var m := a * 64 + b * 8 + c; m / 64 % 8 == a && m / 8 % 8 == b && m % 8 == c
  {
    assert (a * 64 + b * 8 + c) / 8 == a * 8 + b;
  }

  function Copy(t: Node, now: int, dirSize: nat): Option<Node>
    decreases t, 1
  {
    match t
    case File(mode, _, data) => Some(File(PortableMode(mode), now, data))
    case Dir(_, _, _, children) =>
      (match CopyChildren(children, now, dirSize)
       case None => None
       case Some(copies) => Some(Dir(DIR_MODE, now, dirSize, copies)))
    case _ => None
  }

  function CopyChildren(children: seq<Child>, now: int, dirSize: nat): Option<seq<Child>>
    decreases children, 0
  {
    if children == [] then Some([])
    else
      match Copy(children[0].node, now, dirSize)
      case None => None
      case Some(c) =>
        match CopyChildren(children[1..], now, dirSize)
        case None => None
        case Some(rest) => Some([Child(children[0].name, c)] + rest)
  }

  // ----- the walks in the source's form

  class Walk {
    var stream: string
    var snapshot: Snapshot

    constructor ()
      ensures stream == "" && snapshot == map[]
    {
      stream, snapshot := "", map[];
    }

    method HashHarnessAssetDirInto(t: Node, rel: Rel) returns (ok: bool)
      requires t.Dir?
      modifies this
      ensures HashDir(t, rel, old(Hashed(stream, snapshot))) == if ok then Some(Hashed(stream, snapshot)) else None
      decreases t
    {
      ghost var goal := HashDir(t, rel, Hashed(stream, snapshot));
      snapshot := snapshot[rel := InfoOf(t)];
      stream := stream + "dir\0" + RelText(rel) + "\0";
      for i := 0 to |t.children|
        invariant goal == HashChildren(t.children[i..], rel, Hashed(stream, snapshot))
      {
        var child := t.children[i];
        assert t.children[i..][1..] == t.children[i + 1..];
        var childRel := rel + [child.name];
        if child.node.Symlink? {
          return false;
        }
        if child.node.File? {
          snapshot := snapshot[childRel := InfoOf(child.node)];
          ghost var before := stream;
          stream := stream + "file\0" + RelText(childRel) + "\0";
          stream := stream + child.node.data;
          continue;
        }
        if child.node.Dir? {
          ok := HashHarnessAssetDirInto(child.node, childRel);
          if !ok {
            return;
          }
          continue;
        }
        return false;
      }
      return true;
    }

    method SnapshotHarnessAssetDirInto(t: Node, rel: Rel) returns (ok: bool)
      requires t.Dir?
      modifies this`snapshot
      ensures SnapDir(t, rel, old(snapshot)) == if ok then Some(snapshot) else None
      decreases t
    {
      ghost var goal := SnapDir(t, rel, snapshot);
      snapshot := snapshot[rel := InfoOf(t)];
      for i := 0 to |t.children|
        invariant goal == SnapChildren(t.children[i..], rel, snapshot)
      {
        var child := t.children[i];
        assert t.children[i..][1..] == t.children[i + 1..];
        if child.node.Symlink? {
          return false;
        }
        var childRel := rel + [child.name];
        if child.node.File? {
          snapshot := snapshot[childRel := InfoOf(child.node)];
          continue;
        }
        if child.node.Dir? {
          ok := SnapshotHarnessAssetDirInto(child.node, childRel);
          if !ok {
            return;
          }
          continue;
        }
        return false;
      }
      return true;
    }
  }

  method CopyHarnessAssetDirStrict(src: Node, now: int, dirSize: nat) returns (dst: Option<Node>)
    requires src.Dir?
    ensures dst == Copy(src, now, dirSize)
    decreases src
  {
    var copies: seq<Child> := [];
    assert src.children[0..] == src.children;
    assert forall rest: seq<Child> :: copies + rest == rest;
    for i := 0 to |src.children|
      invariant CopyChildren(src.children, now, dirSize)
             == match CopyChildren(src.children[i..], now, dirSize) case None => None case Some(rest) => Some(copies + rest)
    {
      var child := src.children[i];
      assert src.children[i..][1..] == src.children[i + 1..];
      ghost var soFar := copies;
      if child.node.Symlink? {
        return None;
      }
      if child.node.Dir? {
        var copy := CopyHarnessAssetDirStrict(child.node, now, dirSize);
        if copy == None {
          return None;
        }
        copies := copies + [Child(child.name, copy.value)];
      } else {
        if !child.node.File? {
          return None;
        }
        copies := copies + [Child(child.name, File(PortableMode(child.node.mode), now, child.node.data))];
      }
      assert forall rest: seq<Child> :: soFar + ([copies[|copies| - 1]] + rest) == copies + rest;
    }
    assert copies + [] == copies;
    return Some(Dir(DIR_MODE, now, dirSize, copies));
  }

  // ----- the cheap walk agrees with the hashing walk

  lemma {:induction false} DirWalksAgree(t: Node, rel: Rel, acc: Hashed)
    requires t.Dir?
    ensures SnapDir(t, rel, acc.snapshot) ==
            match HashDir(t, rel, acc) case None => None case Some(h) => Some(h.snapshot)
    decreases t, 1
  {
    hide RelText;
    ChildWalksAgree(t.children, rel, Hashed(acc.stream + "dir\0" + RelText(rel) + "\0", acc.snapshot[rel := InfoOf(t)]));
  }

  lemma {:induction false} ChildWalksAgree(children: seq<Child>, rel: Rel, acc: Hashed)
    ensures SnapChildren(children, rel, acc.snapshot) ==
            match HashChildren(children, rel, acc) case None => None case Some(h) => Some(h.snapshot)
    decreases children, 0
  {
    hide RelText;
    if children != [] {
      var c := children[0];
      var childRel := rel + [c.name];
      match c.node
      case File(_, _, data) =>
        ChildWalksAgree(children[1..], rel,
          Hashed(acc.stream + "file\0" + RelText(childRel) + "\0" + data, acc.snapshot[childRel := InfoOf(c.node)]));
      case Dir(_, _, _, _) =>
        DirWalksAgree(c.node, childRel, acc);
        if HashDir(c.node, childRel, acc).Some? {
          ChildWalksAgree(children[1..], rel, HashDir(c.node, childRel, acc).value);
        }
      case _ =>
    }
  }

  /** The cheap walk accepts what the hashing walk accepts and takes the same snapshot. */
  lemma SnapshotsAgree(t: Node)
    ensures TakeSnapshot(t) == match Fingerprint(t) case None => None case Some(f) => Some(f.snapshot)
  {
    if t.Dir? {
      DirWalksAgree(t, [], Hashed("", map[]));
    }
  }

  // ----- the copy has the fingerprint of its source

  lemma {:induction false} CopyHashes(t: Node, now: int, dirSize: nat, rel: Rel, a: Hashed, b: Hashed)
    requires t.Dir? && a.stream == b.stream
    ensures Copy(t, now, dirSize).Some? <==> HashDir(t, rel, a).Some?
    ensures Copy(t, now, dirSize).Some? ==>
              && Copy(t, now, dirSize).value.Dir?
              && HashDir(Copy(t, now, dirSize).value, rel, b).Some?
              && HashDir(Copy(t, now, dirSize).value, rel, b).value.stream == HashDir(t, rel, a).value.stream
    decreases t, 1
  {
    hide RelText;
    hide PortableMode;
    var a' := Hashed(a.stream + "dir\0" + RelText(rel) + "\0", a.snapshot[rel := InfoOf(t)]);
    var b' := Hashed(b.stream + "dir\0" + RelText(rel) + "\0", b.snapshot[rel := Info("dir", DIR_MODE, dirSize, now)]);
    CopyChildrenHash(t.children, now, dirSize, rel, a', b');
  }

  lemma {:induction false} CopyChildrenHash(children: seq<Child>, now: int, dirSize: nat, rel: Rel, a: Hashed, b: Hashed)
    requires a.stream == b.stream
    ensures CopyChildren(children, now, dirSize).Some? <==> HashChildren(children, rel, a).Some?
    ensures CopyChildren(children, now, dirSize).Some? ==>
              && HashChildren(CopyChildren(children, now, dirSize).value, rel, b).Some?
              && HashChildren(CopyChildren(children, now, dirSize).value, rel, b).value.stream
                 == HashChildren(children, rel, a).value.stream
    decreases children, 0
  {
    hide RelText;
    hide PortableMode;
    if children != [] {
      var c := children[0];
      var childRel := rel + [c.name];
      var rest := CopyChildren(children[1..], now, dirSize);
      if rest.Some? && Copy(c.node, now, dirSize).Some? {
        assert ([Child(c.name, Copy(c.node, now, dirSize).value)] + rest.value)[1..] == rest.value;
      }
      match c.node
      case File(mode, _, data) =>
        var text := "file\0" + RelText(childRel) + "\0";
        CopyChildrenHash(children[1..], now, dirSize, rel,
          Hashed(a.stream + "file\0" + RelText(childRel) + "\0" + data, a.snapshot[childRel := InfoOf(c.node)]),
          Hashed(b.stream + "file\0" + RelText(childRel) + "\0" + data,
                 b.snapshot[childRel := InfoOf(File(PortableMode(mode), now, data))]));
      case Dir(_, _, _, _) =>
        CopyHashes(c.node, now, dirSize, childRel, a, b);
        if Copy(c.node, now, dirSize).Some? {
          CopyChildrenHash(children[1..], now, dirSize, rel, HashDir(c.node, childRel, a).value,
            HashDir(Copy(c.node, now, dirSize).value, childRel, b).value);
        }
      case _ =>
    }
  }

  /**
   The strict copy accepts exactly the trees the fingerprint walk accepts, and its result has the same kind and the
   same bytes for the hasher, although modes and times differ.
   */
  lemma CopyKeepsFingerprint(t: Node, now: int, dirSize: nat)
    ensures Copy(t, now, dirSize).Some? <==> Fingerprint(t).Some?
    ensures Copy(t, now, dirSize).Some? ==>
              && Fingerprint(Copy(t, now, dirSize).value).Some?
              && Fingerprint(Copy(t, now, dirSize).value).value.kind == Fingerprint(t).value.kind
              && Fingerprint(Copy(t, now, dirSize).value).value.stream == Fingerprint(t).value.stream
  {
    if t.Dir? {
      CopyHashes(t, now, dirSize, [], Hashed("", map[]), Hashed("", map[]));
    }
  }

  lemma {:induction false} CopyAcceptsPlain(t: Node, now: int, dirSize: nat)
    ensures Copy(t, now, dirSize).Some? <==> Plain(t)
    decreases t, 1
  {
    if t.Dir? {
      CopyChildrenAcceptPlain(t.children, now, dirSize);
    }
  }

  lemma {:induction false} CopyChildrenAcceptPlain(children: seq<Child>, now: int, dirSize: nat)
    ensures CopyChildren(children, now, dirSize).Some? <==> forall i :: 0 <= i < |children| ==> Plain(children[i].node)
    decreases children, 0
  {
    if children != [] {
      CopyAcceptsPlain(children[0].node, now, dirSize);
      CopyChildrenAcceptPlain(children[1..], now, dirSize);
      assert forall i :: 0 < i < |children| ==> children[i] == children[1..][i - 1];
      assert forall i :: 0 <= i < |children| - 1 ==> children[1..][i] == children[i + 1];
    }
  }

  /** All three walks accept exactly the trees without symlinks and special files. */
  lemma WalksAcceptPlainTrees(t: Node, now: int, dirSize: nat)
    ensures Plain(t) <==> Fingerprint(t).Some?
    ensures Plain(t) <==> TakeSnapshot(t).Some?
    ensures Plain(t) <==> Copy(t, now, dirSize).Some?
  {
    CopyAcceptsPlain(t, now, dirSize);
    CopyKeepsFingerprint(t, now, dirSize);
    SnapshotsAgree(t);
  }
}
