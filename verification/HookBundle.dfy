/** Hook bundles: what a hooks directory holds, the hash it is approved under, and the snapshot written of it. */
module HookBundle {
  type Tree = map<string, string>

  datatype Write = Write(path: string, data: string)

  /** `about` stands for the purpose, the interpreter and the required commands. */
  datatype Hook = Hook(kind: string, script: string, about: string, data: string)

  datatype Entry = Entry(kind: string, script: string, about: string)

  /** A parsed manifest, its hooks and files in the order the loader sorts them into. */
  datatype Manifest = Manifest(version: int, files: seq<string>, hooks: seq<Entry>)

  datatype Parsed = Rejected | Accepted(manifest: Manifest)

  /** What the bundle hash covers. */
  datatype Core = Core(version: int, files: seq<Write>, hooks: seq<Hook>)

  datatype Bundle = Bundle(manifestData: string, core: Core)

  datatype Loaded = Missing | Broken | Found(bundle: Bundle)

  /** The foreign parts: the YAML reader with its validation, and the two hashes, with the "sha256:" prefix. */
  datatype Library = Library(parse: string -> Parsed, hashProject: string -> string, hashBundle: Core -> string)
  {
    ghost predicate Sound() {
      && (forall p, q :: hashProject(p) == hashProject(q) ==> p == q)
      && (forall c, d :: hashBundle(c) == hashBundle(d) ==> c == d)
    }
  }

  const MANIFEST := "hooks.yaml"

  function FilesOf(tree: Tree, paths: seq<string>): seq<Write>
    requires forall p :: p in paths ==> p in tree
  {
    seq(|paths|, i requires 0 <= i < |paths| => Write(paths[i], tree[paths[i]]))
  }

  function HooksOf(tree: Tree, entries: seq<Entry>): seq<Hook>
    requires forall e :: e in entries ==> e.script in tree
  {
    seq(|entries|, i requires 0 <= i < |entries| =>
      Hook(entries[i].kind, entries[i].script, entries[i].about, tree[entries[i].script]))
  }

  predicate Complete(tree: Tree, m: Manifest) {
    (forall p :: p in m.files ==> p in tree) && forall e :: e in m.hooks ==> e.script in tree
  }

  function Load(lib: Library, tree: Tree): Loaded {
    if MANIFEST !in tree then Missing
    else
      match lib.parse(tree[MANIFEST])
      case Rejected => Broken
      case Accepted(m) =>
        if !Complete(tree, m) then Broken
        else Found(Bundle(tree[MANIFEST], Core(m.version, FilesOf(tree, m.files), HooksOf(tree, m.hooks))))
  }

  /** A bundle some hooks directory was read as. */
  ghost predicate IsBundle(lib: Library, b: Bundle) {
    exists tree: Tree :: Load(lib, tree) == Found(b)
  }

  /** The manifest, the files, then the scripts. */
  function Writes(b: Bundle): seq<Write> {
    [Write(MANIFEST, b.manifestData)] + b.core.files + Scripts(b.core.hooks)
  }

  function Scripts(hooks: seq<Hook>): seq<Write> {
    seq(|hooks|, i requires 0 <= i < |hooks| => Write(hooks[i].script, hooks[i].data))
  }

  function Apply(tree: Tree, writes: seq<Write>): Tree {
    if writes == [] then tree
    else
      var last := writes[|writes| - 1];
      Apply(tree, writes[..|writes| - 1])[last.path := last.data]
  }

  function SnapshotTree(b: Bundle): Tree {
    Apply(map[], Writes(b))
  }

  lemma {:induction false} ApplyKeeps(tree: Tree, writes: seq<Write>)
    requires forall w :: w in writes ==> w.path in tree && tree[w.path] == w.data
    ensures forall p :: p in Apply(map[], writes) ==> p in tree && Apply(map[], writes)[p] == tree[p]
    ensures forall w :: w in writes ==> w.path in Apply(map[], writes)
  {
    if writes != [] {
      var rest, last := writes[..|writes| - 1], writes[|writes| - 1];
      assert forall w :: w in rest ==> w in writes;
      assert last in writes;
      ApplyKeeps(tree, rest);
      assert writes == rest + [last];
    }
  }

  lemma WritesComeFrom(lib: Library, tree: Tree, b: Bundle)
    requires Load(lib, tree) == Found(b)
    ensures forall w :: w in Writes(b) ==> w.path in tree && tree[w.path] == w.data
    ensures MANIFEST in tree && lib.parse(tree[MANIFEST]).Accepted?
    ensures Complete(tree, lib.parse(tree[MANIFEST]).manifest)
    ensures Load(lib, tree).bundle.manifestData == tree[MANIFEST]
  {
    var m := lib.parse(tree[MANIFEST]).manifest;
    forall w | w in Writes(b)
      ensures w.path in tree && tree[w.path] == w.data
    {
      var k :| 0 <= k < |Writes(b)| && Writes(b)[k] == w;
      if 1 <= k < 1 + |m.files| {
        assert w == FilesOf(tree, m.files)[k - 1];
      } else if k != 0 {
        assert w.data == HooksOf(tree, m.hooks)[k - 1 - |m.files|].data;
      }
    }
  }

  lemma WritesCover(b: Bundle, w: Write)
    requires w in b.core.files || (exists h :: h in b.core.hooks && w == Write(h.script, h.data))
             || w == Write(MANIFEST, b.manifestData)
    ensures w in Writes(b)
  {
    var ws := Writes(b);
    if w == Write(MANIFEST, b.manifestData) {
      assert ws[0] == w;
    } else if w in b.core.files {
      var i :| 0 <= i < |b.core.files| && b.core.files[i] == w;
      assert ws[1 + i] == w;
    } else {
      var h :| h in b.core.hooks && w == Write(h.script, h.data);
      var i :| 0 <= i < |b.core.hooks| && b.core.hooks[i] == h;
      assert ws[1 + |b.core.files| + i] == w;
    }
  }

  /** A smaller tree that agrees with `tree` and holds what the manifest names is read alike. */
  lemma LoadAgrees(lib: Library, tree: Tree, part: Tree)
    requires MANIFEST in tree && MANIFEST in part && lib.parse(tree[MANIFEST]).Accepted?
    requires forall p :: p in part ==> p in tree && part[p] == tree[p]
    requires Complete(tree, lib.parse(tree[MANIFEST]).manifest)
    requires Complete(part, lib.parse(tree[MANIFEST]).manifest)
    ensures Load(lib, part) == Load(lib, tree)
  {
    var m := lib.parse(tree[MANIFEST]).manifest;
    assert FilesOf(part, m.files) == FilesOf(tree, m.files);
    assert HooksOf(part, m.hooks) == HooksOf(tree, m.hooks);
  }

  lemma SnapshotComplete(lib: Library, tree: Tree, b: Bundle)
    requires Load(lib, tree) == Found(b)
    requires forall w :: w in Writes(b) ==> w.path in SnapshotTree(b)
    ensures MANIFEST in SnapshotTree(b)
    ensures lib.parse(b.manifestData).Accepted? && Complete(SnapshotTree(b), lib.parse(b.manifestData).manifest)
  {
    hide SnapshotTree;
    var m := lib.parse(tree[MANIFEST]).manifest;
    WritesCover(b, Write(MANIFEST, b.manifestData));
    forall p | p in m.files
      ensures p in SnapshotTree(b)
    {
      var i :| 0 <= i < |m.files| && m.files[i] == p;
      var w := FilesOf(tree, m.files)[i];
      WritesCover(b, w);
      assert w.path == p;
    }
    forall e | e in m.hooks
      ensures e.script in SnapshotTree(b)
    {
      var i :| 0 <= i < |m.hooks| && m.hooks[i] == e;
      var h := HooksOf(tree, m.hooks)[i];
      assert h in b.core.hooks;
      var w := Write(h.script, h.data);
      WritesCover(b, w);
      assert w.path == e.script;
    }
  }

  /** The snapshot of a bundle reads back as that bundle, whatever the manifest names: repeated paths and the manifest
      itself included. */
  lemma SnapshotReadsBack(lib: Library, b: Bundle)
    requires IsBundle(lib, b)
    ensures Load(lib, SnapshotTree(b)) == Found(b)
  {
    var tree: Tree :| Load(lib, tree) == Found(b);
    assert MANIFEST in tree && tree[MANIFEST] == b.manifestData;
    WritesComeFrom(lib, tree, b);
    assert SnapshotTree(b) == Apply(map[], Writes(b));
    ApplyKeeps(tree, Writes(b));
    SnapshotComplete(lib, tree, b);
    hide SnapshotTree;
    hide Writes;
    LoadAgrees(lib, tree, SnapshotTree(b));
  }
}
