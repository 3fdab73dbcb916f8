/** How the hashing walk names what it hashes: every file under its whole path below the root. */
module AssetPaths {
  import opened Wrappers
  import opened Text
  import opened AssetTree
  import opened AssetFreshness

  /** Names as a directory holds them. */
  predicate Names(rel: Rel) {
    forall i :: 0 <= i < |rel| ==> rel[i] != "" && rel[i] != "." && '/' !in rel[i]
  }

  /** The root is ".", and any other path its names with slashes between them. */
  lemma {:induction false} RelTextIsJoined(rel: Rel)
    ensures RelText(rel) == if rel == [] then "." else Join(rel, "/")
  {
    if |rel| > 1 {
      var n := |rel| - 1;
      RelTextIsJoined(rel[..n]);
      JoinLast(rel[..n], rel[n]);
      assert rel == rel[..n] + [rel[n]];
    }
  }

  lemma {:induction false} JoinLast(parts: seq<string>, last: string)
    requires parts != []
    ensures Join(parts + [last], "/") == Join(parts, "/") + "/" + last
  {
    var all := parts + [last];
    if |parts| > 1 {
      JoinLast(parts[1..], last);
      assert all[1..] == parts[1..] + [last];
      assert parts[0] + "/" + (Join(parts[1..], "/") + "/" + last) == parts[0] + "/" + Join(parts[1..], "/") + "/" + last;
    } else {
      assert all[1..] == [last];
    }
  }

  /** Different paths are hashed under different names. */
  lemma RelTextInjective(a: Rel, b: Rel)
    requires Names(a) && Names(b)
    ensures RelText(a) == RelText(b) <==> a == b
  {
    hide RelText;
    hide Join;
    hide Split;
    PartsOf(a);
    PartsOf(b);
    assert |a| == 1 ==> a[0] != ".";
    assert |b| == 1 ==> b[0] != ".";
  }

  lemma PartsOf(rel: Rel)
    requires Names(rel)
    ensures Split(RelText(rel), '/') == if rel == [] then ["."] else rel
  {
    RelTextIsJoined(rel);
    hide RelText;
    hide Join;
    hide Split;
    if rel == [] {
      SplitNone(".", '/');
    } else {
      assert "/" == ['/'];
      SplitJoin(rel, '/');
    }
  }

  // ----- where a file is in what is hashed

  ghost predicate Contains(s: string, part: string) {
    exists before, after :: s == before + part + after
  }

  lemma Within(s: string, before: string, middle: string, after: string, part: string)
    requires s == before + middle + after && Contains(middle, part)
    ensures Contains(s, part)
  {
    var a, b :| middle == a + part + b;
    assert s == (before + a) + part + (b + after);
  }

  /** What is hashed for a node under the given name. */
  function HashedAs(n: Node, name: string): string
    requires Walkable(n)
  {
    if n.File? then "file\0" + name + "\0" + n.data else "dir\0" + name + "\0"
  }

  lemma {:induction false} NodeIsHashed(t: Node, rel: Rel, q: Rel)
    requires t.Dir? && At(t, q).Some? && Walkable(At(t, q).value)
    ensures Contains(DirBytes(t, rel), HashedAs(At(t, q).value, RelText(rel + q)))
    decreases t, 1
  {
    hide RelText;
    hide Contains;
    var head, rest := "dir\0" + RelText(rel) + "\0", ChildBytes(t.children, rel);
    assert head + rest + "" == head + rest && "" + head + rest == head + rest;
    if q == [] {
      assert rel + [] == rel;
      Itself(head);
      Within(DirBytes(t, rel), "", head, rest, head);
    } else {
      ChildIsHashed(t.children, rel, q);
      Within(DirBytes(t, rel), head, rest, "", HashedAs(At(t, q).value, RelText(rel + q)));
    }
  }

  lemma {:induction false} ChildIsHashed(children: seq<Child>, rel: Rel, q: Rel)
    requires q != [] && AtChild(children, q).Some? && Walkable(AtChild(children, q).value)
    ensures Contains(ChildBytes(children, rel), HashedAs(AtChild(children, q).value, RelText(rel + q)))
    decreases children, 0
  {
    hide RelText;
    hide Contains;
    var c, rest := children[0], ChildBytes(children[1..], rel);
    var part := HashedAs(AtChild(children, q).value, RelText(rel + q));
    assert ChildBytes(children, rel) == OneBytes(c, rel) + rest;
    if c.name == q[0] {
      assert rel + q == rel + [c.name] + q[1..];
      if c.node.File? {
        assert q[1..] == [] && rel + q == rel + [c.name];
        Itself(part);
      } else {
        NodeIsHashed(c.node, rel + [c.name], q[1..]);
      }
      assert "" + OneBytes(c, rel) + rest == OneBytes(c, rel) + rest;
      Within(ChildBytes(children, rel), "", OneBytes(c, rel), rest, part);
    } else {
      ChildIsHashed(children[1..], rel, q);
      assert OneBytes(c, rel) + rest + "" == OneBytes(c, rel) + rest;
      Within(ChildBytes(children, rel), OneBytes(c, rel), rest, "", part);
    }
  }

  lemma Itself(part: string)
    ensures Contains(part, part)
  {
    assert part == "" + part + "";
  }

  /** A nested file's path is written out in full in what is hashed for the tree, before its contents. */
  lemma NestedFileIsHashed(t: Node, q: Rel)
    requires Fingerprint(t).Some? && t.Dir? && q != [] && At(t, q).Some? && At(t, q).value.File?
    ensures Contains(Fingerprint(t).value.stream, "file\0" + Join(q, "/") + "\0" + At(t, q).value.data)
  {
    DirStream(t);
    RelTextIsJoined(q);
    assert [] + q == q;
    NodeIsHashed(t, [], q);
  }

  /** So is that of a directory, even of an empty one. */
  lemma NestedDirIsHashed(t: Node, q: Rel)
    requires Fingerprint(t).Some? && t.Dir? && At(t, q).Some? && At(t, q).value.Dir?
    ensures Contains(Fingerprint(t).value.stream, "dir\0" + (if q == [] then "." else Join(q, "/")) + "\0")
  {
    DirStream(t);
    RelTextIsJoined(q);
    assert [] + q == q;
    NodeIsHashed(t, [], q);
  }

  /** A file has the fingerprint of no directory, and of another file exactly if the contents agree. */
  lemma FileFingerprintIff(a: Node, b: Node)
    requires a.File? && Fingerprint(b).Some?
    ensures (&& Fingerprint(b).value.kind == Fingerprint(a).value.kind
             && Fingerprint(b).value.stream == Fingerprint(a).value.stream) <==> b.File? && b.data == a.data
  {
  }

  // ----- what a copy holds

  /** At every path a copy has what the tree has: files with their contents and the portable mode, directories writable
      by the group, all with the time of the copy. */
  lemma {:induction false} CopyAt(t: Node, now: int, dirSize: nat, q: Rel)
    requires Copy(t, now, dirSize).Some?
    ensures var c := At(Copy(t, now, dirSize).value, q);
            match At(t, q)
            case Some(File(mode, _, data)) => c == Some(File(PortableMode(mode), now, data))
            case Some(Dir(_, _, _, children)) =>
              c.Some? && c.value.Dir? && c.value.mode == 2 * 512 + 7 * 64 + 7 * 8 && c.value.mtime == now
              && |c.value.children| == |children|
            case _ => c == None
    decreases t, 1
  {
    if t.Dir? {
      CopiedCount(t.children, now, dirSize);
      if q != [] {
        CopyAtChild(t.children, now, dirSize, q);
      }
    }
  }

  lemma {:induction false} CopiedCount(children: seq<Child>, now: int, dirSize: nat)
    requires CopyChildren(children, now, dirSize).Some?
    ensures |CopyChildren(children, now, dirSize).value| == |children|
  {
    if children != [] {
      CopiedCount(children[1..], now, dirSize);
    }
  }

  lemma {:induction false} CopyAtChild(children: seq<Child>, now: int, dirSize: nat, q: Rel)
    requires q != [] && CopyChildren(children, now, dirSize).Some?
    ensures var c := AtChild(CopyChildren(children, now, dirSize).value, q);
            match AtChild(children, q)
            case Some(File(mode, _, data)) => c == Some(File(PortableMode(mode), now, data))
            case Some(Dir(_, _, _, children)) =>
              c.Some? && c.value.Dir? && c.value.mode == 2 * 512 + 7 * 64 + 7 * 8 && c.value.mtime == now
              && |c.value.children| == |children|
            case _ => c == None
    decreases children, 0
  {
    hide PortableMode;
    if children != [] {
      var one := Copy(children[0].node, now, dirSize).value;
      var rest := CopyChildren(children[1..], now, dirSize).value;
      assert CopyChildren(children, now, dirSize).value == [Child(children[0].name, one)] + rest;
      assert ([Child(children[0].name, one)] + rest)[1..] == rest;
      if children[0].name == q[0] {
        CopyAt(children[0].node, now, dirSize, q[1..]);
      } else {
        CopyAtChild(children[1..], now, dirSize, q);
      }
    }
  }
}
