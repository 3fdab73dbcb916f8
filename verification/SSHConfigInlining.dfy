/**
 The reader of `SSHConfig` against inlining. Skipping a visited file is safe
 because a file that has been read completely changes nothing when it is read
 again, and a file still being read is an Include cycle, which inlining cuts.
 */
module SSHConfigInlining {
  import opened Wrappers
  import opened SSHConfig

  /** A step of the flat, Include-free program a config amounts to for one host. */
  datatype Event = Give(field: Field, v: string) | Stop(e: Error)

  function Fold(events: seq<Event>, r: Resolution): Result<Resolution, Error> {
    if events == [] then Ok(r)
    else
      match events[0]
      case Stop(e) => Err(e)
      case Give(f, v) =>
        match Put(r, f, v)
        case Err(e) => Err(e)
        case Ok(r') => Fold(events[1..], r')
  }

  /** Everything an Include of `p` contributes; `open` holds the files still being read, whose Includes are cut. */
  ghost function InlinePath(env: Env, host: string, p: string, open: set<Path>): seq<Event>
    decreases env.files.Keys - open, 0
  {
    match env.canon(p)
    case None => [Stop(CanonError(p))]
    case Some(file) =>
      if file in open then []
      else if file !in env.files then [Stop(OpenError(file))]
      else
        assert env.files.Keys - (open + {file}) < env.files.Keys - open;
        InlineItems(env, host, FileItems(env, host, file), open + {file})
  }

  ghost function InlineItems(env: Env, host: string, items: seq<Item>, open: set<Path>): seq<Event>
    decreases env.files.Keys - open, 1 + |items|
  {
    if items == [] then []
    else
      (match items[0]
       case Fail(e) => [Stop(e)]
       case Value(f, v) => [Give(f, v)]
       case Visit(p) => InlinePath(env, host, p, open))
      + InlineItems(env, host, items[1..], open)
  }

  lemma {:induction false} FoldAppend(a: seq<Event>, b: seq<Event>, r: Resolution)
    ensures Fold(a + b, r) == match Fold(a, r) case Err(e) => Err(e) case Ok(r') => Fold(b, r')
  {
    hide Put;
    if a == [] {
      assert a + b == b;
    } else {
      assert (a + b)[1..] == a[1..] + b;
      if a[0].Give? && Put(r, a[0].field, a[0].v).Ok? {
        FoldAppend(a[1..], b, Put(r, a[0].field, a[0].v).value);
      }
    }
  }

  // ----- files that have nothing left to give

  ghost predicate Extends(r: Resolution, r': Resolution) {
    forall f: Field :: r.Get(f) != "" ==> r'.Get(f) == r.Get(f)
  }

  ghost predicate ItemSettled(env: Env, item: Item, r: Resolution, visited: set<Path>) {
    match item
    case Fail(_) => false
    case Value(f, v) => Put(r, f, v) == Ok(r)
    case Visit(p) => env.canon(p).Some? && env.canon(p).value in visited
  }

  ghost predicate ItemsSettled(env: Env, items: seq<Item>, r: Resolution, visited: set<Path>) {
    forall i :: 0 <= i < |items| ==> ItemSettled(env, items[i], r, visited)
  }

  /** Every visited file that is no longer being read is settled. */
  ghost predicate Settled(env: Env, host: string, r: Resolution, visited: set<Path>, open: set<Path>) {
    forall file :: file in visited - open ==>
      file in env.files && ItemsSettled(env, FileItems(env, host, file), r, visited)
  }

  lemma PutSettles(r: Resolution, f: Field, v: string)
    requires Put(r, f, v).Ok?
    ensures Extends(r, Put(r, f, v).value)
    ensures Put(Put(r, f, v).value, f, v) == Ok(Put(r, f, v).value)
  {
  }

  lemma PutStaysSettled(r: Resolution, r': Resolution, f: Field, v: string)
    requires Put(r, f, v) == Ok(r) && Extends(r, r')
    ensures Put(r', f, v) == Ok(r')
  {
    if r.Get(f) == "" {
      assert r.Set(f, v) == r;
      assert v == "" by {
        assert r.Set(f, v).Get(f) == v;
      }
    }
  }

  lemma ItemsStaySettled(env: Env, items: seq<Item>, r: Resolution, r': Resolution, visited: set<Path>, visited': set<Path>)
    requires ItemsSettled(env, items, r, visited)
    requires Extends(r, r') && visited <= visited'
    ensures ItemsSettled(env, items, r', visited')
  {
    hide Put;
    hide Extends;
    forall i | 0 <= i < |items|
      ensures ItemSettled(env, items[i], r', visited')
    {
      assert ItemSettled(env, items[i], r, visited);
      if items[i].Value? {
        PutStaysSettled(r, r', items[i].field, items[i].v);
      }
    }
  }

  lemma ExtendsTransitive(a: Resolution, b: Resolution, c: Resolution)
    requires Extends(a, b) && Extends(b, c)
    ensures Extends(a, c)
  {
  }

  /** Reading a settled file again changes nothing. */
  lemma {:induction false} RereadPath(env: Env, host: string, p: string, r: Resolution, visited: set<Path>, open: set<Path>)
    requires Settled(env, host, r, visited, open)
    requires env.canon(p).Some? && env.canon(p).value in visited
    ensures Fold(InlinePath(env, host, p, open), r) == Ok(r)
    decreases env.files.Keys - open, 0
  {
    hide Put;
    var file := env.canon(p).value;
    if file !in open {
      assert file in visited - open;
      assert env.files.Keys - (open + {file}) < env.files.Keys - open;
      RereadItems(env, host, FileItems(env, host, file), r, visited, open + {file});
    }
  }

  lemma {:induction false} RereadItems(env: Env, host: string, items: seq<Item>, r: Resolution, visited: set<Path>, open: set<Path>)
    requires Settled(env, host, r, visited, open)
    requires ItemsSettled(env, items, r, visited)
    ensures Fold(InlineItems(env, host, items, open), r) == Ok(r)
    decreases env.files.Keys - open, 1 + |items|
  {
    hide Put;
    hide InlinePath;
    if items != [] {
      RereadItems(env, host, items[1..], r, visited, open);
      assert ItemSettled(env, items[0], r, visited);
      var rest := InlineItems(env, host, items[1..], open);
      if items[0].Visit? {
        RereadPath(env, host, items[0].path, r, visited, open);
        FoldAppend(InlinePath(env, host, items[0].path, open), rest, r);
      } else {
        FoldAppend([Give(items[0].field, items[0].v)], rest, r);
      }
    }
  }

  // ----- the reader agrees with inlining

  lemma {:induction false} PathAgrees(env: Env, host: string, p: string, r: Resolution, visited: set<Path>, open: set<Path>)
    requires open <= visited && Settled(env, host, r, visited, open)
    ensures match ReadPath(env, host, p, r, visited)
            case Failed(e) => Fold(InlinePath(env, host, p, open), r) == Err(e)
            case Done(r', visited') =>
              && Fold(InlinePath(env, host, p, open), r) == Ok(r')
              && Extends(r, r') && Settled(env, host, r', visited', open)
              && ItemSettled(env, Visit(p), r', visited')
    decreases env.files.Keys - visited, 0
  {
    hide Put;
    hide Extends;
    assert Extends(r, r) by {
      ExtendsReflexive(r);
    }
    if env.canon(p).Some? {
      var file := env.canon(p).value;
      if file in visited {
        RereadPath(env, host, p, r, visited, open);
      } else if file in env.files {
        var open', visited' := open + {file}, visited + {file};
        assert Settled(env, host, r, visited', open') by {
          forall g | g in visited' - open'
            ensures g in env.files && ItemsSettled(env, FileItems(env, host, g), r, visited')
          {
            assert g in visited - open;
            ItemsStaySettled(env, FileItems(env, host, g), r, r, visited, visited');
          }
        }
        assert env.files.Keys - visited' < env.files.Keys - visited;
        ItemsAgree(env, host, FileItems(env, host, file), r, visited', open');
        var o := ReadPath(env, host, p, r, visited);
        if o.Done? {
          forall g | g in o.visited - open
            ensures g in env.files && ItemsSettled(env, FileItems(env, host, g), o.r, o.visited)
          {
            assert g == file || g in o.visited - open';
          }
        }
      }
    }
  }

  lemma ExtendsReflexive(r: Resolution)
    ensures Extends(r, r)
  {
  }

  lemma {:induction false} ItemsAgree(env: Env, host: string, items: seq<Item>, r: Resolution, visited: set<Path>, open: set<Path>)
    requires open <= visited && Settled(env, host, r, visited, open)
    ensures match ReadItems(env, host, items, r, visited)
            case Failed(e) => Fold(InlineItems(env, host, items, open), r) == Err(e)
            case Done(r', visited') =>
              && Fold(InlineItems(env, host, items, open), r) == Ok(r')
              && Extends(r, r') && Settled(env, host, r', visited', open)
              && ItemsSettled(env, items, r', visited')
    decreases env.files.Keys - visited, 1 + |items|
  {
    hide Put;
    hide Extends;
    hide InlinePath;
    hide ReadPath;
    if items == [] {
      ExtendsReflexive(r);
    } else {
      var rest := InlineItems(env, host, items[1..], open);
      match items[0]
      case Fail(e) =>
        FoldAppend([Stop(e)], rest, r);
      case Value(f, v) =>
        FoldAppend([Give(f, v)], rest, r);
        if Put(r, f, v).Ok? {
          var r1 := Put(r, f, v).value;
          PutSettles(r, f, v);
          SettledGrows(env, host, r, r1, visited, open);
          FinishItems(env, host, items, r, r1, visited, visited, open);
        }
      case Visit(p) =>
        PathAgrees(env, host, p, r, visited, open);
        FoldAppend(InlinePath(env, host, p, open), rest, r);
        var o := ReadPath(env, host, p, r, visited);
        if o.Done? {
          assert env.files.Keys - o.visited <= env.files.Keys - visited;
          FinishItems(env, host, items, r, o.r, visited, o.visited, open);
        }
    }
  }

  /** The part of `ItemsAgree` after the first item has been dealt with. */
  lemma {:induction false} FinishItems(env: Env, host: string, items: seq<Item>, r: Resolution, r1: Resolution,
                                       visited: set<Path>, visited1: set<Path>, open: set<Path>)
    requires items != [] && open <= visited <= visited1
    requires Extends(r, r1) && Settled(env, host, r1, visited1, open)
    requires ItemSettled(env, items[0], r1, visited1)
    ensures match ReadItems(env, host, items[1..], r1, visited1)
            case Failed(e) => Fold(InlineItems(env, host, items[1..], open), r1) == Err(e)
            case Done(r', visited') =>
              && Fold(InlineItems(env, host, items[1..], open), r1) == Ok(r')
              && Extends(r, r') && Settled(env, host, r', visited', open)
              && ItemsSettled(env, items, r', visited')
    decreases env.files.Keys - visited, 1 + |items|, 0
  {
    hide Put;
    hide Extends;
    hide ReadItems;
    hide InlineItems;
    assert env.files.Keys - visited1 <= env.files.Keys - visited;
    ItemsAgree(env, host, items[1..], r1, visited1, open);
    var o := ReadItems(env, host, items[1..], r1, visited1);
    if o.Done? {
      ExtendsTransitive(r, r1, o.r);
      ItemsStaySettled(env, [items[0]], r1, o.r, visited1, o.visited);
      assert ItemSettled(env, [items[0]][0], o.r, o.visited);
      forall i | 0 <= i < |items|
        ensures ItemSettled(env, items[i], o.r, o.visited)
      {
        assert i > 0 ==> items[i] == items[1..][i - 1];
      }
    }
  }

  lemma SettledGrows(env: Env, host: string, r: Resolution, r1: Resolution, visited: set<Path>, open: set<Path>)
    requires Settled(env, host, r, visited, open) && Extends(r, r1)
    ensures Settled(env, host, r1, visited, open)
  {
    hide Put;
    hide Extends;
    forall g | g in visited - open
      ensures g in env.files && ItemsSettled(env, FileItems(env, host, g), r1, visited)
    {
      ItemsStaySettled(env, FileItems(env, host, g), r, r1, visited, visited);
    }
  }

  /**
   For every file system and Include graph, cyclic or not, the reader's result or error is the one obtained
   by writing every active Include out in place, cutting only Includes of files still being read.
   */
  lemma ReaderIsInlining(env: Env, host: string, config: string)
    ensures ResolveAlias(env, host, config) == Fold(InlinePath(env, host, config, {}), NOTHING)
  {
    hide Fold;
    hide InlinePath;
    hide ReadPath;
    PathAgrees(env, host, config, NOTHING, {}, {});
  }

  // ----- acyclic Include graphs

  /** A ranking that falls along every active Include: the graph of active Includes is acyclic. */
  ghost predicate Ranked(env: Env, host: string, rank: Path -> nat) {
    forall file :: file in env.files ==> Below(env, FileItems(env, host, file), rank, rank(file))
  }

  ghost predicate Below(env: Env, items: seq<Item>, rank: Path -> nat, bound: nat) {
    forall i :: 0 <= i < |items| ==> ItemBelow(env, items[i], rank, bound)
  }

  ghost predicate ItemBelow(env: Env, item: Item, rank: Path -> nat, bound: nat) {
    item.Visit? && env.canon(item.path).Some? && env.canon(item.path).value in env.files
    ==> rank(env.canon(item.path).value) < bound
  }

  /** Naive inlining: every Include is expanded, nothing is remembered. `bound` only serves termination. */
  ghost function NaivePath(env: Env, host: string, rank: Path -> nat, p: string, bound: nat): seq<Event>
    requires Ranked(env, host, rank) && ItemBelow(env, Visit(p), rank, bound)
    decreases bound, 0
  {
    match env.canon(p)
    case None => [Stop(CanonError(p))]
    case Some(file) =>
      if file !in env.files then [Stop(OpenError(file))]
      else NaiveItems(env, host, rank, FileItems(env, host, file), rank(file))
  }

  ghost function NaiveItems(env: Env, host: string, rank: Path -> nat, items: seq<Item>, bound: nat): seq<Event>
    requires Ranked(env, host, rank) && Below(env, items, rank, bound)
    decreases bound, 1 + |items|
  {
    if items == [] then []
    else
      assert ItemBelow(env, items[0], rank, bound);
      (match items[0]
       case Fail(e) => [Stop(e)]
       case Value(f, v) => [Give(f, v)]
       case Visit(p) => NaivePath(env, host, rank, p, bound))
      + NaiveItems(env, host, rank, items[1..], bound)
  }

  lemma {:induction false} NaivePathCutsNothing(env: Env, host: string, rank: Path -> nat, p: string, bound: nat, open: set<Path>)
    requires Ranked(env, host, rank) && ItemBelow(env, Visit(p), rank, bound)
    requires forall f :: f in open ==> f in env.files && bound <= rank(f)
    ensures NaivePath(env, host, rank, p, bound) == InlinePath(env, host, p, open)
    decreases bound, 0
  {
    if env.canon(p).Some? && env.canon(p).value in env.files {
      var file := env.canon(p).value;
      NaiveItemsCutNothing(env, host, rank, FileItems(env, host, file), rank(file), open + {file});
    }
  }

  lemma {:induction false} NaiveItemsCutNothing(env: Env, host: string, rank: Path -> nat, items: seq<Item>, bound: nat, open: set<Path>)
    requires Ranked(env, host, rank) && Below(env, items, rank, bound)
    requires forall f :: f in open ==> f in env.files && bound <= rank(f)
    ensures NaiveItems(env, host, rank, items, bound) == InlineItems(env, host, items, open)
    decreases bound, 1 + |items|
  {
    hide InlinePath;
    if items != [] {
      assert ItemBelow(env, items[0], rank, bound);
      if items[0].Visit? {
        NaivePathCutsNothing(env, host, rank, items[0].path, bound, open);
      }
      NaiveItemsCutNothing(env, host, rank, items[1..], bound, open);
    }
  }

  /** On an acyclic graph of active Includes, the visited set is invisible: same resolution and same error as naive inlining. */
  lemma AcyclicReaderIsNaive(env: Env, host: string, rank: Path -> nat, config: string, bound: nat)
    requires Ranked(env, host, rank) && ItemBelow(env, Visit(config), rank, bound)
    ensures ResolveAlias(env, host, config) == Fold(NaivePath(env, host, rank, config, bound), NOTHING)
  {
    ReaderIsInlining(env, host, config);
    NaivePathCutsNothing(env, host, rank, config, bound, {});
  }

  // ----- first value wins

  function FirstValue(events: seq<Event>, f: Field): string {
    if events == [] then ""
    else if events[0].Give? && events[0].field == f && events[0].v != "" then events[0].v
    else FirstValue(events[1..], f)
  }

  /** A successful fold gives each keyword its first nonempty value, after what was there before. */
  lemma {:induction false} FirstValueWins(events: seq<Event>, r: Resolution, f: Field)
    requires Fold(events, r).Ok?
    ensures Fold(events, r).value.Get(f) == if r.Get(f) != "" then r.Get(f) else FirstValue(events, f)
  {
    if events != [] {
      var r' := Put(r, events[0].field, events[0].v).value;
      FirstValueWins(events[1..], r', f);
    }
  }
}
