/** Completing a truncated recursive listing by walking the trees it named
    (internal/git/github.go, ReadTree). */
module TreeWalk {
  import opened Results

  type Sha = string

  /** One item of a tree response. */
  datatype Item = Item(path: string, kind: string, size: int, sha: Sha)

  /** What ReadTree returns for an item. */
  datatype TreeEntry = TreeEntry(path: string, kind: string, size: int)

  datatype Root = Root(truncated: bool, items: seq<Item>)

  /** The trees the provider can serve; fetching any other sha is an error. */
  type Objects = map<Sha, seq<Item>>

  function EntryOf(item: Item): TreeEntry { TreeEntry(item.path, item.kind, item.size) }

  function Entries(items: seq<Item>): multiset<TreeEntry> {
    if items == [] then multiset{} else Entries(items[..|items| - 1]) + multiset{EntryOf(items[|items| - 1])}
  }

  /** The trees a listing names, in order and with repetitions. */
  function Trees(items: seq<Item>): seq<Sha> {
    if items == [] then []
    else
      var last := items[|items| - 1];
      Trees(items[..|items| - 1]) + if last.kind == "tree" then [last.sha] else []
  }

  /** No tree contains itself: rank drops from a tree to the trees it lists. */
  ghost predicate Acyclic(objects: Objects, rank: Sha -> nat) {
    forall s, t :: s in objects && t in Trees(objects[s]) ==> rank(t) < rank(s)
  }

  ghost predicate Below(rank: Sha -> nat, shas: seq<Sha>, bound: nat) {
    forall s :: s in shas ==> rank(s) < bound
  }

  /** Everything a recursive reading of one tree lists. */
  ghost function Expand(objects: Objects, rank: Sha -> nat, sha: Sha): multiset<TreeEntry>
    requires Acyclic(objects, rank)
    decreases rank(sha) + 1, 0
  {
    if sha !in objects then multiset{}
    else Entries(objects[sha]) + ExpandAll(objects, rank, Trees(objects[sha]), rank(sha))
  }

  ghost function ExpandAll(objects: Objects, rank: Sha -> nat, shas: seq<Sha>, bound: nat): multiset<TreeEntry>
    requires Acyclic(objects, rank) && Below(rank, shas, bound)
    decreases bound, |shas|
  {
    if shas == [] then multiset{}
    else Expand(objects, rank, shas[0]) + ExpandAll(objects, rank, shas[1..], bound)
  }

  /** No tree reachable from sha is missing. */
  ghost predicate Complete(objects: Objects, rank: Sha -> nat, sha: Sha)
    requires Acyclic(objects, rank)
    decreases rank(sha)
  {
    sha in objects && forall t :: t in Trees(objects[sha]) ==> Complete(objects, rank, t)
  }

  lemma {:induction false} ExpandAllBound(objects: Objects, rank: Sha -> nat, shas: seq<Sha>, b: nat, c: nat)
    requires Acyclic(objects, rank) && Below(rank, shas, b) && Below(rank, shas, c)
    ensures ExpandAll(objects, rank, shas, b) == ExpandAll(objects, rank, shas, c)
  {
    if shas != [] { ExpandAllBound(objects, rank, shas[1..], b, c); }
  }

  lemma {:induction false} ExpandAllConcat(objects: Objects, rank: Sha -> nat, a: seq<Sha>, b: seq<Sha>, bound: nat)
    requires Acyclic(objects, rank) && Below(rank, a, bound) && Below(rank, b, bound)
    ensures Below(rank, a + b, bound)
    ensures ExpandAll(objects, rank, a + b, bound)
         == ExpandAll(objects, rank, a, bound) + ExpandAll(objects, rank, b, bound)
  {
    if a == [] {
      assert a + b == b;
    } else {
      assert (a + b)[1..] == a[1..] + b;
      ExpandAllConcat(objects, rank, a[1..], b, bound);
    }
  }

  /** Taking one tree off the queue and queueing its subtrees keeps what is still to come
      and makes it strictly smaller. */
  lemma WalkStep(objects: Objects, rank: Sha -> nat, sha: Sha, rest: seq<Sha>, bound: nat)
    requires Acyclic(objects, rank) && Below(rank, [sha] + rest, bound) && sha in objects
    ensures var items := objects[sha];
      && Below(rank, rest + Trees(items), bound)
      && ExpandAll(objects, rank, [sha] + rest, bound)
           == Entries(items) + ExpandAll(objects, rank, rest + Trees(items), bound)
  {
    var trees := Trees(objects[sha]);
    assert ([sha] + rest)[1..] == rest;
    assert forall s :: s in rest ==> s in [sha] + rest;
    assert sha in [sha] + rest;
    assert Below(rank, trees, rank(sha)) && Below(rank, trees, bound);
    ExpandAllBound(objects, rank, trees, rank(sha), bound);
    ExpandAllConcat(objects, rank, rest, trees, bound);
  }

  lemma {:induction false} EntriesSize(items: seq<Item>)
    ensures |Entries(items)| == |items|
  {
    if items != [] { EntriesSize(items[..|items| - 1]); }
  }

  /** A queued tree is missing an object exactly when the queue as a whole is. */
  ghost predicate AllComplete(objects: Objects, rank: Sha -> nat, shas: seq<Sha>)
    requires Acyclic(objects, rank)
  {
    forall s :: s in shas ==> Complete(objects, rank, s)
  }

  /** The trees a listing names are the items of kind "tree". */
  lemma {:induction false} TreesAre(items: seq<Item>)
    ensures forall sha ::
      sha in Trees(items) <==> exists item :: item in items && item.kind == "tree" && item.sha == sha
  {
    if items != [] {
      var front, last := items[..|items| - 1], items[|items| - 1];
      TreesAre(front);
      assert items == front + [last];
    }
  }

  lemma Nothing(items: seq<Item>)
    ensures Entries(items[..0]) == multiset{} && Trees(items[..0]) == []
  {
  }

  lemma OneMore(items: seq<Item>, i: nat)
    requires i < |items|
    ensures Entries(items[..i + 1])
         == Entries(items[..i]) + multiset{TreeEntry(items[i].path, items[i].kind, items[i].size)}
    ensures Trees(items[..i + 1]) == Trees(items[..i]) + if items[i].kind == "tree" then [items[i].sha] else []
  {
    assert items[..i + 1][..i] == items[..i];
  }

  // ---- the order of the walk ----

  function Listed(items: seq<Item>): seq<TreeEntry> {
    seq(|items|, i requires 0 <= i < |items| => TreeEntry(items[i].path, items[i].kind, items[i].size))
  }

  function ItemsOf(objects: Objects, sha: Sha): seq<Item> { if sha in objects then objects[sha] else [] }

  /** What the trees list themselves, one after the other. */
  function Direct(objects: Objects, shas: seq<Sha>): seq<TreeEntry> {
    if shas == [] then [] else Listed(ItemsOf(objects, shas[0])) + Direct(objects, shas[1..])
  }

  /** The trees one level down. */
  function NextLevel(objects: Objects, shas: seq<Sha>): seq<Sha> {
    if shas == [] then [] else Trees(ItemsOf(objects, shas[0])) + NextLevel(objects, shas[1..])
  }

  lemma {:induction false} NextLevelBelow(objects: Objects, rank: Sha -> nat, shas: seq<Sha>, bound: nat)
    requires Acyclic(objects, rank) && Below(rank, shas, bound + 1)
    ensures Below(rank, NextLevel(objects, shas), bound)
  {
    if shas != [] {
      assert shas[0] in shas;
      NextLevelBelow(objects, rank, shas[1..], bound);
    }
  }

  /** Level by level: all trees of a level before any of the next. */
  ghost function Levels(objects: Objects, rank: Sha -> nat, shas: seq<Sha>, bound: nat): seq<TreeEntry>
    requires Acyclic(objects, rank) && Below(rank, shas, bound)
    decreases bound
  {
    if bound == 0 || shas == [] then []
    else
      NextLevelBelow(objects, rank, shas, bound - 1);
      Direct(objects, shas) + Levels(objects, rank, NextLevel(objects, shas), bound - 1)
  }

  /** What is still to be listed when the rest of a level and a part of the next are queued. */
  ghost function ToList(objects: Objects, rank: Sha -> nat, level: seq<Sha>, next: seq<Sha>, bound: nat): seq<TreeEntry>
    requires Acyclic(objects, rank) && Below(rank, level, bound + 1) && Below(rank, next, bound)
  {
    NextLevelBelow(objects, rank, level, bound);
    Direct(objects, level) + Levels(objects, rank, next + NextLevel(objects, level), bound)
  }

  /** A level is exhausted: the next one begins. */
  lemma LevelEnds(objects: Objects, rank: Sha -> nat, next: seq<Sha>, bound: nat)
    requires Acyclic(objects, rank) && Below(rank, next, bound) && next != []
    ensures bound > 0 && Below(rank, next, bound - 1 + 1)
    ensures ToList(objects, rank, [], next, bound) == ToList(objects, rank, next, [], bound - 1)
  {
    assert next[0] in next;
    assert next + [] == next;
    NextLevelBelow(objects, rank, next, bound - 1);
    assert [] + NextLevel(objects, next) == NextLevel(objects, next);
  }

  /** The oldest queued tree is listed and its trees queued behind. */
  lemma LevelStep(objects: Objects, rank: Sha -> nat, level: seq<Sha>, next: seq<Sha>, bound: nat)
    requires Acyclic(objects, rank) && Below(rank, level, bound + 1) && Below(rank, next, bound)
    requires level != [] && level[0] in objects
    ensures var items := objects[level[0]];
      && Below(rank, level[1..], bound + 1) && Below(rank, next + Trees(items), bound)
      && ToList(objects, rank, level, next, bound)
         == Listed(items) + ToList(objects, rank, level[1..], next + Trees(items), bound)
  {
    var items, rest := objects[level[0]], level[1..];
    assert level[0] in level;
    NextLevelBelow(objects, rank, rest, bound);
    assert next + NextLevel(objects, level) == (next + Trees(items)) + NextLevel(objects, rest);
  }

  /** The loop over one response: append its entries, queue the trees it names. */
  method AppendListing(items: seq<Item>, queueTrees: bool, entries: seq<TreeEntry>, pending: seq<Sha>)
    returns (entries': seq<TreeEntry>, pending': seq<Sha>)
    ensures multiset(entries') == multiset(entries) + Entries(items)
    ensures pending' == pending + if queueTrees then Trees(items) else []
    ensures |entries'| == |entries| + |items| && entries <= entries'
    ensures forall i :: 0 <= i < |items| ==>
      entries'[|entries| + i] == TreeEntry(items[i].path, items[i].kind, items[i].size)
  {
    hide Entries, Trees, EntryOf;
    Nothing(items);
    entries', pending' := entries, pending;
    for i := 0 to |items|
      invariant multiset(entries') == multiset(entries) + Entries(items[..i])
      invariant pending' == pending + if queueTrees then Trees(items[..i]) else []
      invariant |entries'| == |entries| + i && entries <= entries'
      invariant forall j :: 0 <= j < i ==>
        entries'[|entries| + j] == TreeEntry(items[j].path, items[j].kind, items[j].size)
    {
      OneMore(items, i);
      entries' := entries' + [TreeEntry(items[i].path, items[i].kind, items[i].size)];
      if queueTrees && items[i].kind == "tree" {
        pending' := pending' + [items[i].sha];
      }
    }
    assert items[..|items|] == items;
  }

  lemma MissingObject(objects: Objects, rank: Sha -> nat, sha: Sha, rest: seq<Sha>)
    requires Acyclic(objects, rank) && sha !in objects
    ensures !AllComplete(objects, rank, [sha] + rest)
  {
    assert sha in [sha] + rest;
  }

  lemma NothingPending(objects: Objects, rank: Sha -> nat, bound: nat)
    requires Acyclic(objects, rank)
    ensures Below(rank, [], bound) && AllComplete(objects, rank, [])
    ensures ExpandAll(objects, rank, [], bound) == multiset{} && Levels(objects, rank, [], bound) == []
  {
  }

  /** A listing either has entries or names no trees. */
  lemma WalkShrinks(items: seq<Item>)
    ensures |Entries(items)| == |items| && (items == [] ==> Trees(items) == [])
  {
    EntriesSize(items);
  }

  lemma ToListAtFirst(objects: Objects, rank: Sha -> nat, queue: seq<Sha>, bound: nat)
    requires Acyclic(objects, rank) && Below(rank, queue, bound)
    ensures Below(rank, [], bound + 1)
    ensures ToList(objects, rank, [], queue, bound) == Levels(objects, rank, queue, bound)
  {
    assert queue + NextLevel(objects, []) == queue;
  }

  lemma ToListAtLast(objects: Objects, rank: Sha -> nat, bound: nat)
    requires Acyclic(objects, rank)
    ensures ToList(objects, rank, [], [], bound) == []
  {
  }

  lemma ListedIs(items: seq<Item>, before: seq<TreeEntry>, after: seq<TreeEntry>)
    requires before <= after && |after| == |before| + |items|
    requires forall i :: 0 <= i < |items| ==>
      after[|before| + i] == TreeEntry(items[i].path, items[i].kind, items[i].size)
    ensures after == before + Listed(items)
  {
  }

  /** The worklist loop: take the oldest queued tree, list it, queue the trees it names. */
  method DrainQueue(objects: Objects, queue: seq<Sha>, listed: seq<TreeEntry>, ghost rank: Sha -> nat, ghost bound: nat)
    returns (result: Result<seq<TreeEntry>, Sha>)
    requires Acyclic(objects, rank) && Below(rank, queue, bound)
    ensures result.Ok? <==> AllComplete(objects, rank, queue)
    ensures result.Ok? ==>
      multiset(result.value) == multiset(listed) + ExpandAll(objects, rank, queue, bound)
    ensures result.Ok? ==> result.value == listed + Levels(objects, rank, queue, bound)
  {
    hide Levels, ToList, Direct, NextLevel, Listed, Expand, ExpandAll, Complete, AllComplete, Entries, Trees, Acyclic;
    hide Below;
    var entries, pending := listed, queue;
    ghost var level: seq<Sha>, next: seq<Sha>, depth: nat := [], queue, bound;
    ToListAtFirst(objects, rank, queue, bound);
    while |pending| > 0
      invariant pending == level + next && Below(rank, level, depth + 1) && Below(rank, next, depth)
      invariant entries + ToList(objects, rank, level, next, depth) == listed + Levels(objects, rank, queue, bound)
      invariant Below(rank, pending, bound)
      invariant multiset(entries) + ExpandAll(objects, rank, pending, bound)
             == multiset(listed) + ExpandAll(objects, rank, queue, bound)
      invariant AllComplete(objects, rank, pending) <==> AllComplete(objects, rank, queue)
      decreases |ExpandAll(objects, rank, pending, bound)|, |pending|
    {
      var sha := pending[0];
      var rest := pending[1..];
      assert pending == [sha] + rest;
      if sha !in objects {
        MissingObject(objects, rank, sha, rest);
        return Err(sha);
      }
      WalkStep(objects, rank, sha, rest, bound);
      WalkShrinks(objects[sha]);
      CompleteStep(objects, rank, sha, rest);
      if level == [] {
        LevelEnds(objects, rank, next, depth);
        level, next, depth := next, [], depth - 1;
      }
      LevelStep(objects, rank, level, next, depth);
      ghost var before := entries;
      entries, pending := AppendListing(objects[sha], true, entries, rest);
      level, next := level[1..], next + Trees(objects[sha]);
      ListedIs(objects[sha], before, entries);
    }
    assert pending == [];
    NothingPending(objects, rank, bound);
    ToListAtLast(objects, rank, depth);
    return Ok(entries);
  }

  lemma CompleteStep(objects: Objects, rank: Sha -> nat, sha: Sha, rest: seq<Sha>)
    requires Acyclic(objects, rank) && sha in objects
    ensures AllComplete(objects, rank, [sha] + rest)
       <==> AllComplete(objects, rank, rest + Trees(objects[sha]))
  {
    var trees := Trees(objects[sha]);
    AllCompleteConcat(objects, rank, [sha], rest);
    AllCompleteConcat(objects, rank, rest, trees);
    assert AllComplete(objects, rank, [sha]) <==> Complete(objects, rank, [sha][0]);
    assert Complete(objects, rank, sha) <==> AllComplete(objects, rank, trees);
  }

  lemma AllCompleteConcat(objects: Objects, rank: Sha -> nat, a: seq<Sha>, b: seq<Sha>)
    requires Acyclic(objects, rank)
    ensures AllComplete(objects, rank, a + b) <==> AllComplete(objects, rank, a) && AllComplete(objects, rank, b)
  {
    assert forall s :: s in a + b <==> s in a || s in b;
  }

  /** chain leads from a tree down to one that lists item. */
  ghost predicate Leads(objects: Objects, chain: seq<Sha>, item: Item) {
    && chain != []
    && (forall i :: 0 <= i < |chain| ==> chain[i] in objects)
    && (forall i :: 0 <= i < |chain| - 1 ==> chain[i + 1] in Trees(objects[chain[i]]))
    && item in objects[chain[|chain| - 1]]
  }

  lemma {:induction false} EntriesHas(items: seq<Item>, item: Item)
    requires item in items
    ensures EntryOf(item) in Entries(items)
  {
    if item in items[..|items| - 1] { EntriesHas(items[..|items| - 1], item); }
  }

  lemma {:induction false} ExpandAllHas(objects: Objects, rank: Sha -> nat, shas: seq<Sha>, bound: nat, sha: Sha)
    requires Acyclic(objects, rank) && Below(rank, shas, bound) && sha in shas
    ensures Expand(objects, rank, sha) <= ExpandAll(objects, rank, shas, bound)
  {
    if sha != shas[0] { ExpandAllHas(objects, rank, shas[1..], bound, sha); }
  }

  /** Every blob reachable through any chain of trees, however deep, is in the expansion. */
  lemma {:induction false} ReachableIsListed(objects: Objects, rank: Sha -> nat, chain: seq<Sha>, item: Item)
    requires Acyclic(objects, rank) && Leads(objects, chain, item)
    ensures EntryOf(item) in Expand(objects, rank, chain[0])
    decreases |chain|
  {
    var items := objects[chain[0]];
    if |chain| == 1 {
      EntriesHas(items, item);
    } else {
      var tail := chain[1..];
      assert chain[0 + 1] in Trees(items);
      forall i | 0 <= i < |tail| - 1 ensures tail[i + 1] in Trees(objects[tail[i]]) {
        assert tail[i] == chain[i + 1] && tail[i + 1] == chain[i + 1 + 1];
      }
      ReachableIsListed(objects, rank, tail, item);
      ExpandAllHas(objects, rank, Trees(items), rank(chain[0]), chain[1]);
    }
  }

  // ---- the paths of listed entries ----

  /** A tree and its path in the repository. */
  datatype Located = Located(sha: Sha, path: string)

  /** A listed entry and the path its item has in the repository. */
  datatype Placed = Placed(entry: TreeEntry, full: string)

  /** The root's own response names full paths, that of a tree names them from the tree on. */
  function Under(dir: Option<string>, path: string): string {
    if dir.None? then path else dir.value + "/" + path
  }

  function Place(items: seq<Item>, dir: Option<string>): (placed: seq<Placed>)
    ensures |placed| == |items|
    ensures forall i :: 0 <= i < |items| ==>
      placed[i] == Placed(EntryOf(items[i]), Under(dir, items[i].path))
  {
    seq(|items|, i requires 0 <= i < |items| => Placed(EntryOf(items[i]), Under(dir, items[i].path)))
  }

  /** The trees a listing names, where they are. */
  function Locate(items: seq<Item>, dir: Option<string>): (located: seq<Located>)
    ensures |located| == |Trees(items)|
    ensures forall i :: 0 <= i < |located| ==> located[i].sha == Trees(items)[i]
  {
    if items == [] then []
    else
      var last := items[|items| - 1];
      Locate(items[..|items| - 1], dir) + if last.kind == "tree" then [Located(last.sha, Under(dir, last.path))] else []
  }

  ghost predicate LocatedBelow(rank: Sha -> nat, located: seq<Located>, bound: nat) {
    forall i :: 0 <= i < |located| ==> rank(located[i].sha) < bound
  }

  /** The recursive reading of one tree, entry by entry, with the entries' places. */
  ghost function PlaceTree(objects: Objects, rank: Sha -> nat, at: Located): seq<Placed>
    requires Acyclic(objects, rank)
    decreases rank(at.sha) + 1, 0
  {
    if at.sha !in objects then []
    else
      Place(objects[at.sha], Some(at.path))
      + PlaceTrees(objects, rank, Locate(objects[at.sha], Some(at.path)), rank(at.sha))
  }

  ghost function PlaceTrees(objects: Objects, rank: Sha -> nat, located: seq<Located>, bound: nat): seq<Placed>
    requires Acyclic(objects, rank) && LocatedBelow(rank, located, bound)
    decreases bound, |located|
  {
    if located == [] then []
    else PlaceTree(objects, rank, located[0]) + PlaceTrees(objects, rank, located[1..], bound)
  }

  /** What ReadTree lists, with the places of the entries. */
  ghost function Listing(objects: Objects, rank: Sha -> nat, root: Root, bound: nat): seq<Placed>
    requires Acyclic(objects, rank) && Below(rank, Trees(root.items), bound)
  {
    Place(root.items, None)
    + if root.truncated then PlaceTrees(objects, rank, Locate(root.items, None), bound) else []
  }

  /** The entries without their places. */
  function Bare(placed: seq<Placed>): multiset<TreeEntry> {
    if placed == [] then multiset{} else Bare(placed[..|placed| - 1]) + multiset{placed[|placed| - 1].entry}
  }

  ghost predicate AtFullPaths(placed: seq<Placed>) {
    forall i :: 0 <= i < |placed| ==> placed[i].entry.path == placed[i].full
  }

  lemma {:induction false} BareConcat(a: seq<Placed>, b: seq<Placed>)
    ensures Bare(a + b) == Bare(a) + Bare(b)
  {
    if b == [] {
      assert a + b == a;
    } else {
      assert (a + b)[..|a + b| - 1] == a + b[..|b| - 1];
      BareConcat(a, b[..|b| - 1]);
    }
  }

  lemma {:induction false} BarePlace(items: seq<Item>, dir: Option<string>)
    ensures Bare(Place(items, dir)) == Entries(items)
  {
    if items != [] {
      assert Place(items, dir)[..|items| - 1] == Place(items[..|items| - 1], dir);
      BarePlace(items[..|items| - 1], dir);
    }
  }

  /** The placed reading lists what the recursive reading lists. */
  lemma {:induction false} BareTree(objects: Objects, rank: Sha -> nat, at: Located)
    requires Acyclic(objects, rank)
    ensures Bare(PlaceTree(objects, rank, at)) == Expand(objects, rank, at.sha)
    decreases rank(at.sha) + 1, 0
  {
    if at.sha in objects {
      var items, dir := objects[at.sha], Some(at.path);
      var located := Locate(items, dir);
      BarePlace(items, dir);
      BareTrees(objects, rank, located, Trees(items), rank(at.sha));
      BareConcat(Place(items, dir), PlaceTrees(objects, rank, located, rank(at.sha)));
    }
  }

  lemma {:induction false} BareTrees(
      objects: Objects, rank: Sha -> nat, located: seq<Located>, shas: seq<Sha>, bound: nat)
    requires Acyclic(objects, rank) && LocatedBelow(rank, located, bound) && Below(rank, shas, bound)
    requires |located| == |shas| && forall i :: 0 <= i < |shas| ==> located[i].sha == shas[i]
    ensures Bare(PlaceTrees(objects, rank, located, bound)) == ExpandAll(objects, rank, shas, bound)
    decreases bound, |located|
  {
    if located != [] {
      assert rank(located[0].sha) < bound;
      BareTree(objects, rank, located[0]);
      BareTrees(objects, rank, located[1..], shas[1..], bound);
      BareConcat(PlaceTree(objects, rank, located[0]), PlaceTrees(objects, rank, located[1..], bound));
    }
  }

  /** No entry of a walked tree carries its full path: that is longer by the tree's own. */
  lemma {:induction false} WalkedPathsShort(objects: Objects, rank: Sha -> nat, at: Located, i: nat)
    requires Acyclic(objects, rank) && i < |PlaceTree(objects, rank, at)|
    ensures var p := PlaceTree(objects, rank, at)[i]; |p.entry.path| < |p.full|
    decreases rank(at.sha) + 1, 0
  {
    var items := objects[at.sha];
    if i >= |items| {
      WalkedPathsAllShort(objects, rank, Locate(items, Some(at.path)), rank(at.sha), i - |items|);
    }
  }

  lemma {:induction false} WalkedPathsAllShort(
      objects: Objects, rank: Sha -> nat, located: seq<Located>, bound: nat, i: nat)
    requires Acyclic(objects, rank) && LocatedBelow(rank, located, bound)
    requires i < |PlaceTrees(objects, rank, located, bound)|
    ensures var p := PlaceTrees(objects, rank, located, bound)[i]; |p.entry.path| < |p.full|
    decreases bound, |located|
  {
    assert rank(located[0].sha) < bound;
    var first := PlaceTree(objects, rank, located[0]);
    if i < |first| {
      WalkedPathsShort(objects, rank, located[0], i);
    } else {
      WalkedPathsAllShort(objects, rank, located[1..], bound, i - |first|);
    }
  }

  /** The trees named are empty, or missing. */
  ghost predicate NothingBelow(objects: Objects, shas: seq<Sha>) {
    forall s :: s in shas && s in objects ==> objects[s] == []
  }

  lemma {:induction false} NothingPlaced(
      objects: Objects, rank: Sha -> nat, located: seq<Located>, shas: seq<Sha>, bound: nat)
    requires Acyclic(objects, rank) && LocatedBelow(rank, located, bound)
    requires |located| == |shas| && forall i :: 0 <= i < |shas| ==> located[i].sha == shas[i]
    ensures PlaceTrees(objects, rank, located, bound) == [] <==> NothingBelow(objects, shas)
  {
    if located != [] {
      NothingPlaced(objects, rank, located[1..], shas[1..], bound);
      NothingInTree(objects, rank, located[0]);
      assert NothingBelow(objects, shas) <==> NothingBelow(objects, shas[1..]) && NothingBelow(objects, [shas[0]]);
    }
  }

  lemma NothingInTree(objects: Objects, rank: Sha -> nat, at: Located)
    requires Acyclic(objects, rank)
    ensures PlaceTree(objects, rank, at) == [] <==> NothingBelow(objects, [at.sha])
  {
  }

  lemma ListingIsBare(objects: Objects, rank: Sha -> nat, root: Root, bound: nat)
    requires Acyclic(objects, rank) && Below(rank, Trees(root.items), bound)
    ensures Bare(Listing(objects, rank, root, bound)) == Entries(root.items)
        + if root.truncated then ExpandAll(objects, rank, Trees(root.items), bound) else multiset{}
  {
    hide Bare, Expand, ExpandAll, PlaceTree, PlaceTrees, Entries, Trees;
    var own, located := Place(root.items, None), Locate(root.items, None);
    BarePlace(root.items, None);
    if root.truncated {
      BareTrees(objects, rank, located, Trees(root.items), bound);
      BareConcat(own, PlaceTrees(objects, rank, located, bound));
    } else {
      assert own + [] == own;
    }
  }

  lemma OwnPathsFull(items: seq<Item>)
    ensures AtFullPaths(Place(items, None))
  {
  }

  lemma FullConcat(a: seq<Placed>, b: seq<Placed>)
    ensures AtFullPaths(a + b) <==> AtFullPaths(a) && AtFullPaths(b)
  {
    if AtFullPaths(a + b) {
      forall i | 0 <= i < |a| ensures a[i].entry.path == a[i].full { assert (a + b)[i] == a[i]; }
      forall i | 0 <= i < |b| ensures b[i].entry.path == b[i].full { assert (a + b)[|a| + i] == b[i]; }
    }
  }

  /** What ReadTree lists are the entries of Listing, and each of them carries its full path
      exactly when the first response was not truncated or the trees it named hold nothing. */
  lemma FullPathsExactly(objects: Objects, rank: Sha -> nat, root: Root, bound: nat)
    requires Acyclic(objects, rank) && Below(rank, Trees(root.items), bound)
    ensures Bare(Listing(objects, rank, root, bound)) == Entries(root.items)
        + if root.truncated then ExpandAll(objects, rank, Trees(root.items), bound) else multiset{}
    ensures AtFullPaths(Listing(objects, rank, root, bound)) <==>
      !root.truncated || NothingBelow(objects, Trees(root.items))
  {
    hide Bare, Expand, ExpandAll, PlaceTree, PlaceTrees, Entries, Trees, AtFullPaths, NothingBelow;
    var own, located := Place(root.items, None), Locate(root.items, None);
    ListingIsBare(objects, rank, root, bound);
    OwnPathsFull(root.items);
    if root.truncated {
      FullConcat(own, PlaceTrees(objects, rank, located, bound));
      NothingPlaced(objects, rank, located, Trees(root.items), bound);
      WalkedPathsNotFull(objects, rank, located, bound);
    } else {
      assert own + [] == own;
    }
  }

  lemma WalkedPathsNotFull(objects: Objects, rank: Sha -> nat, located: seq<Located>, bound: nat)
    requires Acyclic(objects, rank) && LocatedBelow(rank, located, bound)
    ensures AtFullPaths(PlaceTrees(objects, rank, located, bound)) <==> PlaceTrees(objects, rank, located, bound) == []
  {
    hide PlaceTree, PlaceTrees;
    if PlaceTrees(objects, rank, located, bound) != [] { WalkedPathsAllShort(objects, rank, located, bound, 0); }
  }

  /** The response is the host's for a repository whose full recursive tree is `full`: it
      names full paths, and is truncated when it leaves something out. */
  ghost predicate Describes(root: Root, full: seq<Placed>) {
    && AtFullPaths(full) && Place(root.items, None) <= full
    && (root.truncated <==> |root.items| < |full|)
  }

  /** "The full recursive tree for a ref": what ReadTree lists is that tree exactly when the
      response was not truncated. Walking a truncated one adds its trees' entries under
      shorter paths and never what was cut off. */
  lemma FullTreeExactly(objects: Objects, rank: Sha -> nat, root: Root, bound: nat, full: seq<Placed>)
    requires Acyclic(objects, rank) && Below(rank, Trees(root.items), bound) && Describes(root, full)
    ensures Listing(objects, rank, root, bound) == full <==> !root.truncated
  {
    hide Place, Trees, PlaceTrees, Acyclic;
    var own := Place(root.items, None);
    if root.truncated {
      var walked := PlaceTrees(objects, rank, Locate(root.items, None), bound);
      WalkedPathsNotFull(objects, rank, Locate(root.items, None), bound);
      FullConcat(own, walked);
      if walked == [] { assert own + walked == own; }
    } else {
      assert own + [] == own && own == full[..|own|] == full;
    }
  }

  /** ReadTree, given the response for the root. It fails exactly when a tree it has to
      walk is missing an object; otherwise the worklist lists what the recursion lists, which
      is the promised tree exactly when the response was not truncated. */
  method ReadTree(objects: Objects, root: Root, ghost rank: Sha -> nat, ghost bound: nat, ghost full: seq<Placed>)
    returns (result: Result<seq<TreeEntry>, Sha>)
    requires Acyclic(objects, rank) && Below(rank, Trees(root.items), bound)
    ensures result.Ok? <==> (root.truncated ==> AllComplete(objects, rank, Trees(root.items)))
    ensures result.Ok? ==>
      && multiset(result.value) == Entries(root.items)
           + (if root.truncated then ExpandAll(objects, rank, Trees(root.items), bound) else multiset{})
      && multiset(result.value) == Bare(Listing(objects, rank, root, bound))
      && result.value == Listed(root.items)
           + if root.truncated then Levels(objects, rank, Trees(root.items), bound) else []
    ensures Describes(root, full) ==> (Listing(objects, rank, root, bound) == full <==> !root.truncated)
  {
    hide AtFullPaths, NothingBelow, Bare, Listing, Describes, Expand, ExpandAll, Complete, AllComplete;
    hide Entries, Trees, Acyclic, Levels, Listed, Below;
    NothingPending(objects, rank, bound);
    FullPathsExactly(objects, rank, root, bound);
    if Describes(root, full) { FullTreeExactly(objects, rank, root, bound, full); }
    var entries, pending := AppendListing(root.items, root.truncated, [], []);
    ListedIs(root.items, [], entries);
    assert multiset(entries) == Entries(root.items);
    assert pending == if root.truncated then Trees(root.items) else [];
    result := DrainQueue(objects, pending, entries, rank, bound);
    if !root.truncated {
      assert pending == [];
    }
  }

  // ---- instances ----

  /** A truncated response that names two trees, each of which lists a README.md. */
  const TWO_TREES: Root := Root(true, [Item("a", "tree", 0, "1"), Item("b", "tree", 0, "2")])

  const TWO_READMES: Objects := map["1" := [README], "2" := [README]]

  const README: Item := Item("README.md", "blob", 1, "3")

  const LICENSE: Item := Item("LICENSE", "blob", 1, "4")

  /** A truncated response that names no tree is listed as it is: LICENSE, which was cut off,
      stays lost, although every listed entry carries its full path. */
  lemma CutOffStaysLost(rank: Sha -> nat, bound: nat)
    ensures var root, full := Root(true, [README]), Place([README, LICENSE], None);
      && Describes(root, full)
      && Trees(root.items) == [] && Acyclic(map[], rank)
      && Listing(map[], rank, root, bound) == Place([README], None) && |full| == 2
  {
    ReadmeAlone();
    hide Trees;
    assert Locate([README], None) == [];
  }

  /** What ReadTree returns for it. */
  const REPEATED: seq<TreeEntry> :=
    [TreeEntry("a", "tree", 0), TreeEntry("b", "tree", 0), EntryOf(README), EntryOf(README)]

  lemma SubtreesRepeatPaths(rank: Sha -> nat, bound: nat)
    requires Below(rank, Trees(TWO_TREES.items), bound)
    ensures Acyclic(TWO_READMES, rank)
    ensures multiset(REPEATED) ==
      Entries(TWO_TREES.items) + ExpandAll(TWO_READMES, rank, Trees(TWO_TREES.items), bound)
  {
    ReadmeAlone();
    TreesOfTwo();
    hide Trees, Entries;
    OneReadme(rank, "1");
    OneReadme(rank, "2");
    assert ["1", "2"][1..] == ["2"] && ["2"][1..] == [];
    hide Expand;
    assert ExpandAll(TWO_READMES, rank, ["2"], bound) == multiset{EntryOf(README)};
  }

  lemma TreesOfTwo()
    ensures Trees(TWO_TREES.items) == ["1", "2"]
    ensures Entries(TWO_TREES.items) == multiset{TreeEntry("a", "tree", 0), TreeEntry("b", "tree", 0)}
  {
    var items := TWO_TREES.items;
    assert items[..1] == [items[0]] && items[..1][..0] == [];
  }

  lemma ReadmeAlone()
    ensures Trees([README]) == [] && Entries([README]) == multiset{EntryOf(README)}
  {
    assert [README][..0] == [];
    assert "blob" != "tree" by { assert "blob"[0] != "tree"[0]; }
  }

  lemma OneReadme(rank: Sha -> nat, sha: Sha)
    requires Acyclic(TWO_READMES, rank) && sha in TWO_READMES
    ensures Expand(TWO_READMES, rank, sha) == multiset{EntryOf(README)}
  {
    ReadmeAlone();
    hide Trees, Entries;
    assert TWO_READMES[sha] == [README];
  }
}
