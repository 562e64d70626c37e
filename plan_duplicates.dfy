/** Marking duplicate inputs on an already built plan (`mark_input_duplicates` in
    src/plan.rs). */
module PlanDuplicates {
  import opened Wrappers
  import opened Paths
  import opened Plan

  /** What the duplicate finder returns: content hash to the paths with that content. */
  type Groups = map<string, seq<string>>

  /** `deduplicate::find_exact_duplicates`, which is not part of this model. */
  type Finder = seq<string> -> Result<Groups>

  predicate NoRepeats(g: seq<string>)
  {
    forall i, j :: 0 <= i < j < |g| ==> g[i] != g[j]
  }

  /** Every group is non-empty and lists distinct paths, and no path is in two groups. */
  predicate WellFormedGroups(groups: Groups)
  {
    && (forall h :: h in groups ==> |groups[h]| > 0 && NoRepeats(groups[h]))
    && (forall h1, h2, p :: h1 in groups && h2 in groups && p in groups[h1] && p in groups[h2] ==> h1 == h2)
  }

  /** Every grouped path is one of the paths asked about. */
  predicate DrawnFrom(groups: Groups, ps: seq<string>)
  {
    forall h, p :: h in groups && p in groups[h] ==> p in ps
  }

  /** What the planner relies on the duplicate finder for. */
  ghost predicate ValidFinder(find: Finder)
  {
    forall ps :: find(ps).Success? ==> WellFormedGroups(find(ps).value) && DrawnFrom(find(ps).value, ps)
  }

  // ---------------------------------------------------------------------------
  // The canonical copy of a group

  /** A comparison of paths; `group.sort()` uses Rust's path order, `Paths.PathLe`. The
      proofs below need no more of it than `TotalPreorder`. */
  type Order = (string, string) -> bool

  ghost predicate TotalPreorder(le: Order)
  {
    && (forall a, b :: le(a, b) || le(b, a))
    && (forall a, b, c :: le(a, b) && le(b, c) ==> le(a, c))
  }

  lemma PathOrderIsTotalPreorder()
    ensures TotalPreorder(PathLe)
  {
    forall a, b, c ensures (PathLe(a, b) || PathLe(b, a)) && (PathLe(a, b) && PathLe(b, c) ==> PathLe(a, c)) {
      PathLeTotalPreorder(a, b, c);
    }
  }

  /** The position of the group's first element after a stable sort by `le`: the first
      path that no other path sorts before (`MinIndexIsFirstMinimal`). */
  function MinIndex(g: seq<string>, le: Order): (m: nat)
    requires |g| > 0
    ensures m < |g|
  {
    if |g| == 1 then 0
    else
      var k := MinIndex(g[..|g| - 1], le);
      if le(g[k], g[|g| - 1]) then k else |g| - 1
  }

  /** Position `m` holds a path no path of the group sorts before, and every path before
      it sorts strictly after it: what a stable sort puts first. */
  ghost predicate FirstMinimal(g: seq<string>, m: nat, le: Order)
  {
    && m < |g|
    && (forall j :: 0 <= j < |g| ==> le(g[m], g[j]))
    && (forall j :: 0 <= j < m ==> !le(g[j], g[m]))
  }

  lemma {:induction false} MinIndexIsFirstMinimal(g: seq<string>, le: Order)
    requires |g| > 0 && TotalPreorder(le)
    ensures FirstMinimal(g, MinIndex(g, le), le)
  {
    if |g| > 1 {
      var init := g[..|g| - 1];
      MinIndexIsFirstMinimal(init, le);
      assert forall j :: 0 <= j < |g| - 1 ==> init[j] == g[j];
    }
  }

  /** `group[0]` after the sort: the canonical copy of the group. */
  function Canonical(g: seq<string>, le: Order): string
    requires |g| > 0
  {
    g[MinIndex(g, le)]
  }

  // ---------------------------------------------------------------------------
  // The annotations each item receives

  ghost predicate IsMember(groups: Groups, p: string)
  {
    exists h :: h in groups && p in groups[h]
  }

  /** The hash of the group a path is in. */
  ghost function GroupOf(groups: Groups, p: string): (h: string)
    requires IsMember(groups, p)
    ensures h in groups && p in groups[h]
  {
    var h :| h in groups && p in groups[h];
    h
  }

  lemma GroupOfUnique(groups: Groups, h: string, p: string)
    requires WellFormedGroups(groups) && h in groups && p in groups[h]
    ensures IsMember(groups, p) && GroupOf(groups, p) == h
  {
  }

  ghost function CanonicalOf(groups: Groups, p: string, le: Order): string
    requires WellFormedGroups(groups) && IsMember(groups, p)
  {
    Canonical(groups[GroupOf(groups, p)], le)
  }

  /** A grouped path that is not its group's canonical copy. */
  ghost predicate IsDuplicate(groups: Groups, p: string, le: Order)
    requires WellFormedGroups(groups)
  {
    IsMember(groups, p) && p != CanonicalOf(groups, p, le)
  }

  /** What the final loop does to one item: photos and videos get their size, their
      group's hash if they are grouped, and their canonical copy if they are not it;
      DVD items are left alone. */
  ghost function MarkItem(it: PlannedItem, groups: Groups, size: string -> Option<nat>, le: Order): PlannedItem
    requires WellFormedGroups(groups)
  {
    if it.kind == Dvd then it
    else
      it.(sizeBytes := size(it.src),
          contentHash := if IsMember(groups, it.src) then Some(GroupOf(groups, it.src)) else it.contentHash,
          duplicateOf := if IsDuplicate(groups, it.src, le) then Some(CanonicalOf(groups, it.src, le)) else it.duplicateOf)
  }

  ghost function MarkAll(items: seq<PlannedItem>, groups: Groups, size: string -> Option<nat>, le: Order): (r: seq<PlannedItem>)
    requires WellFormedGroups(groups)
    ensures |r| == |items|
  {
    seq(|items|, i requires 0 <= i < |items| => MarkItem(items[i], groups, size, le))
  }

  /** The photo and video sources, in plan order: what the finder is asked about. */
  function Candidates(items: seq<PlannedItem>): seq<string>
  {
    if |items| == 0 then []
    else
      var last := items[|items| - 1];
      Candidates(items[..|items| - 1]) + (if last.kind == Photo || last.kind == Video then [last.src] else [])
  }

  /** How many items of a kind the final loop counts as duplicates. */
  ghost function DuplicatesOf(items: seq<PlannedItem>, groups: Groups, kind: MediaKind, le: Order): nat
    requires WellFormedGroups(groups)
  {
    if |items| == 0 then 0
    else
      var last := items[|items| - 1];
      DuplicatesOf(items[..|items| - 1], groups, kind, le) +
        (if last.kind == kind && IsDuplicate(groups, last.src, le) then 1 else 0)
  }

  /** The canonical copy of a path's group is in that group, sorts no later than any
      member, and is not itself a duplicate. */
  lemma CanonicalSortsFirst(groups: Groups, p: string, le: Order)
    requires WellFormedGroups(groups) && TotalPreorder(le) && IsMember(groups, p)
    ensures var g := groups[GroupOf(groups, p)];
      && CanonicalOf(groups, p, le) in g
      && (forall q :: q in g ==> le(CanonicalOf(groups, p, le), q))
      && IsMember(groups, CanonicalOf(groups, p, le))
      && !IsDuplicate(groups, CanonicalOf(groups, p, le), le)
  {
    var h := GroupOf(groups, p);
    var g := groups[h];
    MinIndexIsFirstMinimal(g, le);
    GroupOfUnique(groups, h, g[MinIndex(g, le)]);
  }

  /** Every candidate is the source of a photo or video item. */
  lemma {:induction false} CandidatesAreSources(items: seq<PlannedItem>, p: string)
    requires p in Candidates(items)
    ensures exists k :: 0 <= k < |items| && items[k].src == p && items[k].kind != Dvd
  {
    var n := |items| - 1;
    if p in Candidates(items[..n]) {
      CandidatesAreSources(items[..n], p);
      var k :| 0 <= k < n && items[..n][k].src == p && items[..n][k].kind != Dvd;
      assert items[k] == items[..n][k];
    } else {
      assert items[n].src == p && items[n].kind != Dvd;
    }
  }

  /** Marking changes nothing but the size, hash and duplicate fields of photos and
      videos; the hash is only ever set for grouped paths and the duplicate mark only for
      duplicates. */
  lemma MarkItemFrame(it: PlannedItem, groups: Groups, size: string -> Option<nat>, le: Order)
    requires WellFormedGroups(groups)
    ensures var r := MarkItem(it, groups, size, le);
      && r.(sizeBytes := it.sizeBytes, contentHash := it.contentHash, duplicateOf := it.duplicateOf) == it
      && (it.kind == Dvd ==> r == it)
      && (r.contentHash != it.contentHash ==> it.kind != Dvd && IsMember(groups, it.src))
      && (r.duplicateOf != it.duplicateOf ==> it.kind != Dvd && IsDuplicate(groups, it.src, le))
  {
  }

  /** On a fresh plan (no item marked yet), with groups drawn from the candidates: every
      `duplicate_of` names the source of another photo or video item that carries the same
      hash, sorts no later, and is itself unmarked. */
  lemma DuplicateTargetsAreCanonical(items: seq<PlannedItem>, groups: Groups, size: string -> Option<nat>, le: Order, i: nat)
    requires WellFormedGroups(groups) && TotalPreorder(le) && DrawnFrom(groups, Candidates(items))
    requires forall k :: 0 <= k < |items| ==> items[k].duplicateOf.None?
    requires i < |items| && MarkAll(items, groups, size, le)[i].duplicateOf.Some?
    ensures var marked := MarkAll(items, groups, size, le);
      var t := marked[i].duplicateOf.value;
      exists k :: 0 <= k < |items| && marked[k].src == t && t != marked[i].src
        && marked[k].kind != Dvd && marked[k].duplicateOf.None?
        && marked[k].contentHash.Some? && marked[k].contentHash == marked[i].contentHash
        && le(t, marked[i].src)
  {
    var marked := MarkAll(items, groups, size, le);
    var p := items[i].src;
    assert marked[i] == MarkItem(items[i], groups, size, le);
    assert IsDuplicate(groups, p, le);
    var c := CanonicalOf(groups, p, le);
    CanonicalSortsFirst(groups, p, le);
    GroupOfUnique(groups, GroupOf(groups, p), c);
    CandidatesAreSources(items, c);
    var k :| 0 <= k < |items| && items[k].src == c && items[k].kind != Dvd;
    assert marked[k] == MarkItem(items[k], groups, size, le);
  }

  /** On a fresh plan (no item marked yet), marking leaves every counted category as it
      was, except that the items marked as duplicates of each kind are exactly the ones
      the loop counts. */
  lemma {:induction false} CountAfterMarking(items: seq<PlannedItem>, groups: Groups, size: string -> Option<nat>, le: Order, c: Category)
    requires WellFormedGroups(groups)
    requires forall k :: 0 <= k < |items| ==> items[k].duplicateOf.None?
    ensures Count(MarkAll(items, groups, size, le), c) ==
              match c
              case DuplicateOfKind(k) => if k == Dvd then 0 else DuplicatesOf(items, groups, k, le)
              case _ => Count(items, c)
  {
    if |items| > 0 {
      var n := |items| - 1;
      var marked := MarkAll(items, groups, size, le);
      CountAfterMarking(items[..n], groups, size, le, c);
      assert marked[..n] == MarkAll(items[..n], groups, size, le);
      assert marked[n] == MarkItem(items[n], groups, size, le);
      MarkItemCategory(items[n], groups, size, le, c);
    }
  }

  /** Marking an unmarked item moves it into the duplicate category of its kind exactly
      when it is a duplicate, and leaves every other category as it was. */
  lemma MarkItemCategory(it: PlannedItem, groups: Groups, size: string -> Option<nat>, le: Order, c: Category)
    requires WellFormedGroups(groups) && it.duplicateOf.None?
    ensures InCategory(MarkItem(it, groups, size, le), c) ==
              match c
              case DuplicateOfKind(k) => k != Dvd && it.kind == k && IsDuplicate(groups, it.src, le)
              case _ => InCategory(it, c)
  {
  }

  /** The summary still agrees with the plan after the duplicate counters are bumped. */
  lemma MarkingKeepsAgreement(items: seq<PlannedItem>, s: PlanSummary, groups: Groups, size: string -> Option<nat>, le: Order)
    requires WellFormedGroups(groups) && Agrees(items, s)
    requires forall k :: 0 <= k < |items| ==> items[k].duplicateOf.None?
    ensures Agrees(MarkAll(items, groups, size, le),
                   s.(duplicatePhotos := s.duplicatePhotos + DuplicatesOf(items, groups, Photo, le),
                      duplicateVideos := s.duplicateVideos + DuplicatesOf(items, groups, Video, le)))
  {
    forall c: Category {
      CountAfterMarking(items, groups, size, le, c);
    }
    NoneMarked(items, Photo);
    NoneMarked(items, Video);
  }

  lemma {:induction false} NoneMarked(items: seq<PlannedItem>, k: MediaKind)
    requires forall i :: 0 <= i < |items| ==> items[i].duplicateOf.None?
    ensures Count(items, DuplicateOfKind(k)) == 0
  {
    if |items| > 0 {
      NoneMarked(items[..|items| - 1], k);
    }
  }

  // ---------------------------------------------------------------------------
  // The two lookup tables

  /** Each group's canonical copy, by hash. */
  ghost function CanonicalMap(groups: Groups, le: Order): (canon: map<string, string>)
    requires WellFormedGroups(groups)
    ensures canon.Keys == groups.Keys
    ensures forall h :: h in canon ==> canon[h] in groups[h]
  {
    map h | h in groups :: Canonical(groups[h], le)
  }

  /** The two lookup tables once the groups in `done` have been entered: every member of
      an entered group is mapped to its hash, and every member but the canonical copy
      `canon[hash]` to that copy. */
  ghost predicate Tables(groups: Groups, canon: map<string, string>, done: set<string>,
                         hashOf: map<string, string>, duplicateOf: map<string, string>)
    requires done <= groups.Keys <= canon.Keys
  {
    && (forall h, p :: h in done && p in groups[h] ==> p in hashOf && hashOf[p] == h)
    && (forall p :: p in hashOf ==> hashOf[p] in done && p in groups[hashOf[p]])
    && (forall p :: p in duplicateOf <==> p in hashOf && p != canon[hashOf[p]])
    && (forall p :: p in duplicateOf ==> p in hashOf && duplicateOf[p] == canon[hashOf[p]])
  }

  /** Once every group is entered, the tables answer exactly the membership and
      duplicate questions. */
  lemma TablesComplete(groups: Groups, le: Order, hashOf: map<string, string>, duplicateOf: map<string, string>)
    requires WellFormedGroups(groups) && Tables(groups, CanonicalMap(groups, le), groups.Keys, hashOf, duplicateOf)
    ensures forall p :: p in hashOf <==> IsMember(groups, p)
    ensures forall p :: p in hashOf ==> hashOf[p] == GroupOf(groups, p)
    ensures forall p :: p in duplicateOf <==> IsDuplicate(groups, p, le)
    ensures forall p :: p in duplicateOf ==> duplicateOf[p] == CanonicalOf(groups, p, le)
  {
    forall p | p in hashOf ensures IsMember(groups, p) && hashOf[p] == GroupOf(groups, p) {
      GroupOfUnique(groups, hashOf[p], p);
    }
    forall p | IsMember(groups, p) ensures p in hashOf {
      var h := GroupOf(groups, p);
    }
  }

  /** The loop over the finder's groups: `hash_of` maps every grouped path to its hash,
      `duplicate_of` every grouped path but the canonical one to the canonical one. */
  method BuildTables(groups: Groups, le: Order) returns (hashOf: map<string, string>, duplicateOf: map<string, string>)
    requires WellFormedGroups(groups)
    ensures Tables(groups, CanonicalMap(groups, le), groups.Keys, hashOf, duplicateOf)
  {
    ghost var canon := CanonicalMap(groups, le);
    hashOf, duplicateOf := map[], map[];
    var remaining := groups.Keys;
    ghost var done: set<string> := {};
    while remaining != {}
      invariant remaining <= groups.Keys && done == groups.Keys - remaining
      invariant Tables(groups, canon, done, hashOf, duplicateOf)
      decreases remaining
    {
      var h :| h in remaining;
      hashOf, duplicateOf := EnterGroup(groups, le, canon, done, h, hashOf, duplicateOf);
      remaining := remaining - {h};
      done := done + {h};
    }
    assert done == groups.Keys;
  }

  /** One turn of that loop: the group of hash `h`, canonical copy first. */
  method EnterGroup(groups: Groups, le: Order, ghost canon: map<string, string>, ghost done: set<string>, h: string,
                    hashOf0: map<string, string>, duplicateOf0: map<string, string>)
    returns (hashOf: map<string, string>, duplicateOf: map<string, string>)
    requires WellFormedGroups(groups) && canon == CanonicalMap(groups, le)
    requires done <= groups.Keys && h in groups && h !in done
    requires Tables(groups, canon, done, hashOf0, duplicateOf0)
    ensures Tables(groups, canon, done + {h}, hashOf, duplicateOf)
  {
    var group := groups[h];
    var m := MinIndex(group, le);
    var canonical := group[m];
    assert canonical == canon[h];
    hashOf, duplicateOf := hashOf0[canonical := h], duplicateOf0;
    EnterStart(groups, canon, done, h, hashOf0, duplicateOf0);
    assert group[..0] == [];
    for j := 0 to |group|
      invariant Partial(groups, canon, done, h, group[..j], hashOf, duplicateOf)
    {
      if j == m {
        SkipCanonical(groups, canon, done, h, j, hashOf, duplicateOf);
      } else {
        EnterMember(groups, canon, done, h, m, j, hashOf, duplicateOf);
        duplicateOf := duplicateOf[group[j] := canonical];
        hashOf := hashOf[group[j] := h];
      }
    }
    assert group[..|group|] == group;
    EnterFinish(groups, canon, done, h, hashOf, duplicateOf);
  }

  /** The tables part-way through the group of `h`: the groups in `done`, the canonical
      copy, and the members in `prefix` are entered. */
  ghost predicate Partial(groups: Groups, canon: map<string, string>, done: set<string>, h: string, prefix: seq<string>,
                          hashOf: map<string, string>, duplicateOf: map<string, string>)
    requires done <= groups.Keys <= canon.Keys && h in groups
  {
    && (forall h', p :: h' in done && p in groups[h'] ==> p in hashOf && hashOf[p] == h')
    && (forall p :: p in hashOf ==> (hashOf[p] in done || hashOf[p] == h) && p in groups[hashOf[p]])
    && canon[h] in hashOf && hashOf[canon[h]] == h
    && (forall p :: p in prefix ==> p in hashOf && hashOf[p] == h)
    && (forall p :: p in hashOf && hashOf[p] == h ==> p == canon[h] || p in prefix)
    && (forall p :: p in duplicateOf <==> p in hashOf && p != canon[hashOf[p]])
    && (forall p :: p in duplicateOf ==> p in hashOf && duplicateOf[p] == canon[hashOf[p]])
  }

  lemma PrefixStep(g: seq<string>, j: nat)
    requires j < |g|
    ensures forall p :: p in g[..j + 1] <==> p in g[..j] || p == g[j]
  {
    assert g[..j + 1] == g[..j] + [g[j]];
  }

  /** A member of a group that is not yet entered is in no entered group. */
  lemma NotInDone(groups: Groups, done: set<string>, h: string, x: string)
    requires WellFormedGroups(groups) && done <= groups.Keys && h in groups && h !in done && x in groups[h]
    ensures forall h' :: h' in done ==> x !in groups[h']
  {
  }

  lemma EnterStart(groups: Groups, canon: map<string, string>, done: set<string>, h: string,
                   hashOf0: map<string, string>, duplicateOf0: map<string, string>)
    requires WellFormedGroups(groups) && done <= groups.Keys <= canon.Keys && h in groups && h !in done
    requires canon[h] in groups[h]
    requires Tables(groups, canon, done, hashOf0, duplicateOf0)
    ensures Partial(groups, canon, done, h, [], hashOf0[canon[h] := h], duplicateOf0)
  {
    NotInDone(groups, done, h, canon[h]);
    assert canon[h] !in hashOf0;
  }

  /** Entering a member that is not the canonical copy `group[m]`. */
  lemma EnterMember(groups: Groups, canon: map<string, string>, done: set<string>, h: string, m: nat, j: nat,
                    hashOf: map<string, string>, duplicateOf: map<string, string>)
    requires WellFormedGroups(groups) && done <= groups.Keys <= canon.Keys && h in groups && h !in done
    requires m < |groups[h]| && canon[h] == groups[h][m]
    requires j < |groups[h]| && j != m
    requires Partial(groups, canon, done, h, groups[h][..j], hashOf, duplicateOf)
    ensures Partial(groups, canon, done, h, groups[h][..j + 1], hashOf[groups[h][j] := h],
                    duplicateOf[groups[h][j] := canon[h]])
  {
    var g := groups[h];
    var x := g[j];
    assert x != canon[h] by {
      assert NoRepeats(g);
    }
    NotInDone(groups, done, h, x);
    PrefixStep(g, j);
  }

  /** Passing over the canonical copy, which was entered first. */
  lemma SkipCanonical(groups: Groups, canon: map<string, string>, done: set<string>, h: string, j: nat,
                      hashOf: map<string, string>, duplicateOf: map<string, string>)
    requires done <= groups.Keys <= canon.Keys && h in groups
    requires j < |groups[h]| && canon[h] == groups[h][j]
    requires Partial(groups, canon, done, h, groups[h][..j], hashOf, duplicateOf)
    ensures Partial(groups, canon, done, h, groups[h][..j + 1], hashOf, duplicateOf)
  {
    PrefixStep(groups[h], j);
  }

  lemma EnterFinish(groups: Groups, canon: map<string, string>, done: set<string>, h: string,
                    hashOf: map<string, string>, duplicateOf: map<string, string>)
    requires done <= groups.Keys <= canon.Keys && h in groups && canon[h] in groups[h]
    requires Partial(groups, canon, done, h, groups[h], hashOf, duplicateOf)
    ensures Tables(groups, canon, done + {h}, hashOf, duplicateOf)
  {
  }

  // ---------------------------------------------------------------------------
  // The operation

  /** The first loop of `mark_input_duplicates`: the photo and video sources, in order. */
  method CollectCandidates(items: array<PlannedItem>) returns (paths: seq<string>)
    ensures paths == Candidates(items[..])
  {
    paths := [];
    for i := 0 to items.Length
      invariant paths == Candidates(items[..i])
    {
      assert items[..i + 1][..i] == items[..i];
      if items[i].kind == Photo || items[i].kind == Video {
        paths := paths + [items[i].src];
      }
    }
    assert items[..items.Length] == items[..];
  }

  /** The body of the final loop for one item, given the finished tables; `duplicate`
      says whether it counts as a duplicate. */
  method MarkOne(item: PlannedItem, ghost groups: Groups, ghost le: Order,
                 hashOf: map<string, string>, duplicateOf: map<string, string>,
                 size: string -> Option<nat>) returns (marked: PlannedItem, duplicate: bool)
    requires WellFormedGroups(groups) && Tables(groups, CanonicalMap(groups, le), groups.Keys, hashOf, duplicateOf)
    ensures marked == MarkItem(item, groups, size, le)
    ensures duplicate <==> item.kind != Dvd && IsDuplicate(groups, item.src, le)
  {
    TablesComplete(groups, le, hashOf, duplicateOf);
    marked, duplicate := item, false;
    if item.kind == Photo || item.kind == Video {
      marked := marked.(sizeBytes := size(item.src));
      if item.src in hashOf {
        marked := marked.(contentHash := Some(hashOf[item.src]));
      }
      if item.src in duplicateOf {
        marked := marked.(duplicateOf := Some(duplicateOf[item.src]));
        duplicate := true;
      }
    }
  }

  /** The final loop after `i` items: those are marked, the rest untouched, and the two
      counters hold the duplicates of each kind among the first `i`. */
  ghost predicate MarkedUpTo(items: seq<PlannedItem>, before: seq<PlannedItem>, i: nat, summary: PlanSummary,
                             photos: nat, videos: nat, groups: Groups, size: string -> Option<nat>, le: Order)
    requires WellFormedGroups(groups)
  {
    && i <= |items| == |before|
    && (forall j :: 0 <= j < i ==> items[j] == MarkItem(before[j], groups, size, le))
    && (forall j :: i <= j < |items| ==> items[j] == before[j])
    && photos == summary.duplicatePhotos + DuplicatesOf(before[..i], groups, Photo, le)
    && videos == summary.duplicateVideos + DuplicatesOf(before[..i], groups, Video, le)
  }

  /** The final loop: annotates every item in place and counts the duplicates of each
      kind into the summary. */
  method MarkItems(items: array<PlannedItem>, summary: PlanSummary, ghost groups: Groups, ghost le: Order,
                   hashOf: map<string, string>, duplicateOf: map<string, string>,
                   size: string -> Option<nat>) returns (s: PlanSummary)
    requires WellFormedGroups(groups) && Tables(groups, CanonicalMap(groups, le), groups.Keys, hashOf, duplicateOf)
    modifies items
    ensures items[..] == MarkAll(old(items[..]), groups, size, le)
    ensures s == summary.(duplicatePhotos := summary.duplicatePhotos + DuplicatesOf(old(items[..]), groups, Photo, le),
                          duplicateVideos := summary.duplicateVideos + DuplicatesOf(old(items[..]), groups, Video, le))
  {
    ghost var before := items[..];
    var photos, videos := summary.duplicatePhotos, summary.duplicateVideos;
    for i := 0 to items.Length
      invariant MarkedUpTo(items[..], before, i, summary, photos, videos, groups, size, le)
    {
      photos, videos := MarkAt(items, i, before, summary, photos, videos, groups, le, hashOf, duplicateOf, size);
    }
    assert before[..items.Length] == before;
    assert items[..] == MarkAll(before, groups, size, le);
    s := summary.(duplicatePhotos := photos, duplicateVideos := videos);
  }

  /** One turn of the final loop: marks item `i` and counts it if it is a duplicate. */
  method MarkAt(items: array<PlannedItem>, i: nat, ghost before: seq<PlannedItem>, ghost summary: PlanSummary,
                photos: nat, videos: nat, ghost groups: Groups, ghost le: Order,
                hashOf: map<string, string>, duplicateOf: map<string, string>,
                size: string -> Option<nat>) returns (photos': nat, videos': nat)
    requires WellFormedGroups(groups) && Tables(groups, CanonicalMap(groups, le), groups.Keys, hashOf, duplicateOf)
    requires i < items.Length && MarkedUpTo(items[..], before, i, summary, photos, videos, groups, size, le)
    modifies items
    ensures MarkedUpTo(items[..], before, i + 1, summary, photos', videos', groups, size, le)
  {
    DuplicatesStep(before, i, groups, le, Photo);
    DuplicatesStep(before, i, groups, le, Video);
    var item := items[i];
    assert item == before[i];
    var marked, duplicate := MarkOne(item, groups, le, hashOf, duplicateOf, size);
    photos', videos' := photos, videos;
    if duplicate {
      if item.kind == Photo {
        photos' := photos + 1;
      } else {
        videos' := videos + 1;
      }
    }
    items[i] := marked;
  }

  /** One more item of a prefix adds one to the duplicate count of its kind exactly when
      it is a duplicate. */
  lemma DuplicatesStep(items: seq<PlannedItem>, i: nat, groups: Groups, le: Order, k: MediaKind)
    requires WellFormedGroups(groups) && i < |items|
    ensures DuplicatesOf(items[..i + 1], groups, k, le) ==
              DuplicatesOf(items[..i], groups, k, le) + (if items[i].kind == k && IsDuplicate(groups, items[i].src, le) then 1 else 0)
  {
    assert items[..i + 1][..i] == items[..i];
  }

  /** `mark_input_duplicates`: asks the finder about every photo and video, then
      annotates the items in place and counts the duplicates into the summary; a finder
      error leaves the plan untouched and is passed on. Groups are sorted by path order,
      of which only the first element is used. */
  method MarkInputDuplicates(items: array<PlannedItem>, summary: PlanSummary, find: Finder, size: string -> Option<nat>)
    returns (r: Result<PlanSummary>)
    requires ValidFinder(find)
    modifies items
    ensures var found := find(Candidates(old(items[..])));
      && (r.Failure? <==> found.Failure?)
      && (r.Failure? ==> r.error == found.error && items[..] == old(items[..]))
      && (r.Success? ==>
            && WellFormedGroups(found.value)
            && items[..] == MarkAll(old(items[..]), found.value, size, PathLe)
            && r.value == summary.(duplicatePhotos := summary.duplicatePhotos + DuplicatesOf(old(items[..]), found.value, Photo, PathLe),
                                   duplicateVideos := summary.duplicateVideos + DuplicatesOf(old(items[..]), found.value, Video, PathLe)))
  {
    var paths := CollectCandidates(items);
    var found := find(paths);
    if found.Failure? {
      return Failure(found.error);
    }
    var groups := found.value;
    assert WellFormedGroups(groups);
    var hashOf, duplicateOf := BuildTables(groups, PathLe);
    var s := MarkItems(items, summary, groups, PathLe, hashOf, duplicateOf, size);
    return Success(s);
  }
}
