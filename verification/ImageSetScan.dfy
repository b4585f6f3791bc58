/**
 * Reconciling a directory of image sets with its index (api/internal/adult/scan.go).
 *
 * A pass visits the sub-directories, brings each set's rows in line with its files, and at the end
 * removes the sets whose directories are gone.
 */
module ImageSetScan {
  import opened Prelude

  datatype Limits = Limits(sets: nat, items: nat, setBytes: nat, fileBytes: nat)

  const SOURCE_LIMITS := Limits(10000, 2000, 2 * 1024 * 1024 * 1024, 100 * 1024 * 1024)

  /** A regular file with an accepted extension. Times are in nanoseconds. */
  datatype File = File(path: string, name: string, size: nat, mtime: int)

  /** What is read out of an image file. */
  datatype Facts = Facts(mime: string, checksum: string, width: Option<int>, height: Option<int>)

  datatype Item = Item(path: string, name: string, size: nat, facts: Facts, mtime: int)

  datatype Row = Row(name: string, size: nat, facts: Facts, mtime: Option<int>, order: nat)

  type Rows = map<string, Row>

  datatype ImageSet = ImageSet(title: string, count: nat, total: nat, cover: Option<string>, rows: Rows)

  /** Opening and reading an image; it fails when the file cannot be read or is no image of its kind. */
  type Inspector = File -> Option<Facts>

  // ----- collecting the items of a set -----

  /** A time cut down to whole microseconds. */
  function Micros(t: int): (m: int)
    ensures m == t / 1000 * 1000
  {
    t - t % 1000
  }

  predicate IsUnchanged(row: Row, f: File) {
    row.size == f.size && row.mtime.Some? && Micros(row.mtime.value) == Micros(f.mtime)
  }

  /** The item of a file: from the index when size and time are as stored, else from the file. */
  function Resolve(f: File, existing: Rows, inspect: Inspector): Option<Item> {
    if f.path in existing && IsUnchanged(existing[f.path], f) then
      Some(Item(f.path, f.name, f.size, existing[f.path].facts, Micros(f.mtime)))
    else
      var facts := inspect(f);
      if facts.None? then None else Some(Item(f.path, f.name, f.size, facts.value, Micros(f.mtime)))
  }

  /** The index knows the file as it is: the same size, and the same time to the microsecond. */
  ghost predicate IsKnown(existing: Rows, f: File) {
    && f.path in existing && existing[f.path].size == f.size
    && existing[f.path].mtime.Some? && existing[f.path].mtime.value / 1000 == f.mtime / 1000
  }

  /** An item is that of a file: its facts are those stored if the index knows the file, else those in the file. */
  ghost predicate IsItemOf(item: Item, f: File, existing: Rows, inspect: Inspector) {
    && item.path == f.path && item.name == f.name && item.size == f.size
    && item.mtime == f.mtime / 1000 * 1000
    && if IsKnown(existing, f) then item.facts == existing[f.path].facts else inspect(f) == Some(item.facts)
  }

  lemma ResolveIff(f: File, existing: Rows, inspect: Inspector, item: Item)
    ensures Resolve(f, existing, inspect) == Some(item) <==> IsItemOf(item, f, existing, inspect)
  {
    if f.path in existing {
      UnchangedIff(existing[f.path], f);
    }
  }

  lemma UnchangedIff(row: Row, f: File)
    ensures IsUnchanged(row, f) <==> row.size == f.size && row.mtime.Some? && row.mtime.value / 1000 == f.mtime / 1000
  {
  }

  datatype Collected = Collected(items: seq<Item>, total: nat, stopped: bool)

  /** One directory entry; entries that are no image files are None. */
  function Add(c: Collected, entry: Option<File>, existing: Rows, inspect: Inspector, limits: Limits): Collected {
    if c.stopped || entry.None? || entry.value.size > limits.fileBytes then c
    else if c.total + entry.value.size > limits.setBytes || |c.items| >= limits.items then c.(stopped := true)
    else
      var item := Resolve(entry.value, existing, inspect);
      if item.None? then c else Collected(c.items + [item.value], c.total + entry.value.size, false)
  }

  function Collect(entries: seq<Option<File>>, existing: Rows, inspect: Inspector, limits: Limits): Collected {
    if entries == [] then Collected([], 0, false)
    else
      var init := Collect(entries[..|entries| - 1], existing, inspect, limits);
      Add(init, entries[|entries| - 1], existing, inspect, limits)
  }

  lemma {:induction false} StoppedStays(entries: seq<Option<File>>, k: nat, existing: Rows, inspect: Inspector,
                                        limits: Limits)
    requires k <= |entries| && Collect(entries[..k], existing, inspect, limits).stopped
    ensures Collect(entries, existing, inspect, limits) == Collect(entries[..k], existing, inspect, limits)
    decreases |entries|
  {
    if k < |entries| {
      assert entries[..|entries| - 1][..k] == entries[..k];
      StoppedStays(entries[..|entries| - 1], k, existing, inspect, limits);
    } else {
      assert entries[..k] == entries;
    }
  }

  /** The loop also ends early when the pass is cancelled; seen is how many entries it got to. */
  method CollectValidItems(entries: seq<Option<File>>, existing: Rows, inspect: Inspector, limits: Limits,
                           cancelled: nat -> bool)
    returns (items: seq<Item>, total: nat, ghost seen: nat)
    ensures seen <= |entries|
    ensures seen < |entries| ==> cancelled(seen)
    ensures (forall k :: !cancelled(k)) ==>
              items == Collect(entries, existing, inspect, limits).items
                && total == Collect(entries, existing, inspect, limits).total
    ensures items == Collect(entries[..seen], existing, inspect, limits).items
    ensures total == Collect(entries[..seen], existing, inspect, limits).total
  {
    items, total, seen := [], 0, |entries|;
    var count := 0;
    for i := 0 to |entries|
      invariant seen == |entries| && count == |items|
      invariant Collect(entries[..i], existing, inspect, limits) == Collected(items, total, false)
    {
      assert entries[..i + 1][..i] == entries[..i];
      if cancelled(i) {
        seen := i;
        break;
      }
      if entries[i].None? {
        continue;
      }
      var f := entries[i].value;
      if f.size > limits.fileBytes {
        continue;
      }
      if total + f.size > limits.setBytes || count >= limits.items {
        StoppedStays(entries, i + 1, existing, inspect, limits);
        break;
      }
      var item := Resolve(f, existing, inspect);
      if item.None? {
        continue;
      }
      count := count + 1;
      total := total + f.size;
      items := items + [item.value];
    }
    assert entries[..|entries|] == entries;
  }

  function TotalSize(items: seq<Item>): nat {
    if items == [] then 0 else TotalSize(items[..|items| - 1]) + items[|items| - 1].size
  }

  /** What is collected keeps every cap, and the total is that of the items. */
  lemma {:induction false} CollectKeepsCaps(entries: seq<Option<File>>, existing: Rows, inspect: Inspector,
                                            limits: Limits)
    ensures var c := Collect(entries, existing, inspect, limits);
            && |c.items| <= limits.items
            && c.total == TotalSize(c.items) <= limits.setBytes
            && forall i :: 0 <= i < |c.items| ==> c.items[i].size <= limits.fileBytes
  {
    if entries != [] {
      CollectKeepsCaps(entries[..|entries| - 1], existing, inspect, limits);
    }
  }

  /** A file is taken unless it is too large, cannot be resolved, or comes where the caps stopped the walk. */
  lemma {:induction false} CollectedIff(entries: seq<Option<File>>, existing: Rows, inspect: Inspector, limits: Limits,
                                        item: Item)
    ensures item in Collect(entries, existing, inspect, limits).items <==>
            exists k :: 0 <= k < |entries| && Takes(entries, k, existing, inspect, limits, item)
  {
    if entries != [] {
      var init := entries[..|entries| - 1];
      if entries[|init|].Some? {
        ResolveIff(entries[|init|].value, existing, inspect, item);
      }
      CollectedIff(init, existing, inspect, limits, item);
      forall k | 0 <= k < |init|
        ensures Takes(init, k, existing, inspect, limits, item) <==>
            Takes(entries, k, existing, inspect, limits, item) {
        assert init[..k] == entries[..k] && init[k] == entries[k];
      }
      assert Takes(entries, |init|, existing, inspect, limits, item) ==>
          item in Collect(entries, existing, inspect, limits).items;
    }
  }

  /** The entry is an image within the caps that gives this item. */
  ghost predicate Takes(entries: seq<Option<File>>, k: nat, existing: Rows, inspect: Inspector, limits: Limits,
                        item: Item)
    requires k < |entries|
  {
    var c := Collect(entries[..k], existing, inspect, limits);
    && entries[k].Some?
    && entries[k].value.size <= limits.fileBytes
    && !c.stopped && c.total + entries[k].value.size <= limits.setBytes && |c.items| < limits.items
    && IsItemOf(item, entries[k].value, existing, inspect)
  }

  /** Files have paths of their own. */
  ghost predicate AreApart(entries: seq<Option<File>>) {
    forall i, j :: 0 <= i < j < |entries| && entries[i].Some? && entries[j].Some? ==>
        entries[i].value.path != entries[j].value.path
  }

  ghost predicate ItemsApart(items: seq<Item>) {
    forall i, j :: 0 <= i < j < |items| ==> items[i].path != items[j].path
  }

  ghost predicate HasPath(entries: seq<Option<File>>, path: string) {
    exists k :: 0 <= k < |entries| && entries[k].Some? && entries[k].value.path == path
  }

  lemma {:induction false} CollectedApart(entries: seq<Option<File>>, existing: Rows, inspect: Inspector,
                                          limits: Limits)
    requires AreApart(entries)
    ensures var items := Collect(entries, existing, inspect, limits).items;
            ItemsApart(items) && forall i :: 0 <= i < |items| ==> HasPath(entries, items[i].path)
  {
    if entries != [] {
      var init, last := entries[..|entries| - 1], entries[|entries| - 1];
      var items := Collect(init, existing, inspect, limits).items;
      var items' := Collect(entries, existing, inspect, limits).items;
      CollectedApart(init, existing, inspect, limits);
      forall i | 0 <= i < |items|
        ensures HasPath(entries, items[i].path) && (last.Some? ==> items[i].path != last.value.path) {
        assert HasPath(init, items[i].path);
        var k :| 0 <= k < |init| && init[k].Some? && init[k].value.path == items[i].path;
        assert entries[k] == init[k];
      }
      if items' != items {
        assert entries[|init|].value.path == items'[|items|].path;
      }
    }
  }

  // ----- the rows of a set -----

  function RowOf(item: Item, order: nat): Row {
    Row(item.name, item.size, item.facts, Some(item.mtime), order)
  }

  /** The row of an item's path has the item's facts, and its place in the list. */
  ghost predicate HoldsItem(rows: Rows, item: Item, place: nat) {
    && item.path in rows
    && rows[item.path].name == item.name && rows[item.path].size == item.size
    && rows[item.path].facts == item.facts && rows[item.path].mtime == Some(item.mtime)
    && rows[item.path].order == place
  }

  /** The rows for a list of items, ordered as listed. */
  function Indexed(items: seq<Item>): Rows {
    if items == [] then map[] else
    Indexed(items[..|items| - 1])[items[|items| - 1].path := RowOf(items[|items| - 1], |items| - 1)]
  }

  function Paths(items: seq<Item>): set<string> {
    set i | 0 <= i < |items| :: items[i].path
  }

  lemma {:induction false} IndexedKeys(items: seq<Item>)
    ensures Indexed(items).Keys == Paths(items)
  {
    if items != [] {
      var init, last := items[..|items| - 1], items[|items| - 1];
      IndexedKeys(init);
      PathsAppend(init, last);
      assert items == init + [last];
    }
  }

  lemma {:induction false} IndexedAt(items: seq<Item>, i: nat)
    requires ItemsApart(items) && i < |items|
    ensures HoldsItem(Indexed(items), items[i], i)
    decreases |items|
  {
    var init := items[..|items| - 1];
    if i < |init| {
      assert init[i] == items[i] && items[i].path != items[|init|].path;
      IndexedAt(init, i);
    }
  }

  /** The index holds each item under its path, in its place, and nothing else. */
  lemma IndexedHoldsItems(items: seq<Item>)
    requires ItemsApart(items)
    ensures Indexed(items).Keys == Paths(items)
    ensures forall i :: 0 <= i < |items| ==> HoldsItem(Indexed(items), items[i], i)
  {
    IndexedKeys(items);
    forall i | 0 <= i < |items| ensures HoldsItem(Indexed(items), items[i], i) {
      IndexedAt(items, i);
    }
  }

  lemma PathsAppend(items: seq<Item>, item: Item)
    ensures Paths(items + [item]) == Paths(items) + {item.path}
  {
    var all := items + [item];
    assert all[|items|] == item && forall i :: 0 <= i < |items| ==> all[i] == items[i];
    forall p ensures p in Paths(all) <==> p in Paths(items) || p == item.path {
      if p in Paths(items) {
        var i :| 0 <= i < |items| && items[i].path == p;
        assert all[i].path == p;
      }
    }
  }

  function Cover(items: seq<Item>): Option<string> {
    if items == [] then None else Some(items[0].path)
  }

  function Synced(title: string, items: seq<Item>, total: nat): ImageSet {
    ImageSet(title, |items|, total, Cover(items), Indexed(items))
  }

  /** A set holds exactly the items of a list, each in its place, and its summary agrees. */
  ghost predicate HoldsItems(stored: ImageSet, items: seq<Item>, total: nat) {
    && stored.rows.Keys == Paths(items)
    && (forall i :: 0 <= i < |items| ==> HoldsItem(stored.rows, items[i], i))
    && stored.count == |items| && stored.total == total
    && stored.cover == if items == [] then None else Some(items[0].path)
  }

  lemma SyncedHoldsItems(title: string, items: seq<Item>, total: nat)
    requires ItemsApart(items)
    ensures HoldsItems(Synced(title, items, total), items, total)
  {
    IndexedHoldsItems(items);
  }

  function Restricted(rows: Rows, keep: set<string>): Rows {
    map p | p in rows && p in keep :: rows[p]
  }

  /** Rows put over others win; dropping all but their paths leaves only them. */
  lemma OnlyIndexedIsLeft(rows: Rows, items: seq<Item>)
    requires ItemsApart(items)
    ensures Restricted(rows + Indexed(items), Paths(items)) == Indexed(items)
  {
    IndexedHoldsItems(items);
  }

  lemma UpsertExtends(rows: Rows, items: seq<Item>, i: nat)
    requires i < |items|
    ensures (rows + Indexed(items[..i]))[items[i].path := RowOf(items[i], i)] == rows + Indexed(items[..i + 1])
  {
    assert items[..i + 1][..i] == items[..i];
  }

  // ----- a second look at the same files -----

  /** Rows that a scan of these files stored. */
  ghost predicate IsSettled(rows: Rows, entries: seq<Option<File>>, before: Rows, inspect: Inspector, limits: Limits) {
    rows == Indexed(Collect(entries, before, inspect, limits).items)
  }

  /** The facts taken from the stored rows are those stored, so a file resolves as it did. */
  lemma ResolveAgain(f: File, before: Rows, rows: Rows, inspect: Inspector)
    requires Resolve(f, before, inspect).Some? ==>
               f.path in rows && rows[f.path].facts == Resolve(f, before, inspect).value.facts
               && rows[f.path].size == f.size && rows[f.path].mtime == Some(Micros(f.mtime))
    requires Resolve(f, before, inspect).None? ==> f.path !in rows
    ensures Resolve(f, rows, inspect) == Resolve(f, before, inspect)
  {
    assert Micros(Micros(f.mtime)) == Micros(f.mtime);
  }

  /** Scanning unchanged files again collects the same items: nothing is read twice, nothing moves. */
  lemma SecondScanChangesNothing(entries: seq<Option<File>>, before: Rows, rows: Rows, inspect: Inspector,
                                 limits: Limits)
    requires AreApart(entries) && IsSettled(rows, entries, before, inspect, limits)
    ensures Collect(entries, rows, inspect, limits) == Collect(entries, before, inspect, limits)
  {
    SameSoFar(entries, |entries|, before, rows, inspect, limits);
    assert entries[..|entries|] == entries;
  }

  lemma {:induction false} SameSoFar(entries: seq<Option<File>>, k: nat, before: Rows, rows: Rows, inspect: Inspector,
                                     limits: Limits)
    requires AreApart(entries) && IsSettled(rows, entries, before, inspect, limits) && k <= |entries|
    ensures Collect(entries[..k], rows, inspect, limits) == Collect(entries[..k], before, inspect, limits)
  {
    if k > 0 {
      SameSoFar(entries, k - 1, before, rows, inspect, limits);
      assert entries[..k][..k - 1] == entries[..k - 1];
      var c := Collect(entries[..k - 1], before, inspect, limits);
      if entries[k - 1].Some? && !c.stopped && c.total + entries[k - 1].value.size <= limits.setBytes
         && entries[k - 1].value.size <= limits.fileBytes && |c.items| < limits.items {
        RowIsAsResolved(entries, k - 1, before, rows, inspect, limits);
        ResolveAgain(entries[k - 1].value, before, rows, inspect);
      }
    }
  }

  /** A file within the caps has a row exactly when it could be resolved, and the row holds what was found. */
  lemma RowIsAsResolved(entries: seq<Option<File>>, k: nat, before: Rows, rows: Rows, inspect: Inspector,
                        limits: Limits)
    requires AreApart(entries) && IsSettled(rows, entries, before, inspect, limits)
    requires k < |entries| && entries[k].Some? && entries[k].value.size <= limits.fileBytes
    requires var c := Collect(entries[..k], before, inspect, limits);
             !c.stopped && c.total + entries[k].value.size <= limits.setBytes && |c.items| < limits.items
    ensures var f := entries[k].value;
            var item := Resolve(f, before, inspect);
            if item.None? then f.path !in rows
            else (&& f.path in rows && rows[f.path].facts == item.value.facts && rows[f.path].size == f.size
                  && rows[f.path].mtime == Some(Micros(f.mtime)))
  {
    var f := entries[k].value;
    var items := Collect(entries, before, inspect, limits).items;
    CollectedApart(entries, before, inspect, limits);
    IndexedHoldsItems(items);
    var item := Resolve(f, before, inspect);
    if item.Some? {
      ResolveIff(f, before, inspect, item.value);
      assert Takes(entries, k, before, inspect, limits, item.value);
      CollectedIff(entries, before, inspect, limits, item.value);
      var i :| 0 <= i < |items| && items[i] == item.value;
      assert HoldsItem(rows, items[i], i);
    } else {
      forall i | 0 <= i < |items| ensures items[i].path != f.path {
        CollectedIff(entries, before, inspect, limits, items[i]);
        var j :| 0 <= j < |entries| && Takes(entries, j, before, inspect, limits, items[i]);
        assert entries[j].value.path == items[i].path;
      }
    }
  }

  // ----- the directory -----

  /** A sub-directory that is a set: its own path and name, whether it can be listed, and its entries sorted by name. */
  datatype SetDir = SetDir(path: string, name: string, readable: bool, entries: seq<Option<File>>)

  /** The base directory: its entries sorted by name, sub-directories that are sets given as such. */
  datatype Base = Base(entries: seq<Option<SetDir>>, hasMarker: bool, writable: bool, readable: bool)

  /**
   * Before the directory is listed, a marker file is put into it unless it is there already or cannot
   * be written. Where it comes in the listing is settled by the names.
   */
  function WithMarker(base: Base, place: nat): seq<Option<SetDir>>
    requires place <= |base.entries|
  {
    if base.hasMarker || !base.writable then base.entries
    else base.entries[..place] + [None] + base.entries[place..]
  }

  /** The sets a pass visits, and whether the limit on sets cut it short. */
  datatype Walk = Walk(seen: seq<SetDir>, truncated: bool)

  function WalkStep(w: Walk, entry: Option<SetDir>, maxSets: nat): Walk {
    if w.truncated then w
    else if |w.seen| >= maxSets then w.(truncated := true)
    else if entry.None? then w
    else w.(seen := w.seen + [entry.value])
  }

  function WalkOf(entries: seq<Option<SetDir>>, maxSets: nat): Walk {
    if entries == [] then Walk([], false)
    else WalkStep(WalkOf(entries[..|entries| - 1], maxSets), entries[|entries| - 1], maxSets)
  }

  lemma {:induction false} TruncatedStays(entries: seq<Option<SetDir>>, k: nat, maxSets: nat)
    requires k <= |entries| && WalkOf(entries[..k], maxSets).truncated
    ensures WalkOf(entries, maxSets) == WalkOf(entries[..k], maxSets)
    decreases |entries|
  {
    if k < |entries| {
      assert entries[..|entries| - 1][..k] == entries[..k];
      TruncatedStays(entries[..|entries| - 1], k, maxSets);
    } else {
      assert entries[..k] == entries;
    }
  }

  lemma WalkOneMore(entries: seq<Option<SetDir>>, i: nat, maxSets: nat)
    requires i < |entries|
    ensures WalkOf(entries[..i + 1], maxSets) == WalkStep(WalkOf(entries[..i], maxSets), entries[i], maxSets)
  {
    assert entries[..i + 1][..i] == entries[..i];
  }

  /** An uncut pass visits every set of the directory. */
  lemma {:induction false} UncutWalkSeesAll(entries: seq<Option<SetDir>>, maxSets: nat, d: SetDir)
    requires !WalkOf(entries, maxSets).truncated
    ensures d in WalkOf(entries, maxSets).seen <==> Some(d) in entries
  {
    if entries != [] {
      UncutWalkSeesAll(entries[..|entries| - 1], maxSets, d);
      assert entries == entries[..|entries| - 1] + [entries[|entries| - 1]];
    }
  }

  lemma {:induction false} WalkIsBounded(entries: seq<Option<SetDir>>, maxSets: nat)
    ensures |WalkOf(entries, maxSets).seen| <= maxSets
  {
    if entries != [] {
      WalkIsBounded(entries[..|entries| - 1], maxSets);
    }
  }

  function DirPaths(dirs: seq<SetDir>): set<string> {
    if dirs == [] then {} else DirPaths(dirs[..|dirs| - 1]) + {dirs[|dirs| - 1].path}
  }

  /** What a pass that came through does about sets without a directory. */
  datatype Action = Keep | DropUnseen | DropAll

  function ActionFor(w: Walk, entryCount: nat): Action {
    if w.truncated then Keep
    else if w.seen != [] then DropUnseen
    else if entryCount == 0 then Keep
    else DropAll
  }

  /**
   * An empty directory is meant to leave the index alone, as its mount may be missing. The marker is
   * written before the directory is listed, so this holds exactly when the marker cannot be written.
   */
  lemma EmptyDirectoryIsKeptIff(base: Base, limits: Limits)
    requires base.entries == [] && !base.hasMarker && limits.sets > 0
    ensures var listed := WithMarker(base, 0);
            ActionFor(WalkOf(listed, limits.sets), |listed|) == if base.writable then DropAll else Keep
  {
    if base.writable {
      var listed := WithMarker(base, 0);
      assert listed == [None];
      assert listed[..0] == [];
      assert WalkOf(listed, limits.sets) == WalkStep(Walk([], false), None, limits.sets);
    }
  }

  // ----- the index -----

  datatype Outcome = Done | Cancelled | Unreadable | QueryFailed

  /** The index, and the pass's clock: each query and each look at the context is one tick. */
  class Index {
    const limits: Limits
    const inspect: Inspector
    const fails: nat -> bool
    const cancelledFrom: Option<nat>
    var now: nat
    var sets: map<string, ImageSet>

    constructor (limits: Limits, inspect: Inspector, fails: nat -> bool, cancelledFrom: Option<nat>,
                 sets: map<string, ImageSet>)
      ensures this.limits == limits && this.inspect == inspect && this.fails == fails
      ensures this.cancelledFrom == cancelledFrom && now == 0 && this.sets == sets
    {
      this.limits, this.inspect, this.fails, this.cancelledFrom, now, this.sets :=
          limits, inspect, fails, cancelledFrom, 0, sets;
    }

    predicate IsCancelled(t: nat) {
      cancelledFrom.Some? && cancelledFrom.value <= t
    }

    /** No query fails and nobody cancels. */
    ghost predicate IsCalm() {
      cancelledFrom.None? && forall t :: !fails(t)
    }

    /** A query goes through unless the store fails it or the context was cancelled. */
    method Query() returns (ok: bool)
      modifies this`now
      ensures now == old(now) + 1
      ensures ok <==> !fails(old(now)) && !IsCancelled(old(now))
    {
      ok := !fails(now) && !IsCancelled(now);
      now := now + 1;
    }

    method ContextIsDone() returns (done: bool)
      modifies this`now
      ensures now == old(now) + 1
      ensures done <==> IsCancelled(old(now))
    {
      done := IsCancelled(now);
      now := now + 1;
    }

    /** The set's other columns stay as they are; only its rows may change. */
    predicate OnlyRowsDiffer(a: ImageSet, b: ImageSet) {
      a.(rows := b.rows) == b
    }

    method UpsertRows(dir: string, items: seq<Item>) returns (ok: bool)
      requires dir in sets
      modifies this
      ensures now >= old(now) && (IsCalm() ==> ok)
      ensures dir in sets && sets == old(sets)[dir := sets[dir]] && OnlyRowsDiffer(old(sets)[dir], sets[dir])
      ensures ok ==> sets[dir].rows == old(sets)[dir].rows + Indexed(items)
    {
      ghost var before := sets[dir];
      assert before.rows + Indexed(items[..0]) == before.rows;
      for i := 0 to |items|
        invariant now >= old(now)
        invariant dir in sets && sets == old(sets)[dir := sets[dir]] && OnlyRowsDiffer(before, sets[dir])
        invariant sets[dir].rows == before.rows + Indexed(items[..i])
      {
        ok := Query();
        if !ok {
          return;
        }
        UpsertExtends(before.rows, items, i);
        sets := sets[dir := sets[dir].(rows := sets[dir].rows[items[i].path := RowOf(items[i], i)])];
      }
      assert items[..|items|] == items;
      ok := true;
    }

    method CleanVanishedItems(dir: string, items: seq<Item>) returns (ok: bool)
      requires dir in sets
      modifies this
      ensures now == old(now) + 1 && (ok ==> !IsCancelled(old(now))) && (IsCalm() ==> ok)
      ensures ok ==> sets == old(sets)[dir := old(sets)[dir].(rows := Restricted(old(sets)[dir].rows, Paths(items)))]
      ensures !ok ==> sets == old(sets)
    {
      ok := Query();
      if !ok {
        return;
      }
      var was := sets[dir];
      if |items| > 0 {
        sets := sets[dir := was.(rows := Restricted(was.rows, Paths(items)))];
      } else {
        sets := sets[dir := was.(rows := map[])];
        assert Restricted(was.rows, Paths(items)).Keys == {};
      }
    }

    /**
     * After a sync that came through, the rows are exactly the items in their order, and the summary
     * agrees with them. One that failed has touched this set alone, and not removed it.
     */
    method SyncSetItems(dir: string, items: seq<Item>, total: nat) returns (ok: bool)
      requires dir in sets && ItemsApart(items)
      modifies this
      ensures now >= old(now) && (IsCalm() ==> ok)
      ensures dir in sets && sets == old(sets)[dir := sets[dir]] && sets[dir].title == old(sets)[dir].title
      ensures ok ==> sets[dir] == Synced(old(sets)[dir].title, items, total)
      ensures ok ==> HoldsItems(sets[dir], items, total)
      ensures ok ==> !IsCancelled(old(now))
    {
      ghost var before := sets;
      ok := UpsertRows(dir, items);
      if !ok {
        return;
      }
      OnlyIndexedIsLeft(before[dir].rows, items);
      SyncedHoldsItems(before[dir].title, items, total);
      ghost var upserted := sets;
      ok := CleanVanishedItems(dir, items);
      OneEntryTwice(before, upserted, sets, dir);
      if !ok {
        return;
      }
      ghost var cleaned := sets;
      ok := UpdateSummary(dir, items, total);
      OneEntryTwice(before, cleaned, sets, dir);
    }

    method UpdateSummary(dir: string, items: seq<Item>, total: nat) returns (ok: bool)
      requires dir in sets
      modifies this
      ensures now == old(now) + 1 && (IsCalm() ==> ok)
      ensures ok ==> sets == old(sets)[dir := old(sets)[dir].(count := |items|, total := total, cover := Cover(items))]
      ensures !ok ==> sets == old(sets)
    {
      ok := Query();
      if ok {
        sets := sets[dir := sets[dir].(count := |items|, total := total, cover := Cover(items))];
      }
    }

    /** The row of a set: a new one is empty, one that is there keeps everything but its title. */
    method UpsertSet(d: SetDir) returns (ok: bool)
      modifies this
      ensures now == old(now) + 1 && (IsCalm() ==> ok)
      ensures !ok ==> sets == old(sets)
      ensures ok && d.path in old(sets) ==> sets == old(sets)[d.path := old(sets)[d.path].(title := d.name)]
      ensures ok && d.path !in old(sets) ==> sets == old(sets)[d.path := ImageSet(d.name, 0, 0, None, map[])]
    {
      ok := Query();
      if ok {
        var was := if d.path in sets then sets[d.path] else ImageSet(d.name, 0, 0, None, map[]);
        sets := sets[d.path := was.(title := d.name)];
      }
    }

    /** One set: its row, then its items. Only its own entry changes, and none is removed. */
    method ScanSingleSet(d: SetDir) returns (ok: bool)
      requires AreApart(d.entries)
      modifies this
      ensures now >= old(now) && (IsCalm() && d.readable ==> ok)
      ensures sets.Keys == old(sets).Keys || sets.Keys == old(sets).Keys + {d.path}
      ensures forall p :: p in old(sets) && p != d.path ==> sets[p] == old(sets)[p]
      ensures ok ==>
          d.path in sets &&
          sets[d.path] == SyncedFrom(d, if d.path in old(sets) then old(sets)[d.path].rows else map[], inspect, limits)
    {
      var existing := if d.path in sets then sets[d.path].rows else map[];
      ok := UpsertSet(d);
      if !ok {
        return;
      }
      ok := Query();
      if !ok {
        return;
      }
      ok := SyncFiles(d, existing);
    }

    /** The items of a set's files, and their rows. */
    method SyncFiles(d: SetDir, existing: Rows) returns (ok: bool)
      requires AreApart(d.entries) && d.path in sets
      modifies this
      ensures now >= old(now) && (IsCalm() && d.readable ==> ok)
      ensures d.path in sets && sets == old(sets)[d.path := sets[d.path]]
      ensures ok ==>
          var c := Collect(d.entries, existing, inspect, limits);
          sets[d.path] == Synced(old(sets)[d.path].title, c.items, c.total)
    {
      if !d.readable {
        return false;
      }
      var start := now;
      var from := cancelledFrom;
      var cancelled := (k: nat) => from.Some? && from.value <= start + k;
      var items, total, seen := CollectValidItems(d.entries, existing, inspect, limits, cancelled);
      assert seen < |d.entries| ==> IsCancelled(start + seen);
      now := now + |d.entries|;
      CollectedApart(d.entries[..seen], existing, inspect, limits);
      ok := SyncSetItems(d.path, items, total);
      assert ok ==> d.entries[..seen] == d.entries;
    }

    /**
     * One pass over the base directory. The sets scanned through are named in synced; a set whose scan
     * failed is seen all the same.
     */
    method ScanDir(base: Base, place: nat) returns (outcome: Outcome, ghost synced: set<string>)
      requires place <= |base.entries| && limits.sets > 0
      requires AreSets(WithMarker(base, place))
      modifies this
      ensures var w := WalkOf(WithMarker(base, place), limits.sets);
              var action := ActionFor(w, |WithMarker(base, place)|);
              && (outcome != Done || action == Keep ==> old(sets).Keys <= sets.Keys)
              && (outcome == Done && action == DropUnseen ==>
                  old(sets).Keys * DirPaths(w.seen) <= sets.Keys <= DirPaths(w.seen))
              && (outcome == Done && action == DropAll ==> sets == map[])
              && (outcome == Done ==> sets.Keys <= old(sets).Keys + DirPaths(w.seen))
              && (outcome == Done ==> AreSynced(old(sets), sets, w.seen, synced, inspect, limits))
              && (outcome == Done ==> forall p :: p in old(sets) && p in sets && p !in DirPaths(w.seen) ==>
                  sets[p] == old(sets)[p])
              && (IsCalm() && base.readable ==> outcome == Done)
              && (IsCalm() && base.readable && base.entries == [] && !base.hasMarker ==>
                    (sets == old(sets) <==> !base.writable || old(sets) == map[]))
              && (IsCalm() && base.readable && (forall d :: d in w.seen ==> d.readable) ==> synced == DirPaths(w.seen))
    {
      synced := {};
      if !base.readable {
        return Unreadable, synced;
      }
      var entries := WithMarker(base, place);
      var walk, cancelled;
      walk, cancelled, synced := WalkSets(entries);
      if cancelled {
        return Cancelled, synced;
      }
      var done := ContextIsDone();
      if done {
        return Cancelled, synced;
      }
      if walk.truncated {
        return Done, synced;
      }
      ghost var was := sets;
      var ok := CleanVanishedSets(walk, |entries|);
      if !ok {
        return QueryFailed, synced;
      }
      SeenPaths(walk.seen);
      return Done, synced;
    }

    /** The walk over the entries, up to the limit on sets or until the context is done. */
    method WalkSets(entries: seq<Option<SetDir>>) returns (w: Walk, cancelled: bool, ghost synced: set<string>)
      requires limits.sets > 0 && AreSets(entries)
      modifies this
      ensures old(sets).Keys <= sets.Keys && (IsCalm() ==> !cancelled)
      ensures !cancelled ==>
          w == WalkOf(entries, limits.sets) && Passed(old(sets), sets, w.seen, synced, inspect, limits)
      ensures IsCalm() && (forall d :: d in w.seen ==> d.readable) ==> synced == DirPaths(w.seen)
    {
      w, synced := Walk([], false), {};
      for i := 0 to |entries|
        invariant !w.truncated && WalkOf(entries[..i], limits.sets) == w
        invariant Passed(old(sets), sets, w.seen, synced, inspect, limits)
        invariant IsCalm() && (forall d :: d in w.seen ==> d.readable) ==> synced == DirPaths(w.seen)
      {
        WalkOneMore(entries, i, limits.sets);
        cancelled := ContextIsDone();
        if cancelled {
          return;
        }
        if |w.seen| >= limits.sets {
          w := w.(truncated := true);
          TruncatedStays(entries, i + 1, limits.sets);
          return;
        }
        if entries[i].None? {
          continue;
        }
        var d := entries[i].value;
        SeenApart(entries, i, limits.sets);
        synced := VisitSet(old(sets), w.seen, d, synced);
        SeenOneMore(w.seen, d);
        w := w.(seen := w.seen + [d]);
      }
      assert entries[..|entries|] == entries;
      cancelled := false;
    }

    /** One set of the walk; a scan that fails is passed over. */
    method VisitSet(ghost before: map<string, ImageSet>, ghost seen: seq<SetDir>, d: SetDir, ghost synced: set<string>)
      returns (ghost synced': set<string>)
      requires AreApart(d.entries) && d.path !in DirPaths(seen)
      requires Passed(before, sets, seen, synced, inspect, limits)
      modifies this
      ensures Passed(before, sets, seen + [d], synced', inspect, limits)
      ensures synced <= synced' && (IsCalm() && d.readable ==> synced' == synced + {d.path})
    {
      ghost var was := sets;
      var ok := ScanSingleSet(d);
      PassedOneMore(before, was, sets, seen, d, synced, ok, inspect, limits);
      synced' := if ok then synced + {d.path} else synced;
    }

    method CleanVanishedSets(w: Walk, entryCount: nat) returns (ok: bool)
      requires !w.truncated
      modifies this
      ensures IsCalm() ==> ok
      ensures !ok ==> sets == old(sets)
      ensures ok ==> sets == match ActionFor(w, entryCount)
                             case Keep => old(sets)
                             case DropUnseen => map p | p in old(sets) && p in DirPaths(w.seen) :: old(sets)[p]
                             case DropAll => map[]
    {
      ok := Query();
      if !ok {
        return;
      }
      if |w.seen| > 0 {
        sets := map p | p in sets && p in DirPaths(w.seen) :: sets[p];
      } else if entryCount > 0 {
        sets := map[];
      }
    }
  }

  lemma OneEntryTwice(before: map<string, ImageSet>, mid: map<string, ImageSet>, after: map<string, ImageSet>,
                      dir: string)
    requires dir in mid && dir in after && mid == before[dir := mid[dir]] && after == mid[dir := after[dir]]
    ensures after == before[dir := after[dir]]
  {
  }

  lemma SeenOneMore(seen: seq<SetDir>, d: SetDir)
    ensures DirPaths(seen + [d]) == DirPaths(seen) + {d.path}
    ensures d in seen + [d] && forall e :: e in seen ==> e in seen + [d]
  {
    assert (seen + [d])[..|seen|] == seen;
    assert (seen + [d])[|seen|] == d;
  }

  /** The set as a scan of its directory leaves it, given the rows it had. */
  function SyncedFrom(d: SetDir, before: Rows, inspect: Inspector, limits: Limits): ImageSet {
    var c := Collect(d.entries, before, inspect, limits);
    Synced(d.name, c.items, c.total)
  }

  /** The sets of a directory have paths of their own, and so have their files. */
  ghost predicate AreSets(entries: seq<Option<SetDir>>) {
    && (forall i :: 0 <= i < |entries| && entries[i].Some? ==> AreApart(entries[i].value.entries))
    && (forall i, j :: 0 <= i < j < |entries| && entries[i].Some? && entries[j].Some? ==>
        entries[i].value.path != entries[j].value.path)
  }

  ghost predicate IsSynced(stored: ImageSet, d: SetDir, inspect: Inspector, limits: Limits) {
    exists before :: stored == SyncedFrom(d, before, inspect, limits)
  }

  /** Each set scanned through is stored as its files say, given the rows it had before the pass. */
  ghost predicate AreSynced(before: map<string, ImageSet>, sets: map<string, ImageSet>, seen: seq<SetDir>,
                            synced: set<string>, inspect: Inspector, limits: Limits) {
    forall d :: d in seen && d.path in synced ==>
        d.path in sets &&
        sets[d.path] == SyncedFrom(d, if d.path in before then before[d.path].rows else map[], inspect, limits)
  }

  /** What the walk over the sets keeps. */
  ghost predicate Passed(before: map<string, ImageSet>, sets: map<string, ImageSet>, seen: seq<SetDir>,
                         synced: set<string>, inspect: Inspector, limits: Limits) {
    && before.Keys <= sets.Keys <= before.Keys + DirPaths(seen)
    && synced <= DirPaths(seen)
    && AreSynced(before, sets, seen, synced, inspect, limits)
    && forall p :: p in before && p !in DirPaths(seen) ==> sets[p] == before[p]
  }

  lemma PassedOneMore(before: map<string, ImageSet>, was: map<string, ImageSet>, sets: map<string, ImageSet>,
                      seen: seq<SetDir>, d: SetDir, synced: set<string>, ok: bool, inspect: Inspector, limits: Limits)
    requires Passed(before, was, seen, synced, inspect, limits)
    requires d.path !in DirPaths(seen)
    requires was.Keys <= sets.Keys <= was.Keys + {d.path} && forall p :: p in was && p != d.path ==> sets[p] == was[p]
    requires ok ==>
        d.path in sets &&
        sets[d.path] == SyncedFrom(d, if d.path in was then was[d.path].rows else map[], inspect, limits)
    ensures Passed(before, sets, seen + [d], if ok then synced + {d.path} else synced, inspect, limits)
  {
    assert (seen + [d])[..|seen|] == seen;
    SeenPaths(seen);
  }

  lemma {:induction false} SeenPaths(seen: seq<SetDir>)
    ensures DirPaths(seen) == set d | d in seen :: d.path
  {
    if seen != [] {
      SeenPaths(seen[..|seen| - 1]);
      assert seen == seen[..|seen| - 1] + [seen[|seen| - 1]];
    }
  }

  /** A set comes up once only. */
  lemma SeenApart(entries: seq<Option<SetDir>>, i: nat, maxSets: nat)
    requires AreSets(entries) && i < |entries| && entries[i].Some?
    ensures entries[i].value.path !in DirPaths(WalkOf(entries[..i], maxSets).seen)
  {
    WalkPaths(entries, i, maxSets, entries[i].value.path);
  }

  lemma {:induction false} WalkPaths(entries: seq<Option<SetDir>>, i: nat, maxSets: nat, path: string)
    requires i <= |entries| && forall k :: 0 <= k < i && entries[k].Some? ==> entries[k].value.path != path
    ensures path !in DirPaths(WalkOf(entries[..i], maxSets).seen)
  {
    if i > 0 {
      WalkPaths(entries, i - 1, maxSets, path);
      assert entries[..i][..i - 1] == entries[..i - 1];
      var w := WalkOf(entries[..i - 1], maxSets);
      assert entries[i - 1].Some? ==> (w.seen + [entries[i - 1].value])[..|w.seen|] == w.seen;
    }
  }

  /** A set scanned through is left as it is by the next scan of the same files. */
  lemma RescanKeepsSet(d: SetDir, before: Rows, inspect: Inspector, limits: Limits)
    requires AreApart(d.entries)
    ensures var stored := SyncedFrom(d, before, inspect, limits);
            SyncedFrom(d, stored.rows, inspect, limits) == stored
  {
    SecondScanChangesNothing(d.entries, before, SyncedFrom(d, before, inspect, limits).rows, inspect, limits);
  }

  /** What a set synced over some rows holds: its rows are the files collected, in order; its summary agrees. */
  lemma SyncedSetAgrees(d: SetDir, before: Rows, inspect: Inspector, limits: Limits)
    requires AreApart(d.entries)
    ensures var stored, items := SyncedFrom(d, before, inspect, limits), Collect(d.entries, before, inspect,
        limits).items;
      && stored.title == d.name && Describes(stored, items, limits)
      && forall item :: item in items <==>
           exists k :: 0 <= k < |d.entries| && Takes(d.entries, k, before, inspect, limits, item)
  {
    var items := Collect(d.entries, before, inspect, limits).items;
    CollectKeepsCaps(d.entries, before, inspect, limits);
    CollectedApart(d.entries, before, inspect, limits);
    SyncedHoldsItems(d.name, items, TotalSize(items));
    forall item ensures item in items <==>
        exists k :: 0 <= k < |d.entries| && Takes(d.entries, k, before, inspect, limits, item) {
      CollectedIff(d.entries, before, inspect, limits, item);
    }
  }

  /** Under the limits of the source a set holds 2000 items at most, 2 GiB in all and 100 MiB each. */
  lemma SourceCapsHold(stored: ImageSet, d: SetDir, inspect: Inspector)
    requires IsSynced(stored, d, inspect, SOURCE_LIMITS) && AreApart(d.entries)
    ensures stored.count <= 2000 && stored.total <= 0x8000_0000
    ensures forall p :: p in stored.rows ==> stored.rows[p].size <= 100 * 0x10_0000
  {
    var before :| stored == SyncedFrom(d, before, inspect, SOURCE_LIMITS);
    var items := Collect(d.entries, before, inspect, SOURCE_LIMITS).items;
    SyncedSetAgrees(d, before, inspect, SOURCE_LIMITS);
    forall p | p in stored.rows ensures stored.rows[p].size <= 100 * 0x10_0000 {
      var i :| 0 <= i < |items| && items[i].path == p;
      assert HoldsItem(stored.rows, items[i], i);
    }
  }

  ghost predicate Describes(stored: ImageSet, items: seq<Item>, limits: Limits) {
    && HoldsItems(stored, items, TotalSize(items))
    && |items| <= limits.items && stored.total <= limits.setBytes
    && forall i :: 0 <= i < |items| ==> items[i].size <= limits.fileBytes
  }
}
