// The windows of src/MainStructure/FLApp.cpp and their indexes: creation, duplication, snapshots,
// sessions and closing.
module WindowIndexes {
  import opened KeyOrder
  import Connections

  const NUMBER_WINDOWS := 60

  // ---- the smallest free index ----

  ghost predicate Used(indexes: seq<int>, below: int) { forall k :: 1 <= k < below ==> k in indexes }

  // The least positive integer that is not in the list
  function FreeFrom(indexes: seq<int>, i: int): (free: int)
    requires 1 <= i <= |indexes| + 1
    requires Used(indexes, i)
    ensures i <= free && free !in indexes && Used(indexes, free)
    decreases |indexes| + 1 - i
  {
    if i in indexes then
      Pigeonhole(indexes, i + 1);
      FreeFrom(indexes, i + 1)
    else i
  }

  function SmallestFree(indexes: seq<int>): int { FreeFrom(indexes, 1) }

  // The integers from 1 to n - 1 do not fit in a list of less than n - 1 elements.
  lemma {:induction false} Pigeonhole(indexes: seq<int>, n: int)
    requires n >= 1 && Used(indexes, n)
    ensures n <= |indexes| + 1
    decreases |indexes|
  {
    if n > 1 {
      assert n - 1 in indexes;
      var at :| 0 <= at < |indexes| && indexes[at] == n - 1;
      var others := indexes[..at] + indexes[at + 1..];
      forall k | 1 <= k < n - 1 ensures k in others {
        assert k in indexes;
        var j :| 0 <= j < |indexes| && indexes[j] == k;
        if j < at {
          assert others[j] == k;
        } else {
          assert others[j - 1] == k;
        }
      }
      Pigeonhole(others, n - 1);
    }
  }

  lemma SmallestFreeIsLeast(indexes: seq<int>)
    ensures 1 <= SmallestFree(indexes) <= |indexes| + 1
    ensures SmallestFree(indexes) !in indexes
    ensures forall k :: k >= 1 && k !in indexes ==> SmallestFree(indexes) <= k
  {
    Pigeonhole(indexes, SmallestFree(indexes));
  }

  lemma SmallestFreeIs(indexes: seq<int>, i: int)
    requires i >= 1 && i !in indexes && Used(indexes, i)
    ensures i == SmallestFree(indexes)
  {
    SmallestFreeIsLeast(indexes);
  }

  // find_smallest_index: each round compares the next integer with the elements, up to one that is
  // equal to it. No round is made for an empty list.
  method FindSmallestIndex(currentIndexes: seq<int>) returns (i: int)
    ensures i == SmallestFree(currentIndexes)
  {
    var found := true;
    i := 0;
    while found && |currentIndexes| != 0
      invariant i >= 0 && Used(currentIndexes, i)
      invariant found <==> i == 0 || i in currentIndexes
      invariant i == 0 || |currentIndexes| != 0
      decreases |currentIndexes| + 1 - i
    {
      i := i + 1;
      Pigeonhole(currentIndexes, i);
      for j := 0 to |currentIndexes|
        invariant i !in currentIndexes[..j]
        invariant j > 0 ==> !found
      {
        if currentIndexes[j] == i {
          found := true;
          break;
        } else {
          found := false;
        }
      }
    }
    if i == 0 {
      i := 1;
    }
    SmallestFreeIs(currentIndexes, i);
  }

  // ---- the map from the indexes of a snapshot to indexes of windows ----

  // The indexes given to n windows one after the other, each one entering the list
  function Allocated(current: seq<int>, n: nat): (indexes: seq<int>)
    ensures |indexes| == n
    decreases n
  {
    if n == 0 then []
    else var i := SmallestFree(current); [i] + Allocated(current + [i], n - 1)
  }

  // They are new, they increase, and they are the least ones: no free index is left below any of them.
  lemma {:induction false} AllocatedAreLeast(current: seq<int>, n: nat)
    ensures Increasing(Allocated(current, n))
    ensures forall j :: 0 <= j < n ==> Allocated(current, n)[j] >= 1 && Allocated(current, n)[j] !in current
    ensures forall j, k :: 0 <= j < n && 1 <= k < Allocated(current, n)[j] ==>
              k in current || k in Allocated(current, n)
    decreases n
  {
    hide SmallestFree;
    if n > 0 {
      var i := SmallestFree(current);
      SmallestFreeIsLeast(current);
      var rest := Allocated(current + [i], n - 1);
      AllocatedAreLeast(current + [i], n - 1);
      assert Allocated(current, n) == [i] + rest;
      forall j | 0 <= j < |rest| ensures i < rest[j] && rest[j] !in current {
        assert rest[j] !in current + [i];
        assert i in current + [i];
      }
      forall j, k | 0 <= j < n && 1 <= k < ([i] + rest)[j] ensures k in current || k in [i] + rest {
        if j > 0 {
          assert ([i] + rest)[j] == rest[j - 1];
          assert k in current + [i] || k in rest;
        }
      }
    }
  }

  // indexChanges of recall_Snapshot
  function IndexChanges(keys: seq<int>, indexes: seq<int>): (changes: map<int, int>)
    requires |keys| == |indexes|
    ensures forall k :: k in changes <==> k in keys
  {
    if keys == [] then map[]
    else IndexChanges(keys[..|keys| - 1], indexes[..|keys| - 1])[keys[|keys| - 1] := indexes[|keys| - 1]]
  }

  lemma {:induction false} IndexChangesAt(keys: seq<int>, indexes: seq<int>, i: nat)
    requires |keys| == |indexes| && Increasing(keys) && i < |keys|
    ensures IndexChanges(keys, indexes)[keys[i]] == indexes[i]
  {
    if i < |keys| - 1 {
      IndexChangesAt(keys[..|keys| - 1], indexes[..|keys| - 1], i);
    }
  }

  ghost predicate Injective(changes: map<int, int>) {
    forall j, k :: j in changes && k in changes && changes[j] == changes[k] ==> j == k
  }

  // An import gives the windows of the snapshot indexes that differ from each other and that no open
  // window has.
  lemma ImportIsInjective(keys: seq<int>, current: seq<int>)
    requires Increasing(keys)
    ensures var changes := IndexChanges(keys, Allocated(current, |keys|));
            Injective(changes) && forall k :: k in changes ==> changes[k] >= 1 && changes[k] !in current
  {
    hide Allocated, IndexChanges;
    var indexes := Allocated(current, |keys|);
    var changes := IndexChanges(keys, indexes);
    AllocatedAreLeast(current, |keys|);
    forall j, k | j in changes && k in changes && changes[j] == changes[k] ensures j == k {
      var a :| 0 <= a < |keys| && keys[a] == j;
      var b :| 0 <= b < |keys| && keys[b] == k;
      IndexChangesAt(keys, indexes, a);
      IndexChangesAt(keys, indexes, b);
    }
    forall k | k in changes ensures changes[k] >= 1 && changes[k] !in current {
      var a :| 0 <= a < |keys| && keys[a] == k;
      IndexChangesAt(keys, indexes, a);
    }
  }

  // The changes of an import, while windows with these indexes are open
  function ImportChanges(sources: set<int>, current: seq<int>): map<int, int> {
    IndexChanges(InOrder(sources), Allocated(current, |InOrder(sources)|))
  }

  // The least free indexes, in the order of the windows of the snapshot
  ghost predicate LeastNew(changes: map<int, int>, current: seq<int>) {
    && (forall j, k :: j in changes && k in changes && j < k ==> changes[j] < changes[k])
    && (forall k :: k in changes ==> changes[k] >= 1 && changes[k] !in current)
    && (forall k, i :: k in changes && 1 <= i < changes[k] ==> i in current || i in changes.Values)
  }

  lemma ImportIsLeast(sources: set<int>, current: seq<int>)
    ensures ImportChanges(sources, current).Keys == sources && LeastNew(ImportChanges(sources, current), current)
  {
    hide Allocated, IndexChanges, InOrder, LeastNew;
    InOrderIncreases(sources);
    var keys := InOrder(sources);
    var indexes := Allocated(current, |keys|);
    var changes := IndexChanges(keys, indexes);
    AllocatedAreLeast(current, |keys|);
    forall i | 0 <= i < |keys| ensures keys[i] in changes && changes[keys[i]] == indexes[i] {
      IndexChangesAt(keys, indexes, i);
    }
    TableIsLeast(keys, indexes, changes, current);
    assert changes.Keys == sources;
  }

  lemma TableIsLeast(keys: seq<int>, indexes: seq<int>, changes: map<int, int>, current: seq<int>)
    requires |keys| == |indexes| && Increasing(keys) && Increasing(indexes)
    requires forall k :: k in changes <==> k in keys
    requires forall i :: 0 <= i < |keys| ==> keys[i] in changes && changes[keys[i]] == indexes[i]
    requires forall i :: 0 <= i < |keys| ==> indexes[i] >= 1 && indexes[i] !in current
    requires forall j, k :: 0 <= j < |keys| && 1 <= k < indexes[j] ==> k in current || k in indexes
    ensures LeastNew(changes, current)
  {
    forall j, k | j in changes && k in changes && j < k ensures changes[j] < changes[k] {
      var a :| 0 <= a < |keys| && keys[a] == j;
      var b :| 0 <= b < |keys| && keys[b] == k;
      assert a < b;
    }
    forall k | k in changes ensures changes[k] >= 1 && changes[k] !in current {
      var a :| 0 <= a < |keys| && keys[a] == k;
    }
    forall k, i | k in changes && 1 <= i < changes[k] ensures i in current || i in changes.Values {
      var a :| 0 <= a < |keys| && keys[a] == k;
      assert 1 <= i < indexes[a];
      if i in indexes {
        var b :| 0 <= b < |indexes| && indexes[b] == i;
        assert changes[keys[b]] == i;
      }
    }
  }

  // Hence the connections between the windows of a snapshot are the same graph after its import: two
  // ports of which the renaming is right get the same name only if they were the same.
  lemma ImportKeepsGraph(sources: set<int>, current: seq<int>, m: int, s: string, n: int, t: string)
    requires m in sources && n in sources
    requires var changes := ImportChanges(sources, current);
      && Connections.Right(Connections.MapOrder(changes.Keys), changes, m, s)
      && Connections.Right(Connections.MapOrder(changes.Keys), changes, n, t)
    ensures
      var changes := ImportChanges(sources, current);
      var table := Connections.Table(Connections.MapOrder(changes.Keys), changes);
      (Connections.Renamed(Connections.Port(m, s), table) == Connections.Renamed(Connections.Port(n, t), table))
      == (Connections.Port(m, s) == Connections.Port(n, t))
  {
    hide Allocated, IndexChanges, InOrder, Connections.Table, Connections.Renamed, Connections.Port;
    hide Connections.Right, Connections.MapOrder;
    InOrderIncreases(sources);
    ImportIsInjective(InOrder(sources), current);
    var changes := ImportChanges(sources, current);
    Connections.SamePorts(Connections.MapOrder(changes.Keys), changes, m, s, n, t);
    Connections.PortInjective(m, s, n, t);
  }

  // Without the condition it fails: when windows 1 and 2 are imported while window 1 is open, they become
  // windows 2 and 3, and these two ports become one.
  lemma ImportMergesPorts(s: string)
    ensures
      var changes := ImportChanges({1, 2}, [1]);
      var table := Connections.Table(Connections.MapOrder(changes.Keys), changes);
      var p, q := Connections.Port(2, Connections.Port(1, s)), Connections.Port(1, Connections.Port(2, s));
      p != q && Connections.Renamed(p, table) == Connections.Renamed(q, table)
  {
    hide Connections.Table, Connections.Renamed, Connections.Port, Connections.Right, InOrder, Connections.MapOrder;
    ImportOfTwo();
    TwoInMapOrder();
    TwoClients();
    hide Connections.Client;
    assert map[1 := 2, 2 := 3].Keys == {1, 2};
    Connections.MergedPorts(2, 1, 3, s);
  }

  lemma TwoInOrder()
    ensures InOrder({1, 2}) == [1, 2]
  {
    hide InOrder;
    InOrderIncreases({1, 2});
    var keys := InOrder({1, 2});
    assert keys[0] in keys && keys[1] in keys;
  }

  lemma TwoInMapOrder()
    ensures Connections.MapOrder({1, 2}) == [1, 2]
  {
    hide InOrder, Connections.InsertByText, Connections.TextOrder;
    TwoInOrder();
    Connections.MapOrderOf({1, 2});
    Connections.NoTextOrder();
    Connections.NextTextOrder([1, 2], 0);
    Connections.NextTextOrder([1, 2], 1);
    InsertTwo();
    assert [1, 2][..0] == [] && [1, 2][..1] == [1] && [1, 2][..2] == [1, 2];
  }

  lemma InsertTwo()
    ensures Connections.InsertByText([], 1) == [1] && Connections.InsertByText([1], 2) == [1, 2]
  {
    TwoClients();
    hide Connections.Client;
    assert !Connections.TextBefore("FLW-2", "FLW-1");
  }

  lemma TwoClients()
    ensures Connections.Client(1) == "FLW-1" && Connections.Client(2) == "FLW-2"
  {
  }

  lemma ImportOfTwo()
    ensures ImportChanges({1, 2}, [1]) == map[1 := 2, 2 := 3]
  {
    hide InOrder, Allocated, IndexChanges;
    TwoInOrder();
    AllocatedAreLeast([1], 2);
    var indexes := Allocated([1], 2);
    assert indexes[0] !in [1] && indexes[1] !in [1] && 1 in [1];
    assert 2 < indexes[0] ==> 2 in indexes;
    assert indexes[0] == 2;
    assert 3 < indexes[1] ==> 3 in indexes;
    IndexChangesAt([1, 2], indexes, 0);
    IndexChangesAt([1, 2], indexes, 1);
    assert IndexChanges([1, 2], indexes).Keys == {1, 2};
  }

  // ---- the windows of the application ----

  datatype Window = Window(index: int, source: string)

  function Indexes(windows: seq<Window>): (indexes: seq<int>)
    ensures |indexes| == |windows| && forall i :: 0 <= i < |windows| ==> indexes[i] == windows[i].index
  {
    if windows == [] then [] else [windows[0].index] + Indexes(windows[1..])
  }

  ghost predicate Distinct(windows: seq<Window>) {
    forall i, j :: 0 <= i < j < |windows| ==> windows[i].index != windows[j].index
  }

  ghost predicate Good(windows: seq<Window>) { Distinct(windows) && |windows| <= NUMBER_WINDOWS }

  // What createWindow leaves open: the limit is tested first, then the initialisation may fail.
  function Opened(windows: seq<Window>, w: Window, initialized: bool): seq<Window> {
    if |windows| >= NUMBER_WINDOWS || !initialized then windows else windows + [w]
  }

  // The windows restored one after the other
  function OpenedAll(windows: seq<Window>, restored: seq<Window>, initialized: int -> bool): seq<Window>
    decreases |restored|
  {
    if restored == [] then windows
    else OpenedAll(Opened(windows, restored[0], initialized(restored[0].index)), restored[1..], initialized)
  }

  lemma OpenedKeepsGood(windows: seq<Window>, w: Window, initialized: bool)
    requires Good(windows) && w.index !in Indexes(windows)
    ensures Good(Opened(windows, w, initialized))
  {
    if windows != Opened(windows, w, initialized) {
      forall i | 0 <= i < |windows| ensures windows[i].index != w.index {
        assert Indexes(windows)[i] == windows[i].index;
      }
    }
  }

  lemma IndexesOfAppend(windows: seq<Window>, w: Window)
    ensures Indexes(windows + [w]) == Indexes(windows) + [w.index]
  {
  }

  // Restored windows with new, distinct indexes: the open ones stay, the others follow them in order,
  // each one unless it failed, up to the limit.
  lemma {:induction false} OpenedAllIsGood(windows: seq<Window>, restored: seq<Window>, initialized: int -> bool)
    requires Good(windows) && Distinct(restored)
    requires forall i :: 0 <= i < |restored| ==> restored[i].index !in Indexes(windows)
    ensures Good(OpenedAll(windows, restored, initialized))
    ensures windows <= OpenedAll(windows, restored, initialized)
    decreases |restored|
  {
    hide Indexes, Good;
    if restored != [] {
      var next := Opened(windows, restored[0], initialized(restored[0].index));
      OpenedKeepsGood(windows, restored[0], initialized(restored[0].index));
      IndexesOfAppend(windows, restored[0]);
      OpenedAllIsGood(next, restored[1..], initialized);
    }
  }

  lemma {:induction false} OpenedAllAppend(windows: seq<Window>, restored: seq<Window>, w: Window,
                                           initialized: int -> bool)
    ensures OpenedAll(windows, restored + [w], initialized)
         == Opened(OpenedAll(windows, restored, initialized), w, initialized(w.index))
    decreases |restored|
  {
    hide Opened;
    if restored == [] {
      assert restored + [w] == [w];
      assert OpenedAll(windows, [w], initialized)
        == OpenedAll(Opened(windows, w, initialized(w.index)), [], initialized);
    } else {
      assert (restored + [w])[1..] == restored[1..] + [w];
      OpenedAllAppend(Opened(windows, restored[0], initialized(restored[0].index)), restored[1..], w, initialized);
    }
  }

  lemma OpenedNone(windows: seq<Window>, initialized: int -> bool)
    ensures OpenedAll(windows, [], initialized) == windows
  {
  }

  // All windows are open again when none fails and the limit is not reached.
  lemma {:induction false} OpenedAllCount(windows: seq<Window>, restored: seq<Window>, initialized: int -> bool)
    requires |windows| + |restored| <= NUMBER_WINDOWS
    requires forall i :: 0 <= i < |restored| ==> initialized(restored[i].index)
    ensures OpenedAll(windows, restored, initialized) == windows + restored
    decreases |restored|
  {
    if restored == [] {
      assert windows + restored == windows;
    } else {
      OpenedAllCount(windows + [restored[0]], restored[1..], initialized);
      assert windows + [restored[0]] + restored[1..] == windows + restored;
    }
  }

  // The windows that a snapshot restores
  function Restored(sources: map<int, string>, keys: seq<int>, changes: map<int, int>): (r: seq<Window>)
    requires forall i :: 0 <= i < |keys| ==> keys[i] in sources && keys[i] in changes
    ensures |r| == |keys|
  {
    seq(|keys|, i requires 0 <= i < |keys| => Window(changes[keys[i]], sources[keys[i]]))
  }

  // Behind the windows that were open: one window for each of these keys, in their order, with the index
  // and the source of its key. They are the keys whose window could be initialised, from the first on, and
  // all of them unless the limit is reached.
  ghost predicate Reopened(before: seq<Window>, after: seq<Window>, sources: map<int, string>,
                           changes: map<int, int>, initialized: int -> bool, ks: seq<int>) {
    && |after| == |before| + |ks| && after[..|before|] == before
    && Increasing(ks)
    && (forall i :: 0 <= i < |ks| ==>
         && ks[i] in sources && ks[i] in changes && initialized(changes[ks[i]])
         && after[|before| + i] == Window(changes[ks[i]], sources[ks[i]]))
    && (forall k :: k in sources && k in changes && initialized(changes[k]) && k !in ks ==>
         |after| >= 60 && forall j :: j in ks ==> j < k)
  }

  lemma {:induction false} OpenedAllExactly(windows: seq<Window>, sources: map<int, string>, keys: seq<int>,
                                            changes: map<int, int>, initialized: int -> bool)
    returns (ks: seq<int>)
    requires Increasing(keys) && forall i :: 0 <= i < |keys| ==> keys[i] in sources && keys[i] in changes
    ensures forall k :: k in ks ==> k in keys
    ensures Reopened(windows, OpenedAll(windows, Restored(sources, keys, changes), initialized),
                     Among(sources, keys), changes, initialized, ks)
  {
    hide OpenedAll, Opened;
    if keys == [] {
      OpenedNone(windows, initialized);
      assert Restored(sources, keys, changes) == [];
      ks := [];
      assert forall k :: k !in Among(sources, keys);
    } else {
      var n := |keys| - 1;
      var k, w := keys[n], Window(changes[keys[n]], sources[keys[n]]);
      ks := OpenedAllExactly(windows, sources, keys[..n], changes, initialized);
      assert Restored(sources, keys, changes) == Restored(sources, keys[..n], changes) + [w];
      OpenedAllAppend(windows, Restored(sources, keys[..n], changes), w, initialized);
      var before := OpenedAll(windows, Restored(sources, keys[..n], changes), initialized);
      OneMore(windows, before, sources, keys, changes, initialized, ks);
      if |before| < 60 && initialized(w.index) {
        ks := ks + [k];
      }
    }
  }

  // The sources of these keys
  function Among(sources: map<int, string>, keys: seq<int>): map<int, string> {
    map k | k in sources && k in keys :: sources[k]
  }

  lemma OneMore(windows: seq<Window>, before: seq<Window>, sources: map<int, string>, keys: seq<int>,
                changes: map<int, int>, initialized: int -> bool, ks: seq<int>)
    requires keys != [] && Increasing(keys) && forall i :: 0 <= i < |keys| ==> keys[i] in sources && keys[i] in changes
    requires forall k :: k in ks ==> k in keys[..|keys| - 1]
    requires Reopened(windows, before, Among(sources, keys[..|keys| - 1]), changes, initialized, ks)
    ensures
      var k := keys[|keys| - 1];
      var w := Window(changes[k], sources[k]);
      var more := |before| < 60 && initialized(w.index);
      Reopened(windows, Opened(before, w, initialized(w.index)), Among(sources, keys), changes, initialized,
               if more then ks + [k] else ks)
  {
    var n := |keys| - 1;
    var k := keys[n];
    forall j | j in ks ensures j < k {
      var i :| 0 <= i < n && keys[..n][i] == j;
      assert keys[i] == j;
    }
    AmongNext(sources, keys);
    hide Among;
    if |before| < 60 && initialized(changes[k]) {
      OneOpened(windows, before, Among(sources, keys[..n]), Among(sources, keys), changes, initialized, ks, k);
    } else {
      OneNotOpened(windows, before, Among(sources, keys[..n]), Among(sources, keys), changes, initialized, ks, k);
    }
  }

  lemma AmongNext(sources: map<int, string>, keys: seq<int>)
    requires keys != [] && keys[|keys| - 1] in sources
    ensures var k := keys[|keys| - 1];
      Among(sources, keys) == Among(sources, keys[..|keys| - 1])[k := sources[k]]
  {
    assert keys == keys[..|keys| - 1] + [keys[|keys| - 1]];
  }

  lemma OneOpened(windows: seq<Window>, before: seq<Window>, some: map<int, string>, all: map<int, string>,
                  changes: map<int, int>, initialized: int -> bool, ks: seq<int>, k: int)
    requires Reopened(windows, before, some, changes, initialized, ks) && |before| < 60
    requires k in all && all == some[k := all[k]] && (forall j :: j in ks ==> j < k)
    requires k in changes && initialized(changes[k])
    ensures Reopened(windows, before + [Window(changes[k], all[k])], all, changes, initialized, ks + [k])
  {
    assert forall i :: 0 <= i < |ks| ==> ks[i] in ks;
    assert forall j :: j in ks + [k] <==> j in ks || j == k;
  }

  lemma OneNotOpened(windows: seq<Window>, before: seq<Window>, some: map<int, string>, all: map<int, string>,
                     changes: map<int, int>, initialized: int -> bool, ks: seq<int>, k: int)
    requires Reopened(windows, before, some, changes, initialized, ks)
    requires k in all && all == some[k := all[k]] && (forall j :: j in ks ==> j < k)
    requires k in changes && (|before| >= 60 || !initialized(changes[k]))
    ensures Reopened(windows, before, all, changes, initialized, ks)
  {
    assert forall i :: 0 <= i < |ks| ==> ks[i] in ks;
  }

  lemma NothingReopened(sources: map<int, string>, initialized: int -> bool)
    requires |sources| == 0
    ensures sources == map[] && Reopened([], [], sources, map k | k in sources :: k, initialized, [])
  {
    assert sources == map[];
  }

  // Into no open window: none is open afterwards exactly when none could be initialised.
  lemma NoneReopened(after: seq<Window>, sources: map<int, string>, initialized: int -> bool)
    requires var same := map k | k in sources :: k; exists ks :: Reopened([], after, sources, same, initialized, ks)
    ensures after == [] <==> !exists k :: k in sources && initialized(k)
  {
    var ks :| Reopened([], after, sources, map k | k in sources :: k, initialized, ks);
    if after != [] {
      assert ks[0] in sources && initialized(ks[0]);
    }
  }

  // For all sources: the keys in their order
  lemma AllReopened(windows: seq<Window>, sources: map<int, string>, changes: map<int, int>, initialized: int -> bool)
    requires changes.Keys == sources.Keys
    ensures exists ks ::
      Reopened(windows, OpenedAll(windows, Restored(sources, InOrder(sources.Keys), changes), initialized),
               sources, changes, initialized, ks)
  {
    hide InOrder, OpenedAll, Reopened, Restored;
    InOrderIncreases(sources.Keys);
    var ks := OpenedAllExactly(windows, sources, InOrder(sources.Keys), changes, initialized);
    assert Among(sources, InOrder(sources.Keys)) == sources;
  }

  lemma RestoredDistinct(sources: map<int, string>, keys: seq<int>, changes: map<int, int>)
    requires forall i :: 0 <= i < |keys| ==> keys[i] in sources && keys[i] in changes
    requires Increasing(keys) && Injective(changes)
    ensures Distinct(Restored(sources, keys, changes))
  {
    var r := Restored(sources, keys, changes);
    forall i, j | 0 <= i < j < |r| ensures r[i].index != r[j].index {
      assert keys[i] in changes && keys[j] in changes;
    }
  }

  lemma RestoredNew(sources: map<int, string>, keys: seq<int>, changes: map<int, int>, used: seq<int>)
    requires forall i :: 0 <= i < |keys| ==> keys[i] in sources && keys[i] in changes
    requires forall k :: k in changes ==> changes[k] !in used
    ensures var r := Restored(sources, keys, changes);
            forall i :: 0 <= i < |r| ==> r[i].index !in used
  {
    var r := Restored(sources, keys, changes);
    forall i | 0 <= i < |r| ensures r[i].index !in used {
      var k := keys[i];
      assert k in changes && r[i].index == changes[k];
    }
  }

  function Identity(s: set<int>): map<int, int> { map k | k in s :: k }

  // The connection file of a window in a folder of windows; a missing file is read as an empty one.
  function TextIn(folder: map<int, string>, index: int): string {
    if index in folder then folder[index] else ""
  }

  // The application, with the open windows in the order of FLW_List, and the connection files of the
  // session folder, by window index
  class App {
    var windows: seq<Window>
    var files: map<int, string>
    var recalling: bool

    ghost predicate Valid()
      reads this
    {
      Good(windows)
    }

    constructor ()
      ensures Valid() && windows == [] && files == map[] && !recalling
    {
      windows, files, recalling := [], map[], false;
    }

    method GetCurrentIndexes() returns (indexes: seq<int>)
      ensures indexes == Indexes(windows)
    {
      indexes := [];
      for i := 0 to |windows|
        invariant indexes == Indexes(windows)[..i]
      {
        indexes := indexes + [windows[i].index];
      }
    }

    method CreateWindow(index: int, source: string, initialized: bool) returns (created: bool)
      requires Valid() && index !in Indexes(windows)
      modifies `windows
      ensures Valid()
      ensures windows == Opened(old(windows), Window(index, source), initialized)
      ensures windows == old(windows) + if |old(windows)| < 60 && initialized then [Window(index, source)] else []
      ensures created <==> initialized && |old(windows)| < NUMBER_WINDOWS
    {
      OpenedKeepsGood(windows, Window(index, source), initialized);
      if |windows| >= NUMBER_WINDOWS {
        return false;
      }
      if initialized {
        windows := windows + [Window(index, source)];
        return true;
      } else {
        return false;
      }
    }

    method CreateNewWindow(source: string, initialized: bool) returns (val: int)
      requires Valid()
      modifies `windows
      ensures Valid()
      ensures val == SmallestFree(Indexes(old(windows)))
      ensures windows == old(windows) + if |old(windows)| < 60 && initialized then [Window(val, source)] else []
    {
      var indexes := GetCurrentIndexes();
      val := FindSmallestIndex(indexes);
      SmallestFreeIsLeast(indexes);
      var created := CreateWindow(val, source, initialized);
    }

    method CopyWindowFolder(newIndex: int, folder: map<int, string>, index: int, indexChanges: map<int, int>)
      modifies `files
      ensures files == old(files)[newIndex := Connections.Changed(if index in folder then folder[index] else "",
                                                                  indexChanges)]
    {
      hide Connections.Changed;
      var jc := new Connections.ConnectionFile(TextIn(folder, index));
      jc.ChangeIndexes(indexChanges);
      files := files[newIndex := jc.text];
    }

    // The window is saved first, with its current connections. Its folder is then copied, with its
    // index changed to the new one.
    method Duplicate(window: Window, connections: string, initialized: bool) returns (val: int)
      requires Valid() && window in windows
      modifies `windows, `files
      ensures Valid()
      ensures val == SmallestFree(Indexes(old(windows))) && val != window.index
      ensures windows == old(windows) + if |old(windows)| < 60 && initialized then [Window(val, window.source)] else []
      ensures files == old(files)[window.index := connections]
                                 [val := Connections.Changed(connections, map[window.index := val])]
    {
      hide Connections.Changed, SmallestFree;
      var indexes := GetCurrentIndexes();
      val := FindSmallestIndex(indexes);
      SmallestFreeIsLeast(indexes);
      var at :| 0 <= at < |windows| && windows[at] == window;
      assert indexes[at] == window.index;
      files := files[window.index := connections];
      CopyWindowFolder(val, files, window.index, map[window.index := val]);
      var created := CreateWindow(val, window.source, initialized);
    }

    // recall_Snapshot: the windows of an import get free indexes, those of a recall keep theirs,
    // after all windows are shut. `folder` are the connection files of the snapshot: each restored
    // window gets its own, with the windows of the snapshot moved to their new indexes.
    method RecallSnapshot(sources: map<int, string>, folder: map<int, string>, importOption: bool,
                          initialized: int -> bool)
      returns (indexChanges: map<int, int>)
      requires Valid()
      modifies this
      ensures Valid()
      ensures indexChanges.Keys == sources.Keys && Injective(indexChanges)
      ensures importOption ==> LeastNew(indexChanges, Indexes(old(windows)))
      ensures importOption ==> indexChanges == ImportChanges(sources.Keys, Indexes(old(windows)))
      ensures !importOption ==> forall k :: k in sources ==> indexChanges[k] == k
      ensures var before := if importOption then old(windows) else [];
        exists ks :: Reopened(before, windows, sources, indexChanges, initialized, ks)
      ensures importOption ==> old(windows) <= windows
      ensures importOption ==> forall w :: w in old(windows) ==> SameFile(old(files), files, w.index)
      ensures OthersKept(old(files), files, indexChanges, if importOption then {} else IndexSet(old(windows)))
      ensures forall k :: k in sources ==>
        HasConnections(files, indexChanges[k], if k in folder then folder[k] else "", indexChanges)
    {
      hide InOrder, Opened, OpenedAll, Indexes, Distinct, Increasing, Allocated, IndexChanges, Restored;
      hide HasConnections, HasCopy, SameFile, Reopened, LeastNew, OthersKept, IndexSet;
      recalling := true;
      if !importOption {
        ShutAllWindows();
      }
      var currentIndexes := GetCurrentIndexes();
      indexChanges := MapIndexes(InOrder(sources.Keys), currentIndexes, importOption);
      InOrderIncreases(sources.Keys);
      if importOption {
        ImportIsInjective(InOrder(sources.Keys), currentIndexes);
        ImportIsLeast(sources.Keys, currentIndexes);
        OldIndexesKept(windows, indexChanges);
      }
      ghost var shut := files;
      RestoreAll(sources, folder, indexChanges, initialized);
      OthersAreKept(old(files), shut, files, indexChanges, if importOption then {} else IndexSet(old(windows)));
      forall k | k in sources
        ensures HasConnections(files, indexChanges[k], TextIn(folder, k), indexChanges)
      {
        CopyHasConnections(files, indexChanges[k], TextIn(folder, k), indexChanges);
      }
      recalling := false;
    }

    // The second loop of recall_Snapshot
    method RestoreAll(sources: map<int, string>, folder: map<int, string>, indexChanges: map<int, int>,
                      initialized: int -> bool)
      requires Valid() && indexChanges.Keys == sources.Keys && Injective(indexChanges)
      requires forall k :: k in indexChanges ==> indexChanges[k] !in Indexes(windows)
      modifies `windows, `files
      ensures Valid()
      ensures old(windows) <= windows
      ensures exists ks :: Reopened(old(windows), windows, sources, indexChanges, initialized, ks)
      ensures forall k :: k in sources ==> HasCopy(files, indexChanges[k], TextIn(folder, k), indexChanges)
      ensures forall n :: n !in indexChanges.Values ==> SameFile(old(files), files, n)
    {
      hide InOrder, Opened, OpenedAll, Indexes, Distinct, Increasing, Connections.Changed;
      hide HasCopy, SameFile, Injective, Reopened;
      AllReopened(windows, sources, indexChanges, initialized);
      NothingChanged(files);
      var keys := InOrder(sources.Keys);
      InOrderIncreases(sources.Keys);
      ghost var restored := Restored(sources, keys, indexChanges);
      RestoredDistinct(sources, keys, indexChanges);
      RestoredNew(sources, keys, indexChanges, Indexes(windows));
      OpenedAllIsGood(windows, restored, initialized);
      OpenedNone(windows, initialized);
      for i := 0 to |keys|
        invariant Valid()
        invariant windows == OpenedAll(old(windows), restored[..i], initialized)
        invariant forall j :: 0 <= j < i ==>
                    HasCopy(files, indexChanges[keys[j]], TextIn(folder, keys[j]), indexChanges)
        invariant forall n :: n !in indexChanges.Values ==> SameFile(old(files), files, n)
      {
        var index := indexChanges[keys[i]];
        CopyAdds(old(files), files, folder, keys, indexChanges, i);
        CopyWindowFolder(index, folder, keys[i], indexChanges);
        NextIsNew(old(windows), restored, i, initialized);
        var created := CreateWindow(index, sources[keys[i]], initialized(index));
      }
      assert restored[..|keys|] == restored;
    }

    method RestoreSession(sources: map<int, string>, initialized: int -> bool)
      requires Valid() && windows == []
      modifies `windows
      ensures Valid()
      ensures var same := map k | k in sources :: k;
        exists ks :: Reopened([], windows, sources, same, initialized, ks)
    {
      hide InOrder, Opened, OpenedAll, Distinct, Increasing, Reopened;
      assert Identity(sources.Keys) == map k | k in sources :: k;
      AllReopened([], sources, Identity(sources.Keys), initialized);
      var keys := InOrder(sources.Keys);
      InOrderIncreases(sources.Keys);
      ghost var restored := Restored(sources, keys, Identity(sources.Keys));
      RestoredDistinct(sources, keys, Identity(sources.Keys));
      OpenedAllIsGood(windows, restored, initialized);
      OpenedNone(windows, initialized);
      for i := 0 to |keys|
        invariant Valid()
        invariant windows == OpenedAll([], restored[..i], initialized)
      {
        NextIsNew([], restored, i, initialized);
        var created := CreateWindow(keys[i], sources[keys[i]], initialized(keys[i]));
      }
      assert restored[..|keys|] == restored;
    }

    // restoreSession, at the start of the application: the saved windows keep their indexes. If none
    // could be opened, it is tried once more with the default audio architecture.
    method RecallCurrentSession(sources: map<int, string>, initialized: int -> bool, again: int -> bool)
      returns (restored: bool)
      requires Valid() && windows == []
      modifies this
      ensures Valid() && restored == (sources != map[])
      ensures var same := map k | k in sources :: k;
        var taken := if exists k :: k in sources && initialized(k) then initialized else again;
        exists ks :: Reopened([], windows, sources, same, taken, ks)
    {
      hide Reopened;
      if |sources| == 0 {
        NothingReopened(sources, again);
        return false;
      }
      recalling := true;
      RestoreSession(sources, initialized);
      NoneReopened(windows, sources, initialized);
      if |windows| == 0 {
        RestoreSession(sources, again);
      }
      recalling := false;
      return true;
    }

    // shutWindow deletes the folder of the window.
    method CommonShutAction(window: Window)
      requires Valid() && window in windows
      modifies `windows, `files
      ensures Valid() && window !in windows
      ensures exists at :: 0 <= at < |old(windows)| && old(windows)[at] == window
                && windows == old(windows)[..at] + old(windows)[at + 1..]
      ensures files == old(files) - {window.index}
    {
      var at := 0;
      while windows[at] != window
        invariant 0 <= at < |windows| && window !in windows[..at]
        decreases |windows| - at
      {
        at := at + 1;
        assert window in windows[at..];
      }
      windows := windows[..at] + windows[at + 1..];
      files := files - {window.index};
    }

    method ShutAllWindows()
      requires Valid()
      modifies `windows, `files
      ensures Valid() && windows == []
      ensures files == old(files) - IndexSet(old(windows))
    {
      while |windows| != 0
        invariant Valid()
        invariant files == old(files) - (IndexSet(old(windows)) - IndexSet(windows))
        invariant IndexSet(windows) <= IndexSet(old(windows))
        decreases |windows|
      {
        var first := windows[0];
        ghost var before := windows;
        CommonShutAction(first);
        IndexesAfterRemoval(before, windows, first);
      }
    }

    method CloseAllWindows()
      requires Valid()
      modifies `windows
      ensures Valid() && windows == if recalling then old(windows) else []
    {
      if recalling {
        return;
      }
      windows := [];
    }
  }

  ghost predicate SameFile(before: map<int, string>, after: map<int, string>, index: int) {
    (index in before <==> index in after) && (index in before ==> before[index] == after[index])
  }

  // The files of these windows are gone, and all others but those of the restored windows are as before.
  ghost predicate OthersKept(before: map<int, string>, after: map<int, string>, changes: map<int, int>,
                             gone: set<int>)
  {
    forall n :: n !in changes.Values ==> if n in gone then n !in after else SameFile(before, after, n)
  }

  lemma OthersAreKept(before: map<int, string>, shut: map<int, string>, after: map<int, string>,
                      changes: map<int, int>, gone: set<int>)
    requires shut == before - gone && forall n :: n !in changes.Values ==> SameFile(shut, after, n)
    ensures OthersKept(before, after, changes, gone)
  {
    forall n | n !in changes.Values ensures if n in gone then n !in after else SameFile(before, after, n) {
      assert SameFile(shut, after, n);
    }
  }

  function IndexSet(windows: seq<Window>): set<int> { set w | w in windows :: w.index }

  // The file of a window is the copy of this text, with the changes of indexes.
  ghost predicate HasCopy(files: map<int, string>, index: int, text: string, changes: map<int, int>) {
    index in files && files[index] == Connections.Changed(text, changes)
  }

  // If the text was saved from connections, then the file gives them back with every window moved, exactly
  // when the renaming treats every end of them right.
  ghost predicate HasConnections(files: map<int, string>, index: int, text: string, changes: map<int, int>) {
    index in files && forall ends ::
      Connections.AllClean(Connections.Names(ends)) && text == Connections.Saved(Connections.Names(ends)) ==>
        (Connections.RightEnds(ends, changes) <==>
         Connections.Recalled(files[index]) == Connections.Names(Connections.AllMoved(ends, changes)))
  }

  lemma CopyHasConnections(files: map<int, string>, index: int, text: string, changes: map<int, int>)
    requires HasCopy(files, index, text, changes)
    ensures HasConnections(files, index, text, changes)
  {
    hide Connections.Changed, Connections.RightEnds, Connections.Names, Connections.AllMoved;
    hide Connections.Saved, Connections.Recalled, Connections.AllClean;
    forall ends | Connections.AllClean(Connections.Names(ends)) && text == Connections.Saved(Connections.Names(ends))
      ensures Connections.RightEnds(ends, changes) <==>
        Connections.Recalled(files[index]) == Connections.Names(Connections.AllMoved(ends, changes))
    {
      Connections.ImportMovesWindows(changes, ends);
    }
  }

  lemma NothingChanged(files: map<int, string>)
    ensures forall n :: SameFile(files, files, n)
  {
  }

  // One more copied file: those before it stay, and so do the files of no restored window.
  lemma CopyAdds(before: map<int, string>, files: map<int, string>, folder: map<int, string>, keys: seq<int>,
                 changes: map<int, int>, i: nat)
    requires Increasing(keys) && i < |keys| && Injective(changes)
    requires forall j :: 0 <= j < |keys| ==> keys[j] in changes
    requires forall j :: 0 <= j < i ==> HasCopy(files, changes[keys[j]], TextIn(folder, keys[j]), changes)
    requires forall n :: n !in changes.Values ==> SameFile(before, files, n)
    ensures var after := files[changes[keys[i]] := Connections.Changed(TextIn(folder, keys[i]), changes)];
      && (forall j :: 0 <= j <= i ==> HasCopy(after, changes[keys[j]], TextIn(folder, keys[j]), changes))
      && (forall n :: n !in changes.Values ==> SameFile(before, after, n))
  {
    hide Connections.Changed;
    assert forall j :: 0 <= j < i ==> keys[j] in changes && changes[keys[j]] != changes[keys[i]];
    assert changes[keys[i]] in changes.Values;
  }

  lemma IndexSetAppend(s: seq<Window>, t: seq<Window>)
    ensures IndexSet(s + t) == IndexSet(s) + IndexSet(t)
  {
    assert forall w :: w in s + t <==> w in s || w in t;
  }

  lemma IndexesAfterRemoval(before: seq<Window>, after: seq<Window>, w: Window)
    requires Distinct(before)
    requires exists at :: 0 <= at < |before| && before[at] == w && after == before[..at] + before[at + 1..]
    ensures IndexSet(after) == IndexSet(before) - {w.index} && w.index in IndexSet(before)
  {
    var at :| 0 <= at < |before| && before[at] == w && after == before[..at] + before[at + 1..];
    hide IndexSet, Distinct;
    var s, t := before[..at], before[at + 1..];
    assert before == s + ([w] + t);
    IndexesWithout(s, w, t);
  }

  lemma IndexesWithout(s: seq<Window>, w: Window, t: seq<Window>)
    requires Distinct(s + ([w] + t))
    ensures IndexSet(s + t) == IndexSet(s + ([w] + t)) - {w.index} && w.index in IndexSet(s + ([w] + t))
  {
    OthersDiffer(s, w, t);
    hide IndexSet, Distinct;
    IndexSetAppend(s, [w] + t);
    IndexSetAppend([w], t);
    IndexSetAppend(s, t);
    IndexSetOfOne(w);
    IndexNotIn(s, w.index);
    IndexNotIn(t, w.index);
  }

  lemma OthersDiffer(s: seq<Window>, w: Window, t: seq<Window>)
    requires Distinct(s + ([w] + t))
    ensures forall i :: 0 <= i < |s| ==> s[i].index != w.index
    ensures forall i :: 0 <= i < |t| ==> t[i].index != w.index
  {
    var all := s + ([w] + t);
    assert all[|s|] == w;
    assert forall i :: 0 <= i < |s| ==> all[i] == s[i];
    assert forall i :: 0 <= i < |t| ==> all[|s| + 1 + i] == t[i];
  }

  lemma IndexSetOfOne(w: Window)
    ensures IndexSet([w]) == {w.index}
  {
    assert w in [w];
  }

  lemma IndexNotIn(windows: seq<Window>, n: int)
    requires forall i :: 0 <= i < |windows| ==> windows[i].index != n
    ensures n !in IndexSet(windows)
  {
  }

  lemma OldIndexesKept(windows: seq<Window>, changes: map<int, int>)
    requires forall k :: k in changes ==> changes[k] !in Indexes(windows)
    ensures forall w :: w in windows ==> w.index !in changes.Values
  {
    forall w | w in windows ensures w.index !in changes.Values {
      var i :| 0 <= i < |windows| && windows[i] == w;
      assert Indexes(windows)[i] == w.index;
      assert forall k :: k in changes ==> changes[k] != w.index;
    }
  }

  // The first loop of recall_Snapshot
  method MapIndexes(keys: seq<int>, current: seq<int>, importOption: bool) returns (indexChanges: map<int, int>)
    ensures importOption ==> indexChanges == IndexChanges(keys, Allocated(current, |keys|))
    ensures !importOption ==> indexChanges == map k | k in keys :: k
  {
    hide SmallestFree;
    indexChanges := map[];
    var currentIndexes := current;
    ghost var given: seq<int> := [];
    for i := 0 to |keys|
      invariant |given| == i && indexChanges == IndexChanges(keys[..i], given)
      invariant importOption ==> Allocated(current, |keys|) == given + Allocated(currentIndexes, |keys| - i)
      invariant !importOption ==> given == keys[..i]
    {
      var indexValue;
      if importOption {
        indexValue := FindSmallestIndex(currentIndexes);
      } else {
        indexValue := keys[i];
      }
      assert keys[..i + 1][..i] == keys[..i] && (given + [indexValue])[..i] == given;
      indexChanges := indexChanges[keys[i] := indexValue];
      currentIndexes := currentIndexes + [indexValue];
      given := given + [indexValue];
    }
    assert keys[..|keys|] == keys;
    if importOption {
      assert given + [] == given;
    } else {
      KeysUnchanged(keys);
    }
  }

  lemma {:induction false} KeysUnchanged(keys: seq<int>)
    ensures IndexChanges(keys, keys) == map k | k in keys :: k
  {
    if keys != [] {
      KeysUnchanged(keys[..|keys| - 1]);
      assert keys == keys[..|keys| - 1] + [keys[|keys| - 1]];
    }
  }

  // While windows are restored, the next index is still free.
  lemma {:induction false} NextIsNew(windows: seq<Window>, restored: seq<Window>, i: nat, initialized: int -> bool)
    requires Distinct(restored) && i < |restored|
    requires forall j :: 0 <= j < |restored| ==> restored[j].index !in Indexes(windows)
    ensures restored[i].index !in Indexes(OpenedAll(windows, restored[..i], initialized))
    ensures OpenedAll(windows, restored[..i + 1], initialized)
         == Opened(OpenedAll(windows, restored[..i], initialized), restored[i], initialized(restored[i].index))
    decreases i
  {
    hide Indexes;
    assert restored[..i + 1] == restored[..i] + [restored[i]];
    OpenedAllAppend(windows, restored[..i], restored[i], initialized);
    if i == 0 {
      assert restored[..0] == [];
    } else {
      var next := Opened(windows, restored[0], initialized(restored[0].index));
      IndexesOfAppend(windows, restored[0]);
      assert restored[..i][1..] == restored[1..][..i - 1];
      NextIsNew(next, restored[1..], i - 1, initialized);
    }
  }
}
