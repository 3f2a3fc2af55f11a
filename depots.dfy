/** The two ways the scripts write a new depot placement into a scenario file: the
    filter-and-insert of `update_gdb_with_third_radius` and the filter-and-append of
    `update_all_instances`. Both drop the old `DEPOT:` and vehicle-count lines and write
    `NUMBER OF VEHICLES: <number of depots>` and `DEPOT: <sorted depots, comma-joined>`. */
module DepotRewrite {
  import opened Wrappers
  import opened Strings
  import opened Graphs
  import opened Rebalance
  import ScenarioParser

  // Sorting the depot set.

  lemma MinimumExists(s: set<int>)
    requires s != {}
    ensures exists m :: m in s && forall x :: x in s ==> m <= x
    decreases |s|
  {
    var y := Member(s);
    if s - {y} != {} {
      MinimumExists(s - {y});
      var m :| m in s - {y} && forall x :: x in s - {y} ==> m <= x;
      var least := if y < m then y else m;
      forall x | x in s ensures least <= x {
        if x != y {
          assert x in s - {y};
        }
      }
    } else {
      forall x | x in s ensures y <= x {
        assert x !in s - {y};
      }
    }
  }

  /** Some element of a non-empty set. */
  lemma Member(s: set<int>) returns (y: int)
    requires s != {}
    ensures y in s
  {
    if forall x :: x !in s {
      assert false;
    }
    y :| y in s;
  }

  /** The least element of a non-empty set. */
  function SetMin(s: set<int>): (m: int)
    requires s != {}
    ensures m in s && forall x :: x in s ==> m <= x
  {
    MinimumExists(s);
    var m :| m in s && forall x :: x in s ==> m <= x;
    m
  }

  /** Each element of `r` is smaller than the next. */
  predicate Increasing(r: seq<int>) {
    forall i, j :: 0 <= i < j < |r| ==> r[i] < r[j]
  }

  lemma IncreasingCons(m: int, rest: seq<int>)
    requires Increasing(rest)
    requires forall j :: 0 <= j < |rest| ==> m < rest[j]
    ensures Increasing([m] + rest)
  {
    var r := [m] + rest;
    forall i, j | 0 <= i < j < |r| ensures r[i] < r[j] {
      assert r[j] == rest[j - 1];
      if i > 0 {
        assert r[i] == rest[i - 1];
      }
    }
  }

  lemma ElemsCons(m: int, rest: seq<int>)
    ensures Elems([m] + rest) == {m} + Elems(rest)
  {
    assert forall x :: x in [m] + rest <==> x == m || x in rest;
  }

  /** `sorted(depots)`: the elements of the set, each once, in ascending order. */
  function SortedIds(s: set<int>): (r: seq<int>)
    ensures |r| == |s| && Elems(r) == s && Increasing(r)
    decreases |s|
  {
    if s == {} then []
    else
      var m := SetMin(s);
      var rest := SortedIds(s - {m});
      SortedStep(s, m, rest);
      [m] + rest
  }

  /** Putting the least element in front of the sorted rest sorts the whole set. */
  lemma SortedStep(s: set<int>, m: int, rest: seq<int>)
    requires m in s && forall x :: x in s ==> m <= x
    requires |rest| == |s - {m}| && Elems(rest) == s - {m} && Increasing(rest)
    ensures |s - {m}| == |s| - 1
    ensures |[m] + rest| == |s| && Elems([m] + rest) == s && Increasing([m] + rest)
  {
    forall j | 0 <= j < |rest| ensures m < rest[j] {
      assert rest[j] in Elems(rest);
    }
    IncreasingCons(m, rest);
    ElemsCons(m, rest);
  }

  /** `map(str, ds)`. */
  function IntStrings(ds: seq<int>): (r: seq<string>)
    ensures |r| == |ds| && forall i :: 0 <= i < |ds| ==> r[i] == IntToString(ds[i])
  {
    if ds == [] then [] else [IntToString(ds[0])] + IntStrings(ds[1..])
  }

  // The two lines both rewrites produce.

  /** `"DEPOT: " + ",".join(map(str, sorted(depots))) + "\n"`. */
  function DepotLine(depots: set<int>): string {
    DepotKey + " " + DepotList(depots) + "\n"
  }

  /** `",".join(map(str, sorted(depots)))`. */
  function DepotList(depots: set<int>): string {
    Join(IntStrings(SortedIds(depots)), ',')
  }

  /** `f"NUMBER OF VEHICLES: {len(depots)}\n"`: the number of vehicles is the number of
      depots, with no minimum of two. */
  function VehicleLine(depots: set<int>): string {
    CountLine(VehiclesKey, |depots|)
  }

  // Filtering.

  /** `[l for l in lines if not drop(l)]`. */
  function Filter(lines: seq<string>, drop: string -> bool): (r: seq<string>)
    ensures |r| <= |lines|
    ensures forall i :: 0 <= i < |r| ==> !drop(r[i])
    decreases |lines|
  {
    if lines == [] then []
    else
      var last := lines[|lines| - 1];
      Filter(lines[..|lines| - 1], drop) + (if drop(last) then [] else [last])
  }

  lemma {:induction false} FilterAppend(a: seq<string>, b: seq<string>, drop: string -> bool)
    ensures Filter(a + b, drop) == Filter(a, drop) + Filter(b, drop)
    decreases |b|
  {
    if b == [] {
      assert a + b == a;
    } else {
      var b' := b[..|b| - 1];
      assert (a + b)[..|a + b| - 1] == a + b';
      assert (a + b)[|a + b| - 1] == b[|b| - 1];
      FilterAppend(a, b', drop);
    }
  }

  /** Lines that are all kept come through as they are. */
  lemma {:induction false} FilterKeepsAll(lines: seq<string>, drop: string -> bool)
    requires forall i :: 0 <= i < |lines| ==> !drop(lines[i])
    ensures Filter(lines, drop) == lines
    decreases |lines|
  {
    if lines != [] {
      FilterKeepsAll(lines[..|lines| - 1], drop);
    }
  }

  /** A line is kept exactly when it is a line of the input that `drop` rejects. */
  lemma {:induction false} FilterMembers(lines: seq<string>, drop: string -> bool, x: string)
    ensures x in Filter(lines, drop) <==> x in lines && !drop(x)
    decreases |lines|
  {
    if lines != [] {
      var init := lines[..|lines| - 1];
      FilterMembers(init, drop, x);
      assert lines == init + [lines[|lines| - 1]];
    }
  }

  /** The list comprehension, as the loop it stands for. */
  method FilterLines(lines: seq<string>, drop: string -> bool) returns (r: seq<string>)
    ensures r == Filter(lines, drop)
  {
    r := [];
    for i := 0 to |lines|
      invariant r == Filter(lines[..i], drop)
    {
      var l := lines[i];
      assert lines[..i + 1][..i] == lines[..i];
      if !drop(l) {
        r := r + [l];
      }
    }
    assert lines[..|lines|] == lines;
  }

  /** `s` with `x` inserted before position `k` (`s.insert(k, x)`). */
  function InsertAt(s: seq<string>, k: nat, x: string): (r: seq<string>)
    requires k <= |s|
    ensures |r| == |s| + 1
  {
    s[..k] + [x] + s[k..]
  }

  /** What stands at position `j` after the insertion. */
  lemma InsertAtIndex(s: seq<string>, k: nat, x: string, j: nat)
    requires k <= |s| && j <= |s|
    ensures InsertAt(s, k, x)[j] == if j < k then s[j] else if j == k then x else s[j - 1]
  {}

  lemma FilterDropped(x: string, drop: string -> bool)
    requires drop(x)
    ensures Filter([x], drop) == []
  {
    assert [x][..0] == [];
  }

  lemma FilterInsertMid(a: seq<string>, x: string, b: seq<string>, drop: string -> bool)
    requires drop(x)
    ensures Filter(a + [x] + b, drop) == Filter(a + b, drop)
  {
    FilterAppend(a + [x], b, drop);
    FilterAppend(a, [x], drop);
    FilterDropped(x, drop);
    FilterAppend(a, b, drop);
  }

  /** Inserting a line that the filter drops does not change what the filter keeps. */
  lemma FilterInsert(s: seq<string>, k: nat, x: string, drop: string -> bool)
    requires k <= |s| && drop(x)
    ensures Filter(InsertAt(s, k, x), drop) == Filter(s, drop)
  {
    var pre, post := s[..k], s[k..];
    assert InsertAt(s, k, x) == pre + [x] + post;
    assert pre + post == s;
    FilterInsertMid(pre, x, post, drop);
  }

  /** Inserting a line that `accept` rejects into lines that `accept` all rejects leaves
      no accepted line. */
  lemma InsertShiftNone(s: seq<string>, k: nat, x: string, accept: string -> bool)
    requires k <= |s| && !accept(x)
    requires FirstWhere(s, accept).None?
    ensures FirstWhere(InsertAt(s, k, x), accept).None?
  {
    var t := InsertAt(s, k, x);
    forall j | 0 <= j < |t| ensures !accept(t[j]) {
      InsertAtIndex(s, k, x, j);
    }
  }

  /** Inserting a line that `accept` rejects moves the first accepted line by one when it
      was at or after the insertion point. */
  lemma InsertShiftSome(s: seq<string>, k: nat, x: string, accept: string -> bool, m: nat)
    requires k <= |s| && !accept(x)
    requires FirstWhere(s, accept) == Some(m)
    ensures FirstWhere(InsertAt(s, k, x), accept) == Some(if m < k then m else m + 1)
  {
    var m' := if m < k then m else m + 1;
    InsertAtIndex(s, k, x, m');
    InsertKeepsRejected(s, k, x, accept, m);
    FirstWhereAt(InsertAt(s, k, x), accept, m');
  }

  /** Inserting a rejected line into a rejected prefix gives a rejected prefix one longer
      when the insertion falls inside it. */
  lemma InsertKeepsRejected(s: seq<string>, k: nat, x: string, accept: string -> bool, m: nat)
    requires k <= |s| && m <= |s| && !accept(x)
    requires forall j :: 0 <= j < m ==> !accept(s[j])
    ensures forall j :: 0 <= j < (if m < k then m else m + 1) ==> !accept(InsertAt(s, k, x)[j])
  {
    var t := InsertAt(s, k, x);
    forall j | 0 <= j < (if m < k then m else m + 1) ensures !accept(t[j]) {
      InsertAtIndex(s, k, x, j);
    }
  }

  /** `for i, l in enumerate(lines): if accept(l): lines.insert(i + offset, x); break`. */
  function InsertAtFirst(lines: seq<string>, accept: string -> bool, offset: nat, x: string): seq<string>
    requires offset <= 1
  {
    match FirstWhere(lines, accept)
    case None => lines
    case Some(i) => InsertAt(lines, i + offset, x)
  }

  /** The insertion loop: it scans for the first accepted line, inserts `x` beside it
      and stops. */
  method InsertBesideFirst(lines: seq<string>, accept: string -> bool, offset: nat, x: string)
    returns (r: seq<string>)
    requires offset <= 1
    ensures r == InsertAtFirst(lines, accept, offset, x)
  {
    r := lines;
    for i := 0 to |lines|
      invariant forall j :: 0 <= j < i ==> !accept(lines[j])
    {
      if accept(lines[i]) {
        FirstWhereAt(lines, accept, i);
        r := lines[..i + offset] + [x] + lines[i + offset..];
        return;
      }
    }
  }

  // The filter-and-insert of `update_gdb_with_third_radius`.

  /** The lines it removes: raw text starting with `DEPOT:` or `NUMBER OF VEHICLES:`. */
  predicate OldLineRaw(l: string) {
    StartsWith(l, DepotKey) || StartsWith(l, VehiclesKey)
  }

  /** The line the vehicle count goes after: raw text starting with `VEHICLE CAPACITY`. */
  predicate IsCapacityLine(l: string) {
    StartsWith(l, "VEHICLE CAPACITY")
  }

  /** The filter-and-insert scheme with its three line tests as parameters: drop the lines
      `drop` accepts, insert `v` after the first line `cap` accepts, then insert `d` before
      the first line `edge` accepts. */
  function InsertBoth(lines: seq<string>, drop: string -> bool, cap: string -> bool,
                      edge: string -> bool, v: string, d: string): seq<string>
  {
    InsertAtFirst(InsertAtFirst(Filter(lines, drop), cap, 1, v), edge, 0, d)
  }

  /** The rewritten file: old lines removed, the vehicle line inserted after the first
      capacity line, then the depot line inserted before the first edge line. */
  function InsertedRewrite(lines: seq<string>, depots: set<int>): seq<string> {
    InsertBoth(lines, OldLineRaw, IsCapacityLine, IsEdgeLine, VehicleLine(depots), DepotLine(depots))
  }

  /** The rewrite block of `update_gdb_with_third_radius`, once the file is read into
      `lines` and the depots are chosen. */
  method RewriteWithInsertedLines(lines: seq<string>, depots: set<int>) returns (filtered: seq<string>)
    ensures filtered == InsertedRewrite(lines, depots)
  {
    filtered := FilterLines(lines, OldLineRaw);
    var nVeh := |depots|;
    filtered := InsertBesideFirst(filtered, IsCapacityLine, 1, CountLine(VehiclesKey, nVeh));
    filtered := InsertBesideFirst(filtered, IsEdgeLine, 0, DepotLine(depots));
  }

  // Facts about the first characters of the lines involved.

  /** A string that starts with a non-blank keeps its first character under `strip()`. */
  lemma StripKeepsFirst(s: string)
    requires s != [] && !IsSpace(s[0])
    ensures Strip(s) != [] && Strip(s)[0] == s[0]
  {
    SkipSpacesUnique(s, 0, 0);
  }

  /** A line whose raw text starts with a non-blank other than `(` is not an edge line. */
  lemma NotEdgeByFirst(l: string)
    requires l != [] && !IsSpace(l[0]) && l[0] != '('
    ensures !IsEdgeLine(l)
  {
    StripKeepsFirst(l);
    var s := Strip(l);
    assert s[..1][0] == s[0];
  }

  lemma FirstOfPrefixed(l: string, key: string)
    requires key != [] && StartsWith(l, key)
    ensures l != [] && l[0] == key[0]
  {
    assert l[..|key|][0] == l[0];
  }

  lemma DepotLineStarts(depots: set<int>)
    ensures StartsWith(DepotLine(depots), DepotKey)
    ensures DepotLine(depots)[0] == 'D'
  {
    var s := DepotLine(depots);
    var rest := " " + DepotList(depots) + "\n";
    assert s == DepotKey + rest;
    StartsWithAppend(s, DepotKey, rest);
  }

  lemma VehicleLineStarts(depots: set<int>)
    ensures StartsWith(VehicleLine(depots), VehiclesKey)
    ensures VehicleLine(depots)[0] == 'N'
  {
    var s := VehicleLine(depots);
    var rest := " " + IntToString(|depots|) + "\n";
    assert s == VehiclesKey + rest;
    StartsWithAppend(s, VehiclesKey, rest);
  }

  /** Neither written line is an edge line or a capacity line. */
  lemma WrittenLinesKinds(depots: set<int>)
    ensures OldLineRaw(DepotLine(depots)) && OldLineRaw(VehicleLine(depots))
    ensures !IsEdgeLine(DepotLine(depots)) && !IsEdgeLine(VehicleLine(depots))
    ensures !IsCapacityLine(DepotLine(depots)) && !IsCapacityLine(VehicleLine(depots))
    ensures DepotLine(depots) != VehicleLine(depots)
  {
    DepotLineStarts(depots);
    VehicleLineStarts(depots);
    NotEdgeByFirst(DepotLine(depots));
    NotEdgeByFirst(VehicleLine(depots));
    var c := "VEHICLE CAPACITY";
    if IsCapacityLine(DepotLine(depots)) {
      FirstOfPrefixed(DepotLine(depots), c);
    }
    if IsCapacityLine(VehicleLine(depots)) {
      FirstOfPrefixed(VehicleLine(depots), c);
    }
  }

  /** A capacity line is neither removed nor an edge line. */
  lemma CapacityLineKinds(l: string)
    requires IsCapacityLine(l)
    ensures !OldLineRaw(l) && !IsEdgeLine(l)
  {
    FirstOfPrefixed(l, "VEHICLE CAPACITY");
    if StartsWith(l, DepotKey) {
      FirstOfPrefixed(l, DepotKey);
    }
    if StartsWith(l, VehiclesKey) {
      FirstOfPrefixed(l, VehiclesKey);
    }
    NotEdgeByFirst(l);
  }

  /** An edge line is never removed. */
  lemma EdgeLineKept(l: string)
    requires IsEdgeLine(l)
    ensures !OldLineRaw(l)
  {
    if StartsWith(l, DepotKey) {
      FirstOfPrefixed(l, DepotKey);
      NotEdgeByFirst(l);
    }
    if StartsWith(l, VehiclesKey) {
      FirstOfPrefixed(l, VehiclesKey);
      NotEdgeByFirst(l);
    }
  }

  /** How the three tests and the two written lines relate: both written lines are
      dropped and are neither capacity nor edge lines, no capacity line is dropped or is
      an edge line, and no edge line is dropped. */
  ghost predicate Separated(drop: string -> bool, cap: string -> bool, edge: string -> bool,
                            v: string, d: string)
  {
    && drop(v) && drop(d) && v != d
    && !cap(v) && !cap(d) && !edge(v) && !edge(d)
    && (forall l :: cap(l) ==> !drop(l) && !edge(l))
    && (forall l :: edge(l) ==> !drop(l))
  }

  /** The tests and lines of `update_gdb_with_third_radius` are separated. */
  lemma RawTestsSeparated(depots: set<int>)
    ensures Separated(OldLineRaw, IsCapacityLine, IsEdgeLine, VehicleLine(depots), DepotLine(depots))
  {
    WrittenLinesKinds(depots);
    forall l | IsCapacityLine(l) ensures !OldLineRaw(l) && !IsEdgeLine(l) {
      CapacityLineKinds(l);
    }
    forall l | IsEdgeLine(l) ensures !OldLineRaw(l) {
      EdgeLineKept(l);
    }
  }

  // Properties of the filter-and-insert scheme.

  lemma InsertAtMembers(s: seq<string>, k: nat, x: string, l: string)
    requires k <= |s|
    ensures l in InsertAt(s, k, x) <==> l in s || l == x
  {
    assert s == s[..k] + s[k..];
  }

  /** Nothing else changes: removing the dropped lines from the output leaves exactly the
      input with those lines removed, in the same order. */
  lemma InsertBothKeepsOthers(lines: seq<string>, drop: string -> bool, cap: string -> bool,
                              edge: string -> bool, v: string, d: string)
    requires Separated(drop, cap, edge, v, d)
    ensures Filter(InsertBoth(lines, drop, cap, edge, v, d), drop) == Filter(lines, drop)
  {
    var f := Filter(lines, drop);
    var f1 := InsertAtFirst(f, cap, 1, v);
    FilterKeepsAll(f, drop);
    if FirstWhere(f, cap).Some? {
      FilterInsert(f, FirstWhere(f, cap).value + 1, v, drop);
    }
    if FirstWhere(f1, edge).Some? {
      FilterInsert(f1, FirstWhere(f1, edge).value, d, drop);
    }
  }

  /** The only dropped-kind lines left are the two new ones. */
  lemma InsertBothOnlyNew(lines: seq<string>, drop: string -> bool, cap: string -> bool,
                          edge: string -> bool, v: string, d: string, l: string)
    requires Separated(drop, cap, edge, v, d)
    requires l in InsertBoth(lines, drop, cap, edge, v, d) && drop(l)
    ensures l == v || l == d
  {
    var f := Filter(lines, drop);
    var f1 := InsertAtFirst(f, cap, 1, v);
    FilterMembers(lines, drop, l);
    if FirstWhere(f, cap).Some? {
      InsertAtMembers(f, FirstWhere(f, cap).value + 1, v, l);
    }
    if FirstWhere(f1, edge).Some? {
      InsertAtMembers(f1, FirstWhere(f1, edge).value, d, l);
    }
  }

  /** Without a capacity line after the filter, `v` is not written and no capacity line
      is anywhere. */
  lemma InsertBothNoCapacity(lines: seq<string>, drop: string -> bool, cap: string -> bool,
                             edge: string -> bool, v: string, d: string)
    requires Separated(drop, cap, edge, v, d)
    requires FirstWhere(Filter(lines, drop), cap).None?
    ensures FirstWhere(lines, cap).None?
    ensures FirstWhere(InsertBoth(lines, drop, cap, edge, v, d), cap).None?
    ensures v !in InsertBoth(lines, drop, cap, edge, v, d)
  {
    var f := Filter(lines, drop);
    if FirstWhere(lines, cap).Some? {
      var l := lines[FirstWhere(lines, cap).value];
      FilterMembers(lines, drop, l);
    }
    FilterMembers(lines, drop, v);
    if FirstWhere(f, edge).Some? {
      InsertShiftNone(f, FirstWhere(f, edge).value, d, cap);
      InsertAtMembers(f, FirstWhere(f, edge).value, d, v);
    }
  }

  /** With a capacity line after the filter, `v` comes right after the first one. */
  lemma InsertBothCapacity(lines: seq<string>, drop: string -> bool, cap: string -> bool,
                           edge: string -> bool, v: string, d: string, i: nat)
    requires Separated(drop, cap, edge, v, d)
    requires FirstWhere(Filter(lines, drop), cap) == Some(i)
    ensures var r := InsertBoth(lines, drop, cap, edge, v, d);
      exists k :: FirstWhere(r, cap) == Some(k) && k + 1 < |r| && r[k + 1] == v
  {
    var f := Filter(lines, drop);
    var f1 := InsertAtFirst(f, cap, 1, v);
    assert f1 == InsertAt(f, i + 1, v);
    InsertShiftSome(f, i + 1, v, cap, i);
    InsertAtIndex(f, i + 1, v, i + 1);
    InsertAtIndex(f, i + 1, v, i);
    var r := InsertBoth(lines, drop, cap, edge, v, d);
    match FirstWhere(f1, edge)
    case None =>
      assert r == f1;
    case Some(j) =>
      assert r == InsertAt(f1, j, d);
      InsertShiftSome(f1, j, d, cap, i);
      assert j != i && j != i + 1;
      if j < i {
        InsertAtIndex(f1, j, d, i + 2);
      } else {
        InsertAtIndex(f1, j, d, i + 1);
      }
  }

  /** `v` is written exactly when the input has a capacity line, and then it comes right
      after the first one. */
  lemma InsertBothVehicle(lines: seq<string>, drop: string -> bool, cap: string -> bool,
                          edge: string -> bool, v: string, d: string)
    requires Separated(drop, cap, edge, v, d)
    ensures var r := InsertBoth(lines, drop, cap, edge, v, d);
      match FirstWhere(r, cap)
      case None => FirstWhere(lines, cap).None? && v !in r
      case Some(i) => i + 1 < |r| && r[i + 1] == v
  {
    match FirstWhere(Filter(lines, drop), cap)
    case None => InsertBothNoCapacity(lines, drop, cap, edge, v, d);
    case Some(i) => InsertBothCapacity(lines, drop, cap, edge, v, d, i);
  }

  /** Without edge lines in the input there are none after the filter. */
  lemma FilterNoneStays(lines: seq<string>, drop: string -> bool, accept: string -> bool)
    requires FirstWhere(lines, accept).None?
    ensures FirstWhere(Filter(lines, drop), accept).None?
  {
    var f := Filter(lines, drop);
    forall k | 0 <= k < |f| ensures !accept(f[k]) {
      FilterMembers(lines, drop, f[k]);
    }
  }

  /** A line the filter keeps and `accept` accepts is still found after the filter. */
  lemma FilterSomeStays(lines: seq<string>, drop: string -> bool, accept: string -> bool)
    requires FirstWhere(lines, accept).Some?
    requires forall l :: accept(l) ==> !drop(l)
    ensures FirstWhere(Filter(lines, drop), accept).Some?
  {
    var l := lines[FirstWhere(lines, accept).value];
    FilterMembers(lines, drop, l);
  }

  /** The first insertion keeps the edge lines: there is one after it exactly when the
      input has one. */
  lemma InsertBothEdgesKept(lines: seq<string>, drop: string -> bool, cap: string -> bool,
                            edge: string -> bool, v: string, d: string)
    requires Separated(drop, cap, edge, v, d)
    ensures FirstWhere(InsertAtFirst(Filter(lines, drop), cap, 1, v), edge).Some?
      <==> FirstWhere(lines, edge).Some?
  {
    var f := Filter(lines, drop);
    if FirstWhere(lines, edge).Some? {
      FilterSomeStays(lines, drop, edge);
    } else {
      FilterNoneStays(lines, drop, edge);
    }
    match FirstWhere(f, cap)
    case None =>
    case Some(i) =>
      match FirstWhere(f, edge)
      case None => InsertShiftNone(f, i + 1, v, edge);
      case Some(j) => InsertShiftSome(f, i + 1, v, edge, j);
  }

  /** `d` is written exactly when the input has an edge line, and then it comes right
      before the first one. */
  lemma InsertBothDepot(lines: seq<string>, drop: string -> bool, cap: string -> bool,
                        edge: string -> bool, v: string, d: string)
    requires Separated(drop, cap, edge, v, d)
    ensures var r := InsertBoth(lines, drop, cap, edge, v, d);
      match FirstWhere(r, edge)
      case None => FirstWhere(lines, edge).None? && d !in r
      case Some(j) => 0 < j && r[j - 1] == d
  {
    var f := Filter(lines, drop);
    var f1 := InsertAtFirst(f, cap, 1, v);
    var r := InsertBoth(lines, drop, cap, edge, v, d);
    InsertBothEdgesKept(lines, drop, cap, edge, v, d);
    match FirstWhere(f1, edge)
    case None =>
      assert r == f1;
      FilterMembers(lines, drop, d);
      if FirstWhere(f, cap).Some? {
        InsertAtMembers(f, FirstWhere(f, cap).value + 1, v, d);
      }
    case Some(j) =>
      assert r == InsertAt(f1, j, d);
      InsertShiftSome(f1, j, d, edge, j);
      InsertAtIndex(f1, j, d, j);
  }

  // The same properties for the lines `update_gdb_with_third_radius` writes.

  /** Nothing else changes: removing the `DEPOT:` and vehicle-count lines from the output
      leaves exactly the input with those lines removed, in the same order. */
  lemma InsertedRewriteKeepsOthers(lines: seq<string>, depots: set<int>)
    ensures Filter(InsertedRewrite(lines, depots), OldLineRaw) == Filter(lines, OldLineRaw)
  {
    RawTestsSeparated(depots);
    InsertBothKeepsOthers(lines, OldLineRaw, IsCapacityLine, IsEdgeLine, VehicleLine(depots), DepotLine(depots));
  }

  /** The only `DEPOT:` and vehicle-count lines left are the two new ones. */
  lemma InsertedRewriteOnlyNewLines(lines: seq<string>, depots: set<int>, l: string)
    requires l in InsertedRewrite(lines, depots) && OldLineRaw(l)
    ensures l == DepotLine(depots) || l == VehicleLine(depots)
  {
    RawTestsSeparated(depots);
    InsertBothOnlyNew(lines, OldLineRaw, IsCapacityLine, IsEdgeLine, VehicleLine(depots), DepotLine(depots), l);
  }

  /** The vehicle line is written exactly when the file has a `VEHICLE CAPACITY` line, and
      then it comes right after the first one. */
  lemma InsertedVehicleLine(lines: seq<string>, depots: set<int>)
    ensures var r := InsertedRewrite(lines, depots);
      match FirstWhere(r, IsCapacityLine)
      case None => FirstWhere(lines, IsCapacityLine).None? && VehicleLine(depots) !in r
      case Some(i) => i + 1 < |r| && r[i + 1] == VehicleLine(depots)
  {
    RawTestsSeparated(depots);
    InsertBothVehicle(lines, OldLineRaw, IsCapacityLine, IsEdgeLine, VehicleLine(depots), DepotLine(depots));
  }

  /** The depot line is written exactly when the file has an edge line, and then it comes
      right before the first one. */
  lemma InsertedDepotLine(lines: seq<string>, depots: set<int>)
    ensures var r := InsertedRewrite(lines, depots);
      match FirstWhere(r, IsEdgeLine)
      case None => FirstWhere(lines, IsEdgeLine).None? && DepotLine(depots) !in r
      case Some(j) => 0 < j && r[j - 1] == DepotLine(depots)
  {
    RawTestsSeparated(depots);
    InsertBothDepot(lines, OldLineRaw, IsCapacityLine, IsEdgeLine, VehicleLine(depots), DepotLine(depots));
  }

  // The filter-and-append of `update_all_instances`.

  /** The lines it removes: stripped text starting with `DEPOT:` or `NUMBER OF VEHICLES`
      (no colon, unlike the raw test above). */
  predicate OldLineStripped(l: string) {
    StartsWith(Strip(l), DepotKey) || StartsWith(Strip(l), "NUMBER OF VEHICLES")
  }

  /** The rewritten file: old lines removed, the vehicle line and the depot line appended. */
  function AppendedRewrite(lines: seq<string>, depots: set<int>): seq<string> {
    Filter(lines, OldLineStripped) + [VehicleLine(depots), DepotLine(depots)]
  }

  /** The rewrite block of `update_all_instances`, once the file is read into `lines` and
      the depots are chosen. The insertion positions it computes are never used, so they
      are not modelled. */
  method RewriteWithAppendedLines(lines: seq<string>, depots: set<int>) returns (filtered: seq<string>)
    ensures filtered == AppendedRewrite(lines, depots)
  {
    filtered := FilterLines(lines, OldLineStripped);
    filtered := filtered + [VehicleLine(depots)];
    filtered := filtered + [DepotLine(depots)];
  }

  /** A prefix that starts and ends with a non-blank survives `strip()`. */
  lemma PrefixSurvivesStrip(s: string, key: string)
    requires key != [] && !IsSpace(key[0]) && !IsSpace(key[|key| - 1])
    requires StartsWith(s, key)
    ensures StartsWith(Strip(s), key)
  {
    assert s[..|key|][0] == s[0];
    assert s[..|key|][|key| - 1] == s[|key| - 1];
    SkipSpacesUnique(s, 0, 0);
    var r := Strip(s);
    assert |r| >= |key|;
    assert r[..|key|] == s[..|key|];
  }

  /** Both written lines are lines the filter removes. */
  lemma WrittenLinesStripped(depots: set<int>)
    ensures OldLineStripped(DepotLine(depots)) && OldLineStripped(VehicleLine(depots))
  {
    VehicleLineStripped(|depots|);
    DepotLineStarts(depots);
    PrefixSurvivesStrip(DepotLine(depots), DepotKey);
  }

  lemma VehicleLineStripped(n: int)
    ensures StartsWith(Strip(CountLine(VehiclesKey, n)), "NUMBER OF VEHICLES")
  {
    CountLineStarts(VehiclesKey, n);
    VehiclesKeyPrefix();
    StartsWithShorter(Strip(CountLine(VehiclesKey, n)), VehiclesKey, 18);
  }

  lemma VehiclesKeyPrefix()
    ensures |VehiclesKey| >= 18 && VehiclesKey[..18] == "NUMBER OF VEHICLES"
  {}

  /** A string that starts with `k` starts with every prefix of `k`. */
  lemma StartsWithShorter(s: string, k: string, j: nat)
    requires StartsWith(s, k) && j <= |k|
    ensures StartsWith(s, k[..j])
  {
    assert s[..j] == s[..|k|][..j];
  }
  /** Nothing else changes, and the output ends with exactly the two new lines, after
      every kept line of the input in its original order. */
  lemma AppendedRewriteSpec(lines: seq<string>, depots: set<int>)
    ensures var r := AppendedRewrite(lines, depots);
      && Filter(r, OldLineStripped) == Filter(lines, OldLineStripped)
      && |r| >= 2 && r[|r| - 2] == VehicleLine(depots) && r[|r| - 1] == DepotLine(depots)
      && forall k :: 0 <= k < |r| - 2 ==> !OldLineStripped(r[k])
  {
    WrittenLinesStripped(depots);
    AppendDropped(Filter(lines, OldLineStripped), OldLineStripped, VehicleLine(depots), DepotLine(depots));
  }

  /** Appending two dropped lines to a filtered list changes nothing the filter keeps. */
  lemma AppendDropped(f: seq<string>, drop: string -> bool, v: string, d: string)
    requires forall i :: 0 <= i < |f| ==> !drop(f[i])
    requires drop(v) && drop(d)
    ensures var r := f + [v, d];
      && Filter(r, drop) == f
      && |r| >= 2 && r[|r| - 2] == v && r[|r| - 1] == d
      && forall k :: 0 <= k < |r| - 2 ==> !drop(r[k])
  {
    var r := f + [v, d];
    assert r[..|r| - 1] == f + [v];
    assert (f + [v])[..|f|] == f;
    FilterKeepsAll(f, drop);
    forall k | 0 <= k < |r| - 2
      ensures !drop(r[k])
    {
      assert r[k] == f[k];
    }
  }

  // Reading a written depot line back.

  /** `str(n)` for some integer `n`: non-empty, digits and a minus sign only. */
  predicate NumberText(x: string) {
    |x| > 0 && forall i :: 0 <= i < |x| ==> IsDigit(x[i]) || x[i] == '-'
  }

  /** The pieces `map(str, ds)`: number texts, so free of commas and token separators. */
  lemma IntStringsPieces(ds: seq<int>)
    ensures forall k :: 0 <= k < |IntStrings(ds)| ==> NumberText(IntStrings(ds)[k])
    ensures forall k :: 0 <= k < |IntStrings(ds)| ==> ',' !in IntStrings(ds)[k]
    ensures forall k :: 0 <= k < |IntStrings(ds)| ==>
      |IntStrings(ds)[k]| > 0 && forall i :: 0 <= i < |IntStrings(ds)[k]| ==> !IsTokenSep(IntStrings(ds)[k][i])
  {}

  /** A `c`-join of number texts is made of digits, minus signs and `c`. */
  lemma {:induction false} JoinChars(xs: seq<string>, c: char)
    requires |xs| >= 1 && forall k :: 0 <= k < |xs| ==> NumberText(xs[k])
    ensures var j := Join(xs, c);
      |j| >= 1 && forall i :: 0 <= i < |j| ==> IsDigit(j[i]) || j[i] == '-' || j[i] == c
    decreases |xs|
  {
    if |xs| > 1 {
      JoinChars(xs[1..], c);
      var x, rest := xs[0], Join(xs[1..], c);
      var j := Join(xs, c);
      assert j == x + [c] + rest;
      forall i | 0 <= i < |j|
        ensures IsDigit(j[i]) || j[i] == '-' || j[i] == c
      {
        if i > |x| {
          assert j[i] == rest[i - |x| - 1];
        }
      }
    }
  }

  /** A comma-join of number texts starts and ends with a non-blank. */
  lemma JoinEnds(xs: seq<string>)
    requires |xs| >= 1 && forall k :: 0 <= k < |xs| ==> NumberText(xs[k])
    ensures var l := Join(xs, ','); l != [] && !IsSpace(l[0]) && !IsSpace(l[|l| - 1])
  {
    var l := Join(xs, ',');
    JoinChars(xs, ',');
    ListCharNotSpace(l[0]);
    ListCharNotSpace(l[|l| - 1]);
  }

  lemma ListCharNotSpace(c: char)
    requires IsDigit(c) || c == '-' || c == ','
    ensures !IsSpace(c)
  {}

  /** The text after the colon of `DEPOT: <l>`, with or without the newline. */
  lemma DepotKeyRemainder(l: string)
    ensures Remainder(DepotKey + " " + l, ":") == Some(" " + l)
    ensures Remainder(DepotKey + " " + l + "\n", ":") == Some(" " + l + "\n")
  {
    var s := DepotKey + " " + l;
    var s' := s + "\n";
    assert s[..5] == "DEPOT" && s[5] == ':';
    assert s'[..5] == "DEPOT" && s'[5] == ':';
    FirstChar(s, ':', 5);
    FirstChar(s', ':', 5);
    assert s[6..] == " " + l;
    assert s'[6..] == " " + l + "\n";
  }

  /** `(" " + l).strip()` and `(" " + l + "\n").strip()` are `l` for `l` with non-blank ends. */
  lemma LeadingBlankStrip(l: string)
    requires l != [] && !IsSpace(l[0]) && !IsSpace(l[|l| - 1])
    ensures Strip(" " + l) == l && Strip(" " + l + "\n") == l
  {
    var s, s' := " " + l, " " + l + "\n";
    StripAt(s, 1, |l| + 1);
    assert s[1..|l| + 1] == l;
    StripAt(s', 1, |l| + 1);
    assert s'[1..|l| + 1] == l;
  }

  /** `[int(x.strip()) for x in map(str, ds)] == ds`. */
  lemma {:induction false} ParseIntStrings(ds: seq<int>)
    ensures ScenarioParser.ParseIntList(IntStrings(ds)) == Some(ds)
    decreases |ds|
  {
    if ds != [] {
      var xs := IntStrings(ds);
      assert xs == [xs[0]] + IntStrings(ds[1..]);
      ParseIntStrings(ds[1..]);
      NumberTextStripped(xs[0]);
      IntToStringRoundTrip(ds[0]);
      ParseIntListCons(xs[0], IntStrings(ds[1..]), ds[0], ds[1..]);
      assert ds == [ds[0]] + ds[1..];
    }
  }

  lemma ParseIntListCons(x: string, xs: seq<string>, v: int, vs: seq<int>)
    requires ParseInt(Strip(x)) == Some(v) && ScenarioParser.ParseIntList(xs) == Some(vs)
    ensures ScenarioParser.ParseIntList([x] + xs) == Some([v] + vs)
  {
    assert ([x] + xs)[0] == x && ([x] + xs)[1..] == xs;
  }

  /** A number text is its own `strip()`. */
  lemma NumberTextStripped(x: string)
    requires NumberText(x)
    ensures Strip(x) == x
  {
    assert IsDigit(x[0]) || x[0] == '-';
    assert IsDigit(x[|x| - 1]) || x[|x| - 1] == '-';
    StripUnchanged(x);
  }

  /** The `DEPOT:` line written for a non-empty placement reads back, through the depot
      parsing of `parse_text_file`, as the sorted depots. */
  lemma DepotLineParses(depots: set<int>)
    requires depots != {}
    ensures ScenarioParser.ParseDepots(Strip(DepotLine(depots))) == Some(SortedIds(depots))
  {
    ListParses(SortedIds(depots));
  }

  lemma ListParses(ds: seq<int>)
    requires |ds| >= 1
    ensures ScenarioParser.ParseDepots(Strip(DepotKey + " " + Join(IntStrings(ds), ',') + "\n")) == Some(ds)
  {
    var xs := IntStrings(ds);
    IntStringsPieces(ds);
    JoinEnds(xs);
    SplitJoin(xs, ',');
    ParseIntStrings(ds);
    ParseDepotsOfList(Join(xs, ','), xs, ds);
  }

  lemma ParseDepotsOfList(l: string, xs: seq<string>, ds: seq<int>)
    requires l != [] && !IsSpace(l[0]) && !IsSpace(l[|l| - 1])
    requires SplitOn(l, ',') == xs && ScenarioParser.ParseIntList(xs) == Some(ds)
    ensures ScenarioParser.ParseDepots(Strip(DepotKey + " " + l + "\n")) == Some(ds)
  {
    var s := DepotKey + " " + l;
    assert s[0] == 'D' && s[|s| - 1] == l[|l| - 1];
    StripNewline(s);
    DepotKeyRemainder(l);
    LeadingBlankStrip(l);
  }

  /** Read back by step 4 of the rebalancer, the `DEPOT:` line counts one token per depot. */
  lemma DepotLineTokens(depots: set<int>)
    requires depots != {}
    ensures DepotTokens(DepotLine(depots)) == |depots|
  {
    ListTokens(SortedIds(depots));
  }

  lemma ListTokens(ds: seq<int>)
    requires |ds| >= 1
    ensures DepotTokens(DepotKey + " " + Join(IntStrings(ds), ',') + "\n") == |ds|
  {
    var xs := IntStrings(ds);
    IntStringsPieces(ds);
    JoinEnds(xs);
    TokensOfJoin(xs);
    TokensOfList(Join(xs, ','), xs);
  }

  lemma TokensOfList(l: string, xs: seq<string>)
    requires l != [] && !IsSpace(l[0]) && !IsSpace(l[|l| - 1])
    requires Tokens(l) == xs
    ensures DepotTokens(DepotKey + " " + l + "\n") == |xs|
  {
    DepotKeyRemainder(l);
    LeadingBlankStrip(l);
  }

  /** With no depots the line is `DEPOT: \n`, which `parse_text_file` rejects: `int('')`
      raises. */
  lemma EmptyDepotLineRejected()
    ensures ScenarioParser.ParseDepots(Strip(DepotLine({}))) == None
  {
    EmptyDepotLineStripped();
    BareDepotKeyRejected();
  }

  lemma EmptyDepotLineStripped()
    ensures Strip(DepotLine({})) == DepotKey
  {
    assert DepotList({}) == [];
    var s := DepotKey + " " + [] + "\n";
    StripAt(s, 0, 6);
  }

  /** `DEPOT:` alone: the list after the colon is the one empty piece `''`. */
  lemma BareDepotKeyRejected()
    ensures ScenarioParser.ParseDepots(DepotKey) == None
  {
    var k := DepotKey;
    assert k[..5] == "DEPOT" && k[5] == ':';
    FirstChar(k, ':', 5);
    assert Remainder(k, ":") == Some([]);
    StripUnchanged([]);
    assert SplitOn([], ',') == [[]];
  }}
