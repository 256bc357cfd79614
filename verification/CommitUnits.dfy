/** Splitting a grouped batch into commit units: one table's items each, no more than there are lanes to
    write on wherever that is possible. */
module CommitUnits {
  import opened Updates

  const ADAPTIVE_FANOUT_CHUNK := 256

  /** One transaction: a run of one table's items. */
  datatype Unit = Unit(table: nat, items: seq<Entry>)

  datatype Split = Split(table: nat, items: seq<Entry>, chunks: nat)

  // ----- reading the result back -----

  /** What the units write to a table, in order. */
  ghost function ItemsFor(units: seq<Unit>, table: nat): seq<Entry> {
    if |units| == 0 then []
    else
      var last := units[|units| - 1];
      ItemsFor(units[..|units| - 1], table) + if last.table == table then last.items else []
  }

  lemma ItemsForAppend(units: seq<Unit>, u: Unit, table: nat)
    ensures ItemsFor(units + [u], table) == ItemsFor(units, table) + if u.table == table then u.items else []
  {
    assert (units + [u])[..|units|] == units;
  }

  // ----- the numbers of chunks -----

  ghost function TotalChunks(splits: seq<Split>): nat {
    if |splits| == 0 then 0 else TotalChunks(splits[..|splits| - 1]) + splits[|splits| - 1].chunks
  }

  lemma TotalAppend(splits: seq<Split>, s: Split)
    ensures TotalChunks(splits + [s]) == TotalChunks(splits) + s.chunks
  {
    assert (splits + [s])[..|splits|] == splits;
  }

  lemma {:induction false} TotalShrunk(splits: seq<Split>, i: nat)
    requires i < |splits| && splits[i].chunks > 0
    ensures TotalChunks(splits[i := splits[i].(chunks := splits[i].chunks - 1)]) == TotalChunks(splits) - 1
  {
    var n := |splits| - 1;
    var s := splits[i].(chunks := splits[i].chunks - 1);
    if i == n {
      assert splits[i := s][..n] == splits[..n];
    } else {
      assert splits[i := s][..n] == splits[..n][i := s];
      TotalShrunk(splits[..n], i);
    }
  }

  lemma {:induction false} TotalOfOnes(splits: seq<Split>)
    requires forall i :: 0 <= i < |splits| ==> splits[i].chunks == 1
    ensures TotalChunks(splits) == |splits|
  {
    if |splits| > 0 {
      TotalOfOnes(splits[..|splits| - 1]);
    }
  }

  function CeilDiv(n: nat, d: nat): (q: nat)
    requires d > 0
    ensures q * d >= n && (n > 0 ==> q > 0 && (q - 1) * d < n)
  {
    (n + d - 1) / d
  }

  /** Splits of distinct, nonempty tables. */
  ghost predicate Proper(splits: seq<Split>, byTable: map<nat, seq<Entry>>) {
    && (forall i :: 0 <= i < |splits| ==>
          splits[i].table in byTable && splits[i].items == byTable[splits[i].table] && splits[i].items != [] &&
            splits[i].chunks >= 1)
    && (forall i, j :: 0 <= i < j < |splits| ==> splits[i].table != splits[j].table)
    && (forall t :: t in byTable && byTable[t] != [] ==> exists i :: 0 <= i < |splits| && splits[i].table == t)
  }

  /** The number of chunks a table of this size gets on its own. */
  function ChunksFor(size: nat, lanes: nat): nat {
    if lanes > 1 && size > ADAPTIVE_FANOUT_CHUNK then Least(lanes, CeilDiv(size, ADAPTIVE_FANOUT_CHUNK)) else 1
  }

  /** The splits of all tables but those still to come. */
  ghost predicate Planned(splits: seq<Split>, byTable: map<nat, seq<Entry>>, toCome: set<nat>, lanes: nat) {
    && (forall i :: 0 <= i < |splits| ==>
          && splits[i].table in byTable && splits[i].items == byTable[splits[i].table] && splits[i].items != []
          && splits[i].table !in toCome && splits[i].chunks == ChunksFor(|splits[i].items|, lanes))
    && (forall i, j :: 0 <= i < j < |splits| ==> splits[i].table != splits[j].table)
    && (forall t :: t in byTable && t !in toCome && byTable[t] != [] ==>
        exists i :: 0 <= i < |splits| && splits[i].table == t)
  }

  lemma PlanStep(splits: seq<Split>, byTable: map<nat, seq<Entry>>, toCome: set<nat>, lanes: nat, t: nat)
    requires Planned(splits, byTable, toCome, lanes) && t in toCome && t in byTable
    ensures byTable[t] == [] ==> Planned(splits, byTable, toCome - {t}, lanes)
    ensures byTable[t] != [] ==>
              Planned(splits + [Split(t, byTable[t], ChunksFor(|byTable[t]|, lanes))], byTable, toCome - {t}, lanes)
  {
    hide ChunksFor;
    if byTable[t] != [] {
      var next := splits + [Split(t, byTable[t], ChunksFor(|byTable[t]|, lanes))];
      forall u | u in byTable && u !in toCome - {t} && byTable[u] != []
        ensures exists i :: 0 <= i < |next| && next[i].table == u {
        if u == t {
          assert next[|splits|].table == t;
        } else {
          var i :| 0 <= i < |splits| && splits[i].table == u;
          assert next[i].table == u;
        }
      }
    }
  }

  lemma AllPlanned(splits: seq<Split>, byTable: map<nat, seq<Entry>>, lanes: nat)
    requires Planned(splits, byTable, {}, lanes)
    ensures Proper(splits, byTable)
  {
    hide CeilDiv;
  }

  /** How many chunks each table should have, before the pool's size is taken into account for all together. */
  method Plan(byTable: map<nat, seq<Entry>>, lanes: nat) returns (splits: seq<Split>, total: nat)
    ensures Proper(splits, byTable) && total == TotalChunks(splits)
    ensures forall i :: 0 <= i < |splits| ==> splits[i].chunks == ChunksFor(|splits[i].items|, lanes)
  {
    hide CeilDiv, TotalChunks, Planned, Proper;
    splits, total := [], 0;
    var tables := byTable.Keys;
    NoChunks();
    assert Planned(splits, byTable, tables, lanes) by { NothingPlanned(byTable, lanes); }
    while tables != {}
      invariant tables <= byTable.Keys && total == TotalChunks(splits) && Planned(splits, byTable, tables, lanes)
      decreases |tables|
    {
      var t :| t in tables;
      PlanStep(splits, byTable, tables, lanes, t);
      tables := tables - {t};
      var items := byTable[t];
      if |items| == 0 {
        continue;
      }
      var chunks := 1;
      if lanes > 1 && |items| > ADAPTIVE_FANOUT_CHUNK {
        chunks := CeilDiv(|items|, ADAPTIVE_FANOUT_CHUNK);
        if chunks > lanes {
          chunks := lanes;
        }
      }
      TotalAppend(splits, Split(t, items, chunks));
      splits := splits + [Split(t, items, chunks)];
      total := total + chunks;
    }
    AllPlanned(splits, byTable, lanes);
    PlannedChunks(splits, byTable, lanes);
  }

  lemma NothingPlanned(byTable: map<nat, seq<Entry>>, lanes: nat)
    ensures Planned([], byTable, byTable.Keys, lanes)
  {
  }

  lemma PlannedChunks(splits: seq<Split>, byTable: map<nat, seq<Entry>>, lanes: nat)
    requires Planned(splits, byTable, {}, lanes)
    ensures forall i :: 0 <= i < |splits| ==> splits[i].chunks == ChunksFor(|splits[i].items|, lanes)
  {
  }

  lemma NoChunks()
    ensures TotalChunks([]) == 0
  {
  }

  function Least(a: nat, b: nat): nat {
    if a < b then a else b
  }

  /** Take chunks away from the most-split table until all fit in one wave, or every table is down to one. */
  method Shrink(splitsIn: seq<Split>, totalIn: nat, lanes: nat, ghost byTable: map<nat, seq<Entry>>)
    returns (splits: seq<Split>, total: nat)
    requires Proper(splitsIn, byTable) && totalIn == TotalChunks(splitsIn)
    ensures Proper(splits, byTable) && total == TotalChunks(splits) && |splits| == |splitsIn|
    ensures total <= lanes || total == |splits|
    ensures totalIn <= lanes ==> splits == splitsIn
  {
    hide TotalChunks;
    splits, total := splitsIn, totalIn;
    while total > lanes
      invariant Proper(splits, byTable) && total == TotalChunks(splits) && |splits| == |splitsIn|
      invariant totalIn <= lanes ==> splits == splitsIn
      decreases total
    {
      var maxI := -1;
      for i := 0 to |splits|
        invariant -1 <= maxI < i
        invariant maxI >= 0 ==> splits[maxI].chunks > 1
        invariant maxI < 0 ==> forall k :: 0 <= k < i ==> splits[k].chunks <= 1
        invariant maxI >= 0 ==> forall k :: 0 <= k < i ==> splits[k].chunks <= splits[maxI].chunks
      {
        if splits[i].chunks > 1 && (maxI < 0 || splits[i].chunks > splits[maxI].chunks) {
          maxI := i;
        }
      }
      if maxI < 0 {
        TotalOfOnes(splits);
        break;
      }
      TotalShrunk(splits, maxI);
      ShrunkIsProper(splits, maxI, byTable);
      splits := splits[maxI := splits[maxI].(chunks := splits[maxI].chunks - 1)];
      total := total - 1;
    }
  }

  lemma ShrunkIsProper(splits: seq<Split>, i: nat, byTable: map<nat, seq<Entry>>)
    requires Proper(splits, byTable) && i < |splits| && splits[i].chunks > 1
    ensures Proper(splits[i := splits[i].(chunks := splits[i].chunks - 1)], byTable)
  {
    var next := splits[i := splits[i].(chunks := splits[i].chunks - 1)];
    forall t | t in byTable && byTable[t] != [] ensures exists k :: 0 <= k < |next| && next[k].table == t {
      var k :| 0 <= k < |splits| && splits[k].table == t;
      assert next[k].table == t;
    }
  }

  /** Cut one table's items into at most its number of chunks. */
  method Cut(s: Split) returns (units: seq<Unit>)
    requires s.chunks >= 1 && s.items != []
    ensures 1 <= |units| <= s.chunks
    ensures forall i :: 0 <= i < |units| ==> units[i].table == s.table && units[i].items != []
    ensures forall i :: 0 <= i < |units| ==> |units[i].items| <= CeilDiv(|s.items|, s.chunks)
    ensures ItemsFor(units, s.table) == s.items && forall t :: t != s.table ==> ItemsFor(units, t) == []
    ensures s.chunks > 1 && |s.items| > 1 ==> |units| > 1
  {
    hide CeilDiv, ItemsFor;
    if s.chunks == 1 {
      OneUnitOf(s);
      OneChunk(|s.items|);
      units := [Unit(s.table, s.items)];
      return;
    }
    var chunk := CeilDiv(|s.items|, s.chunks);
    var start := 0;
    units := [];
    NothingCut(s);
    while start < |s.items|
      invariant 0 <= start <= |s.items| && (start < |s.items| ==> start == |units| * chunk)
      invariant |units| > 0 ==> (|units| - 1) * chunk < |s.items|
      invariant start == |s.items| ==> |units| > 0
      invariant forall i :: 0 <= i < |units| ==>
                  units[i].table == s.table && units[i].items != [] && |units[i].items| <= chunk
      invariant CutTo(units, s, start)
    {
      var end := start + chunk;
      if end > |s.items| {
        end := |s.items|;
      }
      var u := Unit(s.table, s.items[start..end]);
      CutOne(units, s, start, end);
      NextStart(|units|, chunk, start);
      units := units + [u];
      start := start + chunk;
      if start > |s.items| {
        start := |s.items|;
      }
    }
    assert s.items[..|s.items|] == s.items;
    FewPieces(|units|, chunk, |s.items|, s.chunks);
    if |s.items| > 1 {
      SmallerChunks(|s.items|, s.chunks);
      MoreThanOne(units, s.table, chunk);
    }
  }

  /** Two or more chunks of two or more items each leave something out. */
  lemma SmallerChunks(n: nat, d: nat)
    requires n > 1 && d > 1
    ensures CeilDiv(n, d) < n
  {
    hide CeilDiv;
    var q := CeilDiv(n, d);
    ProductGrows(2, d, q - 1);
    assert 2 * (q - 1) <= (q - 1) * d < n;
  }

  lemma MoreThanOne(units: seq<Unit>, table: nat, chunk: nat)
    requires |units| > 0 && |units[0].items| <= chunk < |ItemsFor(units, table)|
    ensures |units| > 1
  {
    assert units[..0] == [];
    assert ItemsFor(units[..1], table) == [] || ItemsFor(units[..1], table) == units[0].items;
    assert units[..|units|] == units;
  }

  /** The units hold the first `start` items of the table and nothing else. */
  ghost predicate CutTo(units: seq<Unit>, s: Split, start: nat)
    requires start <= |s.items|
  {
    ItemsFor(units, s.table) == s.items[..start] && forall t :: t != s.table ==> ItemsFor(units, t) == []
  }

  lemma NothingCut(s: Split)
    ensures CutTo([], s, 0)
  {
  }

  lemma CutOne(units: seq<Unit>, s: Split, start: nat, end: nat)
    requires start <= end <= |s.items| && CutTo(units, s, start)
    ensures CutTo(units + [Unit(s.table, s.items[start..end])], s, end)
  {
    hide ItemsFor;
    forall t { ItemsForAppend(units, Unit(s.table, s.items[start..end]), t); }
    assert s.items[..end] == s.items[..start] + s.items[start..end];
  }

  lemma OneUnitOf(s: Split)
    ensures ItemsFor([Unit(s.table, s.items)], s.table) == s.items
    ensures forall t :: t != s.table ==> ItemsFor([Unit(s.table, s.items)], t) == []
  {
    var units := [Unit(s.table, s.items)];
    assert units[..0] == [];
  }

  lemma OneChunk(n: nat)
    requires n > 0
    ensures CeilDiv(n, 1) == n
  {
  }

  lemma NextStart(n: nat, chunk: nat, start: nat)
    requires start == n * chunk
    ensures start + chunk == (n + 1) * chunk && (n + 1 - 1) * chunk == start
  {
  }

  lemma ProductGrows(a: nat, b: nat, c: nat)
    requires a <= b
    ensures a * c <= b * c
  {
  }

  /** Pieces of the ceiling size are no more than were asked for. */
  lemma FewPieces(n: nat, chunk: nat, size: nat, chunks: nat)
    requires n > 0 && (n - 1) * chunk < size <= chunks * chunk
    ensures n <= chunks
  {
    if n > chunks {
      ProductGrows(chunks, n - 1, chunk);
    }
  }

  /** The units are an exact partition: per table they concatenate to its items in order, none is empty, and there
      are no more than lanes, or than nonempty tables if those are more. */
  method BuildCommitUnits(byTable: map<nat, seq<Entry>>, lanes: nat) returns (units: seq<Unit>)
    requires lanes >= 1
    ensures forall t :: ItemsFor(units, t) == if t in byTable then byTable[t] else []
    ensures forall i :: 0 <= i < |units| ==> units[i].table in byTable && units[i].items != []
    ensures |units| <= lanes || |units| <= |NonEmpty(byTable)|
    ensures |units| <= 1 <==> OneUnit(byTable, lanes)
  {
    hide TotalChunks, CeilDiv, ItemsFor, Placed, ChunksFor, NonEmpty, OneUnit;
    var splits, total := Plan(byTable, lanes);
    ghost var planned := splits;
    PlannedOne(planned, byTable, lanes);
    splits, total := Shrink(splits, total, lanes, byTable);
    CountTables(splits, byTable);
    units := [];
    NoItems();
    NoChunks();
    for i := 0 to |splits|
      invariant i <= |units| <= TotalChunks(splits[..i])
      invariant i == 1 && splits[0].chunks > 1 && |splits[0].items| > 1 ==> |units| > 1
      invariant forall t :: ItemsFor(units, t) == Placed(splits[..i], t)
      invariant forall k :: 0 <= k < |units| ==> units[k].table in byTable && units[k].items != []
    {
      var pieces := Cut(splits[i]);
      forall t ensures ItemsFor(units + pieces, t) == Placed(splits[..i + 1], t) {
        ItemsForConcat(units, pieces, t);
        PlacedStep(splits, i, t);
      }
      ChunksStep(splits, i);
      units := units + pieces;
    }
    assert splits[..|splits|] == splits;
    forall t ensures ItemsFor(units, t) == if t in byTable then byTable[t] else [] {
      AllPlaced(splits, byTable, t);
    }
  }

  /** Everything goes to one table, and either it is small or there is one lane. */
  ghost predicate OneUnit(byTable: map<nat, seq<Entry>>, lanes: nat) {
    && |NonEmpty(byTable)| <= 1
    && (lanes <= 1 || forall t :: t in byTable ==> |byTable[t]| <= ADAPTIVE_FANOUT_CHUNK)
  }

  /** One split is one chunk exactly if its table is one unit. */
  lemma PlannedOne(splits: seq<Split>, byTable: map<nat, seq<Entry>>, lanes: nat)
    requires lanes >= 1 && Proper(splits, byTable)
    requires forall i :: 0 <= i < |splits| ==> splits[i].chunks == ChunksFor(|splits[i].items|, lanes)
    ensures |splits| == 1 ==>
              (OneUnit(byTable, lanes) <==> splits[0].chunks == 1) && TotalChunks(splits) == splits[0].chunks <= lanes
    ensures |splits| == 1 && splits[0].chunks > 1 ==> |splits[0].items| > 1
    ensures |splits| == 0 ==> OneUnit(byTable, lanes)
    ensures |splits| > 1 ==> !OneUnit(byTable, lanes)
  {
    hide CeilDiv;
    CountTables(splits, byTable);
    if |splits| == 1 {
      assert splits[..0] == [];
      assert forall t :: t in byTable && byTable[t] != [] ==> t == splits[0].table;
      SeveralChunks(|splits[0].items|, lanes);
    } else if |splits| == 0 {
      assert forall t :: t in byTable ==> byTable[t] == [];
    }
  }

  lemma SeveralChunks(size: nat, lanes: nat)
    requires lanes >= 1
    ensures ChunksFor(size, lanes) <= lanes
    ensures ChunksFor(size, lanes) > 1 <==> lanes > 1 && size > ADAPTIVE_FANOUT_CHUNK
  {
  }

  ghost function NonEmpty(byTable: map<nat, seq<Entry>>): set<nat> {
    set t | t in byTable && byTable[t] != []
  }

  /** The items of the split of a table, if there is one. */
  ghost function Placed(splits: seq<Split>, t: nat): seq<Entry> {
    if |splits| == 0 then []
    else Placed(splits[..|splits| - 1], t) + if splits[|splits| - 1].table == t then splits[|splits| - 1].items else []
  }

  lemma NoItems()
    ensures forall t :: ItemsFor([], t) == [] && Placed([], t) == []
  {
  }

  lemma {:induction false} ItemsForConcat(a: seq<Unit>, b: seq<Unit>, t: nat)
    ensures ItemsFor(a + b, t) == ItemsFor(a, t) + ItemsFor(b, t)
  {
    if |b| == 0 {
      assert a + b == a;
    } else {
      var n := |b| - 1;
      assert (a + b)[..|a| + n] == a + b[..n];
      ItemsForConcat(a, b[..n], t);
    }
  }

  lemma PlacedStep(splits: seq<Split>, i: nat, t: nat)
    requires i < |splits|
    ensures Placed(splits[..i + 1], t) == Placed(splits[..i], t) + if splits[i].table == t then splits[i].items else []
  {
    assert splits[..i + 1][..i] == splits[..i];
  }

  lemma ChunksStep(splits: seq<Split>, i: nat)
    requires i < |splits|
    ensures TotalChunks(splits[..i + 1]) == TotalChunks(splits[..i]) + splits[i].chunks
  {
    assert splits[..i + 1][..i] == splits[..i];
  }

  lemma AllPlaced(splits: seq<Split>, byTable: map<nat, seq<Entry>>, t: nat)
    requires Proper(splits, byTable)
    ensures Placed(splits, t) == if t in byTable then byTable[t] else []
  {
    if k :| 0 <= k < |splits| && splits[k].table == t {
      PlacedAt(splits, k);
    } else {
      PlacedNowhere(splits, t);
    }
  }

  lemma {:induction false} PlacedNowhere(splits: seq<Split>, t: nat)
    requires forall i :: 0 <= i < |splits| ==> splits[i].table != t
    ensures Placed(splits, t) == []
  {
    if |splits| > 0 {
      PlacedNowhere(splits[..|splits| - 1], t);
    }
  }

  lemma {:induction false} PlacedAt(splits: seq<Split>, k: nat)
    requires k < |splits| && forall i, j :: 0 <= i < j < |splits| ==> splits[i].table != splits[j].table
    ensures Placed(splits, splits[k].table) == splits[k].items
  {
    var n := |splits| - 1;
    if k == n {
      PlacedNowhere(splits[..n], splits[n].table);
    } else {
      PlacedAt(splits[..n], k);
    }
  }

  /** There is one split for each nonempty table. */
  lemma CountTables(splits: seq<Split>, byTable: map<nat, seq<Entry>>)
    requires Proper(splits, byTable)
    ensures |splits| == |NonEmpty(byTable)|
  {
    CountNames(splits, NonEmpty(byTable));
  }

  lemma {:induction false} CountNames(splits: seq<Split>, names: set<nat>)
    requires forall i, j :: 0 <= i < j < |splits| ==> splits[i].table != splits[j].table
    requires forall i :: 0 <= i < |splits| ==> splits[i].table in names
    requires forall t :: t in names ==> exists i :: 0 <= i < |splits| && splits[i].table == t
    ensures |splits| == |names|
    decreases |splits|
  {
    if |splits| == 0 {
      assert names == {};
    } else {
      var n := |splits| - 1;
      var last := splits[n].table;
      forall t | t in names - {last} ensures exists i :: 0 <= i < n && splits[..n][i].table == t {
        var i :| 0 <= i < |splits| && splits[i].table == t;
        assert splits[..n][i].table == t;
      }
      CountNames(splits[..n], names - {last});
    }
  }
}
