/** Copying legacy recorder history into the new entities (migration_services.py): the tables as
    maps of rows, each merge step against one declarative description of its result, and what a
    whole mapping list keeps. */
module HistoryMerge {
  import opened Basics
  import opened Registers

  /** A states row: its metadata row, its entity column and what it recorded. */
  datatype StateRow = StateRow(metadataId: int, entityId: string, recorded: string)

  /** A statistics row; no two rows of one series start at the same time. */
  datatype StatRow = StatRow(metadataId: int, startTs: real, recorded: string)

  /** A statistics series; an absent unit is the empty text. */
  datatype Series = Series(statisticId: string, source: string, unit: string)

  datatype Database = Database(
    statesMeta: map<int, string>, states: map<int, StateRow>,
    series: map<int, Series>, statistics: map<int, StatRow>, shortTerm: map<int, StatRow>)

  // ---------- Normalising the mapping ----------

  /** A requested row, both names stripped. */
  datatype Row = Row(oldId: string, newId: string)

  predicate Usable(r: Row) { r.oldId != "" && r.newId != "" && r.oldId != r.newId }

  ghost predicate Conflicting(rows: seq<Row>) {
    exists r, q :: r in rows && q in rows && Usable(r) && Usable(q) && r.newId == q.newId && r.oldId != q.oldId
  }

  predicate DistinctTargets(m: seq<Row>) {
    forall i, j :: 0 <= i < j < |m| ==> m[i].newId != m[j].newId
  }

  /** The list names r before it first names q. */
  ghost predicate NamedBefore(rows: seq<Row>, r: Row, q: Row) {
    exists k :: 0 <= k < |rows| && rows[k] == r && q !in rows[..k + 1]
  }

  ghost predicate InOrderOf(rows: seq<Row>, m: seq<Row>) {
    forall i, j :: 0 <= i < j < |m| ==> NamedBefore(rows, m[i], m[j])
  }

  lemma InOrderGrows(rows: seq<Row>, m: seq<Row>, row: Row)
    requires InOrderOf(rows, m)
    ensures InOrderOf(rows + [row], m)
    ensures row !in rows && (forall x :: x in m ==> x in rows) ==> InOrderOf(rows + [row], m + [row])
  {
    var more := rows + [row];
    forall i, j | 0 <= i < j < |m| ensures NamedBefore(more, m[i], m[j]) {
      var k :| 0 <= k < |rows| && rows[k] == m[i] && m[j] !in rows[..k + 1];
      assert more[k] == m[i] && more[..k + 1] == rows[..k + 1];
    }
    if row !in rows && forall x :: x in m ==> x in rows {
      forall i | 0 <= i < |m| ensures NamedBefore(more, m[i], row) {
        assert m[i] in rows;
        var k :| 0 <= k < |rows| && rows[k] == m[i];
        assert more[k] == m[i] && more[..k + 1] == rows[..k + 1];
      }
    }
  }

  /** Accepts a mapping list unless two sources claim one target: each usable row once, in order
      of first appearance, every target with one source. */
  method NormaliseMappingRows(rows: seq<Row>) returns (r: Option<seq<Row>>)
    ensures r.None? <==> Conflicting(rows)
    ensures r.Some? ==> DistinctTargets(r.value) && forall m :: m in r.value <==> m in rows && Usable(m)
    ensures r.Some? ==> InOrderOf(rows, r.value)
  {
    hide NamedBefore;
    var mapping: seq<Row> := [];
    var seen: set<Row> := {};
    var targetSources: map<string, string> := map[];
    for i := 0 to |rows|
      invariant DistinctTargets(mapping) && InOrderOf(rows[..i], mapping)
      invariant forall m :: m in seen <==> m in mapping
      invariant forall m :: m in mapping <==> m in rows[..i] && Usable(m)
      invariant forall m :: m in mapping ==> m.newId in targetSources && targetSources[m.newId] == m.oldId
      invariant forall t :: t in targetSources ==> Row(targetSources[t], t) in mapping
    {
      var row := rows[i];
      assert rows[..i + 1] == rows[..i] + [row];
      assert row in rows;
      InOrderGrows(rows[..i], mapping, row);
      if row.oldId == "" || row.newId == "" || row.oldId == row.newId { continue; }
      if row in seen { continue; }
      if row.newId in targetSources {
        var other := Row(targetSources[row.newId], row.newId);
        assert other in rows[..i] && other in rows && Usable(other);
        return None;
      }
      targetSources := targetSources[row.newId := row.oldId];
      seen := seen + {row};
      mapping := mapping + [row];
    }
    assert rows[..|rows|] == rows;
    return Some(mapping);
  }

  // ---------- One mapping, states ----------

  function Owners(meta: map<int, string>, entity: string): set<int> {
    set i | i in meta && meta[i] == entity
  }

  /** More than one metadata row of one entity: the lookup raises. */
  ghost predicate Ambiguous(meta: map<int, string>, entity: string) {
    exists i, j :: i in meta && j in meta && i != j && meta[i] == entity && meta[j] == entity
  }

  ghost predicate StatesRefused(db: Database, m: Row) {
    Ambiguous(db.statesMeta, m.oldId) || Ambiguous(db.statesMeta, m.newId)
  }

  /** The entity a states row belongs to, by its metadata. */
  function EntityOf(db: Database, r: int): Option<string>
    requires r in db.states
  {
    var id := db.states[r].metadataId;
    if id in db.statesMeta then Some(db.statesMeta[id]) else None
  }

  function Renamed(m: Row, e: Option<string>): Option<string> {
    if e == Some(m.oldId) then Some(m.newId) else e
  }

  /** The states tables after merging: the old metadata row takes over all rows and the new name. */
  function StatesMerged(db: Database, m: Row, o: int): Database {
    var gone := Owners(db.statesMeta, m.newId);
    db.(
      statesMeta := map i | i in db.statesMeta && i !in gone :: if i == o then m.newId else db.statesMeta[i],
      states := map r | r in db.states ::
        var row := db.states[r];
        if row.metadataId == o || row.metadataId in gone then StateRow(o, m.newId, row.recorded) else row)
  }

  /** What merging the states of one mapping leaves; without an old metadata row, everything. */
  ghost function StatesAfter(db: Database, m: Row): Database {
    if o :| o in db.statesMeta && db.statesMeta[o] == m.oldId then StatesMerged(db, m, o) else db
  }

  /** No states row is lost or altered: each keeps what it recorded, and belongs to the entity it
      did, except that rows of the old entity now belong to the new one. */
  lemma StatesKept(db: Database, m: Row)
    requires Usable(m) && !StatesRefused(db, m)
    ensures StatesAfter(db, m).states.Keys == db.states.Keys
    ensures forall r :: r in db.states ==>
      && StatesAfter(db, m).states[r].recorded == db.states[r].recorded
      && EntityOf(StatesAfter(db, m), r) == Renamed(m, EntityOf(db, r))
    ensures forall e :: Ambiguous(StatesAfter(db, m).statesMeta, e) ==> Ambiguous(db.statesMeta, e)
  {
  }

  // ---------- One mapping, statistics ----------

  predicate OldSeries(db: Database, m: Row, o: int) { o in db.series && db.series[o].statisticId == m.oldId }

  predicate NewSeries(db: Database, m: Row, n: int) { n in db.series && db.series[n].statisticId == m.newId }

  /** The target has several series of this source: left to manual cleanup. */
  ghost predicate DuplicateSource(db: Database, m: Row, source: string) {
    exists i, j :: NewSeries(db, m, i) && NewSeries(db, m, j) && i != j
      && db.series[i].source == source && db.series[j].source == source
  }

  predicate UnitsClash(a: Series, b: Series) { a.unit != "" && b.unit != "" && a.unit != b.unit }

  predicate Pairs(db: Database, m: Row, o: int, n: int) {
    OldSeries(db, m, o) && NewSeries(db, m, n) && db.series[o].source == db.series[n].source
  }

  ghost predicate Blocked(db: Database, m: Row, o: int)
    requires o in db.series
  {
    || DuplicateSource(db, m, db.series[o].source)
    || exists n :: Pairs(db, m, o, n) && UnitsClash(db.series[o], db.series[n])
  }

  /** Series n is merged into o, one of those dealt with so far. */
  ghost predicate Goes(db: Database, m: Row, seen: set<int>, n: int, o: int) {
    o in seen && Pairs(db, m, o, n) && !Blocked(db, m, o)
  }

  ghost predicate Gone(db: Database, m: Row, seen: set<int>, n: int) {
    exists o :: Goes(db, m, seen, n, o)
  }

  predicate Starts(table: map<int, StatRow>, id: int, t: real) {
    exists q :: q in table && table[q].metadataId == id && table[q].startTs == t
  }

  /** What becomes of one statistics row. */
  ghost function Fate(db: Database, table: map<int, StatRow>, m: Row, seen: set<int>, row: StatRow): Option<StatRow> {
    if o :| Goes(db, m, seen, row.metadataId, o)
    then if Starts(table, o, row.startTs) then None else Some(row.(metadataId := o))
    else Some(row)
  }

  ghost function TableAfter(db: Database, table: map<int, StatRow>, m: Row, seen: set<int>): map<int, StatRow> {
    map r | r in table && Fate(db, table, m, seen, table[r]).Some? :: Fate(db, table, m, seen, table[r]).value
  }

  ghost function SeriesAfter(db: Database, m: Row, seen: set<int>): map<int, Series> {
    map i | i in db.series && !Gone(db, m, seen, i) ::
      if i in seen && OldSeries(db, m, i) && !Blocked(db, m, i) then db.series[i].(statisticId := m.newId)
      else db.series[i]
  }

  /** The old series of one mapping have different sources. */
  ghost predicate DistinctSources(db: Database, m: Row) {
    forall i, j :: OldSeries(db, m, i) && OldSeries(db, m, j) && i != j ==> db.series[i].source != db.series[j].source
  }

  ghost function Merged(db: Database, m: Row, seen: set<int>): Database {
    db.(series := SeriesAfter(db, m, seen),
        statistics := TableAfter(db, db.statistics, m, seen),
        shortTerm := TableAfter(db, db.shortTerm, m, seen))
  }

  function OldOnes(db: Database, m: Row): set<int> {
    set i | i in db.series && db.series[i].statisticId == m.oldId
  }

  /** What merging the statistics of one mapping leaves. */
  ghost function StatisticsAfter(db: Database, m: Row): Database { Merged(db, m, OldOnes(db, m)) }

  lemma FateOf(db: Database, table: map<int, StatRow>, m: Row, seen: set<int>, row: StatRow, o: int)
    requires DistinctSources(db, m) && Goes(db, m, seen, row.metadataId, o)
    ensures Fate(db, table, m, seen, row)
         == if Starts(table, o, row.startTs) then None else Some(row.(metadataId := o))
  {
    hide Blocked, Starts;
  }

  /** A series merges into one more once that one is dealt with. */
  lemma GoesGrows(db: Database, m: Row, seen: set<int>, o: int, n: int, x: int)
    ensures Goes(db, m, seen + {o}, n, x) <==>
      Goes(db, m, seen, n, x) || (x == o && Pairs(db, m, o, n) && !Blocked(db, m, o))
  {
    hide Blocked;
  }

  /** The result of the two table statements: rows of n are dropped where o has one of that time,
      and re-pointed to o otherwise. */
  function Joined(table: map<int, StatRow>, o: int, n: int): map<int, StatRow> {
    map r | r in table && !(table[r].metadataId == n && Starts(table, o, table[r].startTs)) ::
      if table[r].metadataId == n then table[r].(metadataId := o) else table[r]
  }

  lemma FateGrows(db: Database, table: map<int, StatRow>, m: Row, seen: set<int>, o: int, row: StatRow)
    requires DistinctSources(db, m) && OldSeries(db, m, o) && o !in seen
    ensures Fate(db, table, m, seen + {o}, row)
         == if Pairs(db, m, o, row.metadataId) && !Blocked(db, m, o)
            then if Starts(table, o, row.startTs) then None else Some(row.(metadataId := o))
            else Fate(db, table, m, seen, row)
  {
    var n := row.metadataId;
    forall x
      ensures Goes(db, m, seen + {o}, n, x) <==>
        Goes(db, m, seen, n, x) || (x == o && Pairs(db, m, o, n) && !Blocked(db, m, o))
    {
      GoesGrows(db, m, seen, o, n, x);
    }
    hide Blocked, Starts, Pairs;
    if Goes(db, m, seen + {o}, n, o) {
      FateOf(db, table, m, seen + {o}, row, o);
    } else if x :| Goes(db, m, seen, n, x) {
      FateOf(db, table, m, seen, row, x);
      FateOf(db, table, m, seen + {o}, row, x);
    }
  }

  lemma GoneGrows(db: Database, m: Row, seen: set<int>, o: int, n: int)
    requires OldSeries(db, m, o)
    ensures Gone(db, m, seen + {o}, n) <==> Gone(db, m, seen, n) || (Pairs(db, m, o, n) && !Blocked(db, m, o))
  {
    hide Blocked, Pairs, Goes;
    forall x
      ensures Goes(db, m, seen + {o}, n, x) <==>
        Goes(db, m, seen, n, x) || (x == o && Pairs(db, m, o, n) && !Blocked(db, m, o))
    {
      GoesGrows(db, m, seen, o, n, x);
    }
    if Pairs(db, m, o, n) && !Blocked(db, m, o) { assert Goes(db, m, seen + {o}, n, o); }
    if x :| Goes(db, m, seen, n, x) { assert Goes(db, m, seen + {o}, n, x); }
  }

  /** A series that joins nothing keeps its tables. */
  lemma TableStays(db: Database, table: map<int, StatRow>, m: Row, seen: set<int>, o: int)
    requires DistinctSources(db, m) && OldSeries(db, m, o) && o !in seen
    requires Blocked(db, m, o) || forall n :: !Pairs(db, m, o, n)
    ensures TableAfter(db, table, m, seen + {o}) == TableAfter(db, table, m, seen)
  {
    hide Blocked, Fate, DistinctSources;
    forall r | r in table ensures Fate(db, table, m, seen + {o}, table[r]) == Fate(db, table, m, seen, table[r]) {
      FateGrows(db, table, m, seen, o, table[r]);
    }
  }

  lemma SeriesStays(db: Database, m: Row, seen: set<int>, o: int)
    requires OldSeries(db, m, o) && o !in seen && Blocked(db, m, o)
    ensures SeriesAfter(db, m, seen + {o}) == SeriesAfter(db, m, seen)
  {
    hide Blocked, Gone;
    forall i ensures Gone(db, m, seen + {o}, i) <==> Gone(db, m, seen, i) {
      GoneGrows(db, m, seen, o, i);
    }
  }

  /** No old series is merged away, and a new one only into its partner. */
  lemma GoneOnlyNew(db: Database, m: Row, seen: set<int>, n: int)
    requires Usable(m) && Gone(db, m, seen, n)
    ensures NewSeries(db, m, n) && !OldSeries(db, m, n)
  {}

  lemma PartnerIsUnique(db: Database, m: Row, seen: set<int>, o: int, n: int)
    requires DistinctSources(db, m) && Pairs(db, m, o, n) && o !in seen
    ensures !Gone(db, m, seen, n)
  {
    hide Blocked;
  }

  lemma SeriesRenamed(db: Database, m: Row, seen: set<int>, o: int)
    requires Usable(m) && OldSeries(db, m, o) && o !in seen && !Blocked(db, m, o) && (forall n :: !Pairs(db, m, o, n))
    ensures o in SeriesAfter(db, m, seen) && SeriesAfter(db, m, seen)[o] == db.series[o]
    ensures SeriesAfter(db, m, seen + {o}) == SeriesAfter(db, m, seen)[o := db.series[o].(statisticId := m.newId)]
  {
    if Gone(db, m, seen, o) { GoneOnlyNew(db, m, seen, o); }
    hide Blocked, Gone, Pairs;
    forall i ensures Gone(db, m, seen + {o}, i) <==> Gone(db, m, seen, i) {
      GoneGrows(db, m, seen, o, i);
    }
  }

  lemma OnlyPartner(db: Database, m: Row, o: int, n: int, k: int)
    requires Pairs(db, m, o, n) && Pairs(db, m, o, k) && !DuplicateSource(db, m, db.series[o].source)
    ensures k == n
  {}

  lemma SeriesJoined(db: Database, m: Row, seen: set<int>, o: int, n: int)
    requires Usable(m) && o !in seen && Pairs(db, m, o, n) && !Blocked(db, m, o) && DistinctSources(db, m)
    ensures o in SeriesAfter(db, m, seen) && SeriesAfter(db, m, seen)[o] == db.series[o]
    ensures n in SeriesAfter(db, m, seen) && SeriesAfter(db, m, seen)[n] == db.series[n]
    ensures SeriesAfter(db, m, seen + {o})
         == (SeriesAfter(db, m, seen) - {n})[o := db.series[o].(statisticId := m.newId)]
  {
    if Gone(db, m, seen, o) { GoneOnlyNew(db, m, seen, o); }
    PartnerIsUnique(db, m, seen, o, n);
    assert !DuplicateSource(db, m, db.series[o].source);
    forall i ensures Pairs(db, m, o, i) <==> i == n {
      if Pairs(db, m, o, i) { OnlyPartner(db, m, o, n, i); }
    }
    hide Blocked, Gone, DuplicateSource, DistinctSources;
    forall i ensures Gone(db, m, seen + {o}, i) <==> Gone(db, m, seen, i) || i == n {
      GoneGrows(db, m, seen, o, i);
    }
  }

  /** Rows of a series nothing has happened to yet are still its rows, and no others are. */
  lemma RowsOf(db: Database, table: map<int, StatRow>, m: Row, seen: set<int>, x: int, r: int)
    requires x !in seen && !Gone(db, m, seen, x)
    ensures var after := TableAfter(db, table, m, seen);
      && (r in after && after[r].metadataId == x <==> r in table && table[r].metadataId == x)
      && (r in table && table[r].metadataId == x ==> after[r] == table[r])
  {
    hide Blocked, Pairs, Starts;
  }

  lemma StartsStay(db: Database, table: map<int, StatRow>, m: Row, seen: set<int>, x: int, t: real)
    requires x !in seen && !Gone(db, m, seen, x)
    ensures Starts(TableAfter(db, table, m, seen), x, t) <==> Starts(table, x, t)
  {
    hide Gone, Fate;
    forall r ensures
      var after := TableAfter(db, table, m, seen);
      && (r in after && after[r].metadataId == x <==> r in table && table[r].metadataId == x)
      && (r in table && table[r].metadataId == x ==> after[r] == table[r])
    {
      RowsOf(db, table, m, seen, x, r);
    }
    hide TableAfter;
  }

  lemma RowJoined(db: Database, table: map<int, StatRow>, m: Row, seen: set<int>, o: int, n: int, r: int)
    requires o !in seen && OldSeries(db, m, o) && !Blocked(db, m, o) && DistinctSources(db, m)
    requires !Gone(db, m, seen, o) && !Gone(db, m, seen, n) && n !in seen && r in table
    requires Pairs(db, m, o, table[r].metadataId) <==> table[r].metadataId == n
    ensures var after, joined := TableAfter(db, table, m, seen + {o}), Joined(TableAfter(db, table, m, seen), o, n);
      && (r in after <==> r in joined)
      && (r in after ==> after[r] == joined[r])
  {
    hide Blocked, Gone, Fate, Starts, Pairs, DistinctSources;
    FateGrows(db, table, m, seen, o, table[r]);
    StartsStay(db, table, m, seen, o, table[r].startTs);
    RowsOf(db, table, m, seen, n, r);
  }

  lemma KeysShrink(db: Database, table: map<int, StatRow>, m: Row, seen: set<int>, o: int, n: int)
    ensures TableAfter(db, table, m, seen + {o}).Keys <= table.Keys
    ensures Joined(TableAfter(db, table, m, seen), o, n).Keys <= table.Keys
  {
    hide Fate, Starts;
  }

  lemma TableJoined(db: Database, table: map<int, StatRow>, m: Row, seen: set<int>, o: int, n: int)
    requires Usable(m) && o !in seen && Pairs(db, m, o, n) && !Blocked(db, m, o) && DistinctSources(db, m)
    requires !Gone(db, m, seen, o) && !Gone(db, m, seen, n) && n !in seen
    ensures TableAfter(db, table, m, seen + {o}) == Joined(TableAfter(db, table, m, seen), o, n)
  {
    var after, before := TableAfter(db, table, m, seen + {o}), TableAfter(db, table, m, seen);
    var joined := Joined(before, o, n);
    assert OldSeries(db, m, o) && !DuplicateSource(db, m, db.series[o].source);
    hide Gone, Fate, Starts, DistinctSources, DuplicateSource, Pairs, Usable, Blocked;
    KeysShrink(db, table, m, seen, o, n);
    hide TableAfter, Joined;
    forall r | r in table ensures (r in after <==> r in joined) && (r in after ==> after[r] == joined[r]) {
      var k := table[r].metadataId;
      assert Pairs(db, m, o, k) <==> k == n by {
        if Pairs(db, m, o, k) { OnlyPartner(db, m, o, n, k); }
      }
      RowJoined(db, table, m, seen, o, n, r);
    }
    hide *;
  }

  // ---------- What one mapping keeps ----------

  /** Two series that look the same to the recorder. */
  predicate Clash(db: Database, i: int, j: int) {
    i in db.series && j in db.series && i != j
    && db.series[i].statisticId == db.series[j].statisticId && db.series[i].source == db.series[j].source
  }

  ghost predicate UniqueSeries(db: Database) { forall i, j :: !Clash(db, i, j) }

  predicate UniqueStarts(table: map<int, StatRow>) {
    forall r, q :: r in table && q in table && r != q && table[r].metadataId == table[q].metadataId
      ==> table[r].startTs != table[q].startTs
  }

  /** A renamed series is the only one of its source under the new name. */
  lemma RenamedStandsAlone(db: Database, m: Row, i: int, j: int)
    requires Usable(m) && DistinctSources(db, m) && OldSeries(db, m, i) && !Blocked(db, m, i) && i != j
    requires j in StatisticsAfter(db, m).series && StatisticsAfter(db, m).series[j].statisticId == m.newId
    ensures db.series[j].source != db.series[i].source
  {
    hide Blocked;
    assert Pairs(db, m, i, j) ==> Goes(db, m, OldOnes(db, m), j, i);
  }

  /** Merging and renaming never make two series look the same, even where the target already has
      duplicates or the units differ. */
  lemma NoNewClash(db: Database, m: Row, i: int, j: int)
    requires Usable(m) && DistinctSources(db, m) && Clash(StatisticsAfter(db, m), i, j)
    ensures Clash(db, i, j)
  {
    if OldSeries(db, m, i) && !Blocked(db, m, i) {
      RenamedStandsAlone(db, m, i, j);
    } else if OldSeries(db, m, j) && !Blocked(db, m, j) {
      RenamedStandsAlone(db, m, j, i);
    }
  }

  /** A surviving row stays as it was, or joins the series its own was merged into, at a time
      that series had nothing for. */
  lemma MovedOrStayed(db: Database, table: map<int, StatRow>, m: Row, seen: set<int>, r: int) returns (o: int)
    requires r in TableAfter(db, table, m, seen)
    ensures r in table
    ensures TableAfter(db, table, m, seen)[r] == table[r]
      || (Goes(db, m, seen, table[r].metadataId, o) && TableAfter(db, table, m, seen)[r] == table[r].(metadataId := o)
          && !Starts(table, o, table[r].startTs))
  {
    hide Pairs, Blocked, Starts;
    o := 0;
    if x :| Goes(db, m, seen, table[r].metadataId, x) {
      o := TableAfter(db, table, m, seen)[r].metadataId;
    }
  }

  lemma SameOrigin(db: Database, m: Row, seen: set<int>, o: int, n: int, k: int)
    requires Goes(db, m, seen, n, o) && Goes(db, m, seen, k, o)
    ensures n == k
  {
    OnlyPartner(db, m, o, n, k);
  }

  lemma StartsStayUnique(db: Database, table: map<int, StatRow>, m: Row, seen: set<int>)
    requires UniqueStarts(table)
    ensures UniqueStarts(TableAfter(db, table, m, seen))
  {
    var after := TableAfter(db, table, m, seen);
    hide TableAfter, Goes;
    forall r, q | r in after && q in after && r != q && after[r].metadataId == after[q].metadataId
      ensures after[r].startTs != after[q].startTs
    {
      var o := MovedOrStayed(db, table, m, seen, r);
      var x := MovedOrStayed(db, table, m, seen, q);
      if Goes(db, m, seen, table[r].metadataId, o) && Goes(db, m, seen, table[q].metadataId, o) {
        SameOrigin(db, m, seen, o, table[r].metadataId, table[q].metadataId);
      }
    }
  }

  /** No time slot of a series is lost: each row's time is still covered, by its own series or by
      the one its series was merged into. */
  lemma SlotsAreKept(db: Database, table: map<int, StatRow>, m: Row, seen: set<int>, r: int)
    requires Usable(m) && DistinctSources(db, m) && r in table
    ensures var n, t := table[r].metadataId, table[r].startTs;
      && (forall o :: Goes(db, m, seen, n, o) ==> Starts(TableAfter(db, table, m, seen), o, t))
      && (!Gone(db, m, seen, n) ==>
            r in TableAfter(db, table, m, seen) && TableAfter(db, table, m, seen)[r] == table[r])
  {
    var n, t, after := table[r].metadataId, table[r].startTs, TableAfter(db, table, m, seen);
    hide Blocked;
    forall o | Goes(db, m, seen, n, o) ensures Starts(after, o, t) {
      FateOf(db, table, m, seen, table[r], o);
      if Starts(table, o, t) {
        var q :| q in table && table[q].metadataId == o && table[q].startTs == t;
        if Gone(db, m, seen, o) { GoneOnlyNew(db, m, seen, o); }
        assert Fate(db, table, m, seen, table[q]) == Some(table[q]);
        assert q in after && after[q] == table[q];
      } else {
        assert r in after && after[r].metadataId == o && after[r].startTs == t;
      }
    }
  }

  /** Nothing of a series that the mapping does not name is touched, and no row joins it. */
  lemma UnnamedUntouched(db: Database, m: Row, i: int)
    requires i in db.series && db.series[i].statisticId != m.oldId && db.series[i].statisticId != m.newId
    ensures var after := StatisticsAfter(db, m);
      && i in after.series && after.series[i] == db.series[i]
      && RowsSame(db.statistics, after.statistics, i) && RowsSame(db.shortTerm, after.shortTerm, i)
  {
    var all := OldOnes(db, m);
    UnnamedRows(db, db.statistics, m, all, i);
    UnnamedRows(db, db.shortTerm, m, all, i);
  }

  ghost predicate RowsSame(before: map<int, StatRow>, after: map<int, StatRow>, i: int) {
    && (forall r :: r in before && before[r].metadataId == i ==> r in after && after[r] == before[r])
    && (forall r :: r in after && after[r].metadataId == i ==> r in before && before[r] == after[r])
  }

  lemma UnnamedRows(db: Database, table: map<int, StatRow>, m: Row, seen: set<int>, i: int)
    requires seen == OldOnes(db, m) && !OldSeries(db, m, i) && !NewSeries(db, m, i)
    ensures RowsSame(table, TableAfter(db, table, m, seen), i)
  {
    assert !Gone(db, m, seen, i) && i !in seen;
    hide Gone, TableAfter;
    forall r ensures
      var after := TableAfter(db, table, m, seen);
      && (r in after && after[r].metadataId == i <==> r in table && table[r].metadataId == i)
      && (r in table && table[r].metadataId == i ==> after[r] == table[r])
    {
      RowsOf(db, table, m, seen, i, r);
    }
  }

  /** What merging a pair means for a table: the old series holds exactly its rows and those of the
      new one whose start it lacked, and nothing refers to the new one any more. */
  lemma MergedExactly(db: Database, table: map<int, StatRow>, m: Row, o: int, n: int, r: int)
    requires Usable(m) && DistinctSources(db, m) && Goes(db, m, OldOnes(db, m), n, o)
    ensures var after := TableAfter(db, table, m, OldOnes(db, m));
      && (r in after && after[r].metadataId == o <==>
            && r in table
            && (table[r].metadataId == o || (table[r].metadataId == n && !Starts(table, o, table[r].startTs))))
      && (r in after ==>
            && r in table && after[r].metadataId != n
            && after[r].startTs == table[r].startTs && after[r].recorded == table[r].recorded)
    ensures n !in StatisticsAfter(db, m).series
    ensures o in StatisticsAfter(db, m).series
    ensures StatisticsAfter(db, m).series[o] == db.series[o].(statisticId := m.newId)
  {
    var all := OldOnes(db, m);
    if Gone(db, m, all, o) { GoneOnlyNew(db, m, all, o); }
    hide Blocked, Starts;
    if r in table {
      var row := table[r];
      if row.metadataId == n {
        FateOf(db, table, m, all, row, o);
      } else if x :| Goes(db, m, all, row.metadataId, x) {
        FateOf(db, table, m, all, row, x);
        assert x != n;
        if x == o { SameOrigin(db, m, all, o, row.metadataId, n); }
      }
    }
  }

  /** A series that must not be merged, for clashing units or duplicate targets, stays as it is. */
  lemma BlockedUntouched(db: Database, table: map<int, StatRow>, m: Row, o: int)
    requires Usable(m) && DistinctSources(db, m) && OldSeries(db, m, o) && Blocked(db, m, o)
    ensures var all := OldOnes(db, m);
      && o in StatisticsAfter(db, m).series && StatisticsAfter(db, m).series[o] == db.series[o]
      && RowsSame(table, TableAfter(db, table, m, all), o)
      && forall n :: Pairs(db, m, o, n) ==>
           n in StatisticsAfter(db, m).series && StatisticsAfter(db, m).series[n] == db.series[n]
           && RowsSame(table, TableAfter(db, table, m, all), n)
  {
    var all := OldOnes(db, m);
    assert !Gone(db, m, all, o) by { if Gone(db, m, all, o) { GoneOnlyNew(db, m, all, o); } }
    KeptRows(db, table, m, all, o);
    forall n | Pairs(db, m, o, n)
      ensures n in StatisticsAfter(db, m).series && StatisticsAfter(db, m).series[n] == db.series[n]
      ensures RowsSame(table, TableAfter(db, table, m, all), n)
    {
      assert forall x :: OldSeries(db, m, x) && Pairs(db, m, x, n) ==> x == o;
      assert !Gone(db, m, all, n) && n !in all;
      hide Blocked, Gone, TableAfter;
      KeptRows(db, table, m, all, n);
    }
  }

  /** A series that goes nowhere and that nothing joins keeps exactly its rows. */
  lemma KeptRows(db: Database, table: map<int, StatRow>, m: Row, seen: set<int>, i: int)
    requires !Gone(db, m, seen, i) && (forall n :: !Goes(db, m, seen, n, i))
    ensures RowsSame(table, TableAfter(db, table, m, seen), i)
  {
    hide Blocked, Pairs, Starts, OldSeries;
  }

  /** The target has more than one series of this source. */
  ghost predicate SeveralTargets(db: Database, m: Row, source: string) {
    exists i, j :: i != j && i in db.series && j in db.series
      && db.series[i].statisticId == m.newId && db.series[j].statisticId == m.newId
      && db.series[i].source == source && db.series[j].source == source
  }

  /** The target has a series of this source, and both state units that differ. */
  ghost predicate OtherUnit(db: Database, m: Row, s: Series) {
    exists n :: n in db.series && db.series[n].statisticId == m.newId && db.series[n].source == s.source
      && s.unit != "" && db.series[n].unit != "" && db.series[n].unit != s.unit
  }

  /** What merging leaves of the names: an old series keeps its name exactly if the target has several
      series of its source, or one in another unit; otherwise it bears the new name. No other series
      changes its name, and only series of the new name may go. */
  lemma NamesExactly(db: Database, m: Row, i: int)
    requires Usable(m) && i in db.series
    ensures
      var s, after := db.series[i], StatisticsAfter(db, m).series;
      && (s.statisticId == m.oldId ==>
            i in after && after[i] ==
              if SeveralTargets(db, m, s.source) || OtherUnit(db, m, s) then s else s.(statisticId := m.newId))
      && (i in after && s.statisticId != m.oldId ==> after[i] == s)
      && (i !in after ==> s.statisticId == m.newId)
    ensures StatisticsAfter(db, m).series.Keys <= db.series.Keys
  {
    var s := db.series[i];
    if s.statisticId == m.oldId {
      BlockedExactly(db, m, i);
    }
    if Gone(db, m, OldOnes(db, m), i) { GoneOnlyNew(db, m, OldOnes(db, m), i); }
    hide Blocked, SeveralTargets, OtherUnit, TableAfter;
  }

  lemma BlockedExactly(db: Database, m: Row, o: int)
    requires OldSeries(db, m, o)
    ensures Blocked(db, m, o) <==> SeveralTargets(db, m, db.series[o].source) || OtherUnit(db, m, db.series[o])
  {
    var s := db.series[o];
    assert DuplicateSource(db, m, s.source) <==> SeveralTargets(db, m, s.source);
    if n :| Pairs(db, m, o, n) && UnitsClash(s, db.series[n]) {
      assert n in db.series && db.series[n].statisticId == m.newId;
      assert OtherUnit(db, m, s);
    }
    if OtherUnit(db, m, s) {
      var n :| n in db.series && db.series[n].statisticId == m.newId && db.series[n].source == s.source
        && s.unit != "" && db.series[n].unit != "" && db.series[n].unit != s.unit;
      assert Pairs(db, m, o, n) && UnitsClash(s, db.series[n]);
    }
  }

  /** A series of the new name is merged away exactly if some old series of its source takes its rows
      over, which it does unless it must not be merged. */
  lemma MergedAwayExactly(db: Database, m: Row, n: int)
    requires Usable(m) && n in db.series && db.series[n].statisticId == m.newId
    ensures n !in StatisticsAfter(db, m).series <==>
      exists o ::
        && o in db.series && db.series[o].statisticId == m.oldId && db.series[o].source == db.series[n].source
        && !SeveralTargets(db, m, db.series[n].source) && !OtherUnit(db, m, db.series[o])
  {
    forall o | OldSeries(db, m, o)
      ensures Goes(db, m, OldOnes(db, m), n, o) <==>
        && db.series[o].source == db.series[n].source
        && !SeveralTargets(db, m, db.series[n].source) && !OtherUnit(db, m, db.series[o])
    {
      BlockedExactly(db, m, o);
    }
    hide Blocked, SeveralTargets, OtherUnit, TableAfter;
    assert forall o :: OldSeries(db, m, o) <==> o in db.series && db.series[o].statisticId == m.oldId;
  }

  /** After the states of a mapping are merged nothing belongs to the old name any more, and wherever
      the old name had a metadata row, the rows of both names carry the new one in their column. */
  lemma StatesRenamed(db: Database, m: Row, r: int)
    requires Usable(m) && !StatesRefused(db, m) && r in db.states
    ensures forall i :: i in StatesAfter(db, m).statesMeta ==> StatesAfter(db, m).statesMeta[i] != m.oldId
    ensures
      var known := exists o :: o in db.statesMeta && db.statesMeta[o] == m.oldId;
      var moves := EntityOf(db, r) == Some(m.oldId) || EntityOf(db, r) == Some(m.newId);
      StatesAfter(db, m).states[r].entityId == if known && moves then m.newId else db.states[r].entityId
  {}

  // ---------- A whole mapping list ----------

  /** The tables after the mappings, one after the other; nothing when a lookup raises. */
  ghost function CopyAll(db: Database, mappings: seq<Row>): Option<Database> {
    if mappings == [] then Some(db)
    else
      var m := mappings[|mappings| - 1];
      var before := CopyAll(db, mappings[..|mappings| - 1]);
      if before.None? || StatesRefused(before.value, m) then None
      else Some(StatisticsAfter(StatesAfter(before.value, m), m))
  }

  /** The name an entity ends up with. */
  function FinalName(mappings: seq<Row>, e: Option<string>): Option<string> {
    if mappings == [] then e else Renamed(mappings[|mappings| - 1], FinalName(mappings[..|mappings| - 1], e))
  }

  ghost predicate Sound(db: Database) {
    UniqueSeries(db) && UniqueStarts(db.statistics) && UniqueStarts(db.shortTerm)
  }

  ghost predicate StatesSurvive(db: Database, after: Database, mappings: seq<Row>) {
    && after.states.Keys == db.states.Keys
    && forall r :: r in db.states ==>
      after.states[r].recorded == db.states[r].recorded && EntityOf(after, r) == FinalName(mappings, EntityOf(db, r))
  }

  /** Over any mapping list: every states row survives under the name its entity ends up with, no
      two series look the same, no series has two rows for one time. */
  lemma {:induction false} CopyKeepsHistory(db: Database, mappings: seq<Row>)
    requires (forall i :: 0 <= i < |mappings| ==> Usable(mappings[i])) && Sound(db) && CopyAll(db, mappings).Some?
    ensures StatesSurvive(db, CopyAll(db, mappings).value, mappings) && Sound(CopyAll(db, mappings).value)
  {
    if mappings != [] {
      var front, m := mappings[..|mappings| - 1], mappings[|mappings| - 1];
      CopyKeepsHistory(db, front);
      assert Usable(m);
      hide StatesAfter, StatisticsAfter, StatesRefused, Sound;
      var before := CopyAll(db, front).value;
      StatesKept(before, m);
      StepIsSound(before, m);
    }
  }

  lemma StepIsSound(db: Database, m: Row)
    requires Usable(m) && Sound(db)
    ensures Sound(StatisticsAfter(StatesAfter(db, m), m))
    ensures StatisticsAfter(StatesAfter(db, m), m).states == StatesAfter(db, m).states
    ensures StatisticsAfter(StatesAfter(db, m), m).statesMeta == StatesAfter(db, m).statesMeta
    ensures DistinctSources(StatesAfter(db, m), m)
  {
    var mid := StatesAfter(db, m);
    assert mid.series == db.series && mid.statistics == db.statistics && mid.shortTerm == db.shortTerm;
    forall i, j ensures !Clash(mid, i, j) { assert !Clash(db, i, j); }
    UniqueIsDistinct(mid, m);
    hide StatesAfter, TableAfter, UniqueStarts, SeriesAfter;
    forall i, j ensures !Clash(StatisticsAfter(mid, m), i, j) {
      assert !Clash(mid, i, j);
      if Clash(StatisticsAfter(mid, m), i, j) { NoNewClash(mid, m, i, j); }
    }
    StartsStayUnique(mid, mid.statistics, m, OldOnes(mid, m));
    StartsStayUnique(mid, mid.shortTerm, m, OldOnes(mid, m));
  }

  lemma UniqueIsDistinct(db: Database, m: Row)
    requires UniqueSeries(db)
    ensures DistinctSources(db, m)
  {
    forall i, j | OldSeries(db, m, i) && OldSeries(db, m, j) && i != j
      ensures db.series[i].source != db.series[j].source
    {
      assert !Clash(db, i, j);
    }
  }

  /** The hourly table, or the short-term one. */
  function TableOf(db: Database, short: bool): map<int, StatRow> {
    if short then db.shortTerm else db.statistics
  }

  /** The mappings, or some of them, in turn take one name to the other. */
  ghost predicate Leads(mappings: seq<Row>, name: string, later: string) {
    if mappings == [] then later == name
    else
      var m, front := mappings[|mappings| - 1], mappings[..|mappings| - 1];
      Leads(front, name, later) || (later == m.newId && Leads(front, name, m.oldId))
  }

  /** Series j has a row for the time, and is series s, renamed at most as the mappings lead. */
  ghost predicate Holds(db: Database, short: bool, mappings: seq<Row>, s: Series, t: real, j: int) {
    && j in db.series && Starts(TableOf(db, short), j, t)
    && db.series[j].source == s.source && Leads(mappings, s.statisticId, db.series[j].statisticId)
  }

  /** One mapping: what held the time still does, or the series it was merged into. */
  lemma SlotStays(db: Database, short: bool, m: Row, s: Series, t: real, j: int, front: seq<Row>) returns (k: int)
    requires Usable(m) && DistinctSources(db, m) && Holds(db, short, front, s, t, j)
    ensures Holds(StatisticsAfter(db, m), short, front + [m], s, t, k)
  {
    var all, table := OldOnes(db, m), TableOf(db, short);
    var after := TableOf(StatisticsAfter(db, m), short);
    assert after == TableAfter(db, table, m, all);
    assert (front + [m])[..|front|] == front;
    hide TableAfter, Fate, Blocked, Starts, Leads;
    var r := RowAt(table, j, t);
    SlotsAreKept(db, table, m, all, r);
    if Gone(db, m, all, j) {
      var o :| Goes(db, m, all, j, o);
      k := o;
      MergedSeries(db, m, j, o);
    } else {
      k := j;
      assert r in after && after[r].metadataId == j && after[r].startTs == t;
      RowStarts(after, j, t, r);
    }
    LeadsOn(front, m, s.statisticId, db.series[j].statisticId, StatisticsAfter(db, m).series[k].statisticId);
  }

  lemma RowAt(table: map<int, StatRow>, id: int, t: real) returns (r: int)
    requires Starts(table, id, t)
    ensures r in table && table[r].metadataId == id && table[r].startTs == t
  {
    r :| r in table && table[r].metadataId == id && table[r].startTs == t;
  }

  lemma RowStarts(table: map<int, StatRow>, id: int, t: real, r: int)
    requires r in table && table[r].metadataId == id && table[r].startTs == t
    ensures Starts(table, id, t)
  {}

  lemma MergedSeries(db: Database, m: Row, n: int, o: int)
    requires Usable(m) && Goes(db, m, OldOnes(db, m), n, o)
    ensures var after := StatisticsAfter(db, m).series;
      o in after && after[o] == db.series[o].(statisticId := m.newId) && after[o].source == db.series[n].source
    ensures n in db.series && db.series[n].statisticId == m.newId
  {
    if Gone(db, m, OldOnes(db, m), o) { GoneOnlyNew(db, m, OldOnes(db, m), o); }
    hide Blocked, TableAfter;
  }

  lemma LeadsOn(front: seq<Row>, m: Row, name: string, middle: string, later: string)
    requires Leads(front, name, middle) && (later == middle || (middle == m.oldId && later == m.newId))
    ensures Leads(front + [m], name, later)
  {
    assert (front + [m])[..|front|] == front;
  }

  lemma CopyStep(db: Database, mappings: seq<Row>)
    requires mappings != [] && CopyAll(db, mappings).Some?
    ensures var m, before := mappings[|mappings| - 1], CopyAll(db, mappings[..|mappings| - 1]);
      before.Some? && CopyAll(db, mappings).value == StatisticsAfter(StatesAfter(before.value, m), m)
  {
    hide StatesAfter, StatisticsAfter, StatesRefused;
  }

  lemma SlotStaysWhole(db: Database, short: bool, m: Row, s: Series, t: real, j: int, front: seq<Row>) returns (k: int)
    requires Usable(m) && Sound(db) && Holds(db, short, front, s, t, j)
    ensures Holds(StatisticsAfter(StatesAfter(db, m), m), short, front + [m], s, t, k)
  {
    var mid := StatesAfter(db, m);
    assert mid.series == db.series && mid.statistics == db.statistics && mid.shortTerm == db.shortTerm;
    hide StatesAfter, StatisticsAfter, Sound, Starts, Leads;
    StepIsSound(db, m);
    k := SlotStays(mid, short, m, s, t, j, front);
  }

  lemma NothingCopied(db: Database, short: bool, i: int, t: real)
    requires i in db.series && Starts(TableOf(db, short), i, t)
    ensures CopyAll(db, []) == Some(db) && Holds(db, short, [], db.series[i], t, i)
  {
    hide Starts, TableOf;
  }

  /** No time slot is lost over a whole mapping list: wherever a series had a row, hourly or
      short-term, some series still has one for that time, of the same source and under the same
      name or one the mappings lead to. */
  lemma {:induction false} CopyKeepsSlots(db: Database, mappings: seq<Row>, short: bool, i: int, t: real)
    returns (k: int)
    requires (forall j :: 0 <= j < |mappings| ==> Usable(mappings[j])) && Sound(db) && CopyAll(db, mappings).Some?
    requires i in db.series && Starts(TableOf(db, short), i, t)
    ensures Holds(CopyAll(db, mappings).value, short, mappings, db.series[i], t, k)
  {
    hide Sound, Holds, StatesAfter, StatisticsAfter, StatesRefused, Starts, StatesSurvive, CopyAll, Usable, TableOf;
    if mappings == [] {
      k := i;
      NothingCopied(db, short, i, t);
    } else {
      CopyStep(db, mappings);
      var front, m := mappings[..|mappings| - 1], mappings[|mappings| - 1];
      var j := CopyKeepsSlots(db, front, short, i, t);
      CopyKeepsHistory(db, front);
      assert mappings == front + [m];
      k := SlotStaysWhole(CopyAll(db, front).value, short, m, db.series[i], t, j, front);
    }
  }

  /** And a series no mapping names is as it was, with exactly its rows. */
  lemma {:induction false} CopyLeavesOthers(db: Database, mappings: seq<Row>, i: int)
    requires CopyAll(db, mappings).Some? && i in db.series
    requires forall k :: 0 <= k < |mappings| ==>
      mappings[k].oldId != db.series[i].statisticId && mappings[k].newId != db.series[i].statisticId
    ensures var after := CopyAll(db, mappings).value;
      && i in after.series && after.series[i] == db.series[i]
      && RowsSame(db.statistics, after.statistics, i) && RowsSame(db.shortTerm, after.shortTerm, i)
  {
    if mappings != [] {
      var front, m := mappings[..|mappings| - 1], mappings[|mappings| - 1];
      CopyLeavesOthers(db, front, i);
      var before := CopyAll(db, front).value;
      assert StatesAfter(before, m).series == before.series && StatesAfter(before, m).statistics == before.statistics
        && StatesAfter(before, m).shortTerm == before.shortTerm;
      hide StatesAfter, StatesRefused;
      UnnamedUntouched(StatesAfter(before, m), m, i);
    }
  }

  /** The copy is refused only for a name that has more than one metadata row to begin with: none of
      its steps makes a later one fail. */
  lemma {:induction false} CopyGoesThrough(db: Database, mappings: seq<Row>)
    requires forall i :: 0 <= i < |mappings| ==> Usable(mappings[i])
    requires forall e :: !Ambiguous(db.statesMeta, e)
    ensures CopyAll(db, mappings).Some? && forall e :: !Ambiguous(CopyAll(db, mappings).value.statesMeta, e)
  {
    if mappings != [] {
      var front, m := mappings[..|mappings| - 1], mappings[|mappings| - 1];
      CopyGoesThrough(db, front);
      assert Usable(m);
      var before := CopyAll(db, front).value;
      hide StatesAfter, SeriesAfter, TableAfter, Ambiguous;
      StatesKept(before, m);
    }
  }

  /** A lookup that raises ends the whole copy. */
  lemma {:induction false} RefusedStays(db: Database, mappings: seq<Row>, k: nat)
    requires k <= |mappings| && CopyAll(db, mappings[..k]).None?
    ensures CopyAll(db, mappings).None?
    decreases |mappings|
  {
    if k == |mappings| {
      assert mappings[..k] == mappings;
    } else {
      var front := mappings[..|mappings| - 1];
      assert front[..k] == mappings[..k];
      RefusedStays(db, front, k);
    }
  }

  // ---------- The merge statements ----------

  /** Deletes the rows of n whose time o already has, then re-points the rest of n to o. */
  method MergeStatisticsTable(table: map<int, StatRow>, o: int, n: int) returns (after: map<int, StatRow>)
    requires o != n
    ensures after == Joined(table, o, n)
  {
    var oldStarts := set q | q in table && table[q].metadataId == o :: table[q].startTs;
    after := table;
    if oldStarts != {} {
      after := map r | r in table && !(table[r].metadataId == n && table[r].startTs in oldStarts) :: table[r];
    }
    assert forall t :: t in oldStarts <==> Starts(table, o, t);
    after := map r | r in after :: if after[r].metadataId == n then after[r].(metadataId := o) else after[r];
  }

  /** The sources with exactly one series of the target not yet paired. */
  ghost predicate Unpaired(db: Database, m: Row, seen: set<int>, bySource: map<string, int>) {
    && (forall s :: s in bySource ==>
         NewSeries(db, m, bySource[s]) && db.series[bySource[s]].source == s && !DuplicateSource(db, m, s))
    && (forall o, n :: Pairs(db, m, o, n) && o !in seen && !DuplicateSource(db, m, db.series[o].source)
         ==> db.series[o].source in bySource)
  }

  lemma PairingOne(db: Database, m: Row, seen: set<int>, bySource: map<string, int>, o: int)
    requires DistinctSources(db, m) && Unpaired(db, m, seen, bySource) && OldSeries(db, m, o) && o !in seen
    ensures Unpaired(db, m, seen + {o}, bySource - {db.series[o].source})
  {
    hide DuplicateSource;
  }

  lemma OwnersCount(meta: map<int, string>, entity: string)
    ensures |Owners(meta, entity)| > 1 <==> Ambiguous(meta, entity)
  {
    var all := Owners(meta, entity);
    assert forall i :: i in all <==> i in meta && meta[i] == entity;
    hide Owners;
    if |all| > 1 {
      var i := Member(all);
      assert |all - {i}| == |all| - 1;
      var j := Member(all - {i});
      assert meta[i] == entity && meta[j] == entity;
    }
    if i, j :| i in meta && j in meta && i != j && meta[i] == entity && meta[j] == entity {
      assert i in all && j in all - {i};
      assert |all - {i}| == |all| - 1;
    }
  }

  lemma OnlyMember(s: set<int>, x: int)
    requires x in s && |s| <= 1
    ensures s == {x}
  {
    assert |s - {x}| == |s| - 1;
    assert s == s - {x} + {x};
  }

  lemma NothingSeen(db: Database, m: Row)
    ensures Merged(db, m, {}) == db
  {
    NoFate(db, db.statistics, m);
    NoFate(db, db.shortTerm, m);
    NoneGone(db, m);
    hide TableAfter, Gone;
    assert SeriesAfter(db, m, {}) == db.series;
  }

  lemma NoneGone(db: Database, m: Row)
    ensures forall n :: !Gone(db, m, {}, n)
  {
    NoneGoes(db, m);
    hide Goes;
  }

  lemma NoneGoes(db: Database, m: Row)
    ensures forall n, o :: !Goes(db, m, {}, n, o)
  {}

  lemma NoFate(db: Database, table: map<int, StatRow>, m: Row)
    ensures TableAfter(db, table, m, {}) == table
  {
    NoneGoes(db, m);
    hide Goes;
    forall r | r in table ensures Fate(db, table, m, {}, table[r]) == Some(table[r]) {}
    hide Fate;
  }

  /** An old series not dealt with yet, and the partner it may have, are as they were. */
  lemma OneAsBefore(db: Database, m: Row, seen: set<int>, o: int)
    requires Usable(m) && DistinctSources(db, m) && OldSeries(db, m, o) && o !in seen && seen <= OldOnes(db, m)
    ensures !Gone(db, m, seen, o)
    ensures o in SeriesAfter(db, m, seen) && SeriesAfter(db, m, seen)[o] == db.series[o]
    ensures forall n :: Pairs(db, m, o, n) ==>
      && n !in seen && !Gone(db, m, seen, n)
      && n in SeriesAfter(db, m, seen) && SeriesAfter(db, m, seen)[n] == db.series[n]
  {
    if Gone(db, m, seen, o) { GoneOnlyNew(db, m, seen, o); }
    hide Gone, Blocked, DistinctSources;
    forall n | Pairs(db, m, o, n)
      ensures n !in seen && !Gone(db, m, seen, n)
      ensures n in SeriesAfter(db, m, seen) && SeriesAfter(db, m, seen)[n] == db.series[n]
    {
      PartnerIsUnique(db, m, seen, o, n);
    }
  }

  lemma BlockedStays(db: Database, m: Row, seen: set<int>, o: int)
    requires DistinctSources(db, m) && OldSeries(db, m, o) && o !in seen && Blocked(db, m, o)
    ensures Merged(db, m, seen + {o}) == Merged(db, m, seen)
  {
    hide Blocked, TableAfter, SeriesAfter;
    SeriesStays(db, m, seen, o);
    TableStays(db, db.statistics, m, seen, o);
    TableStays(db, db.shortTerm, m, seen, o);
  }

  lemma DuplicateBlocks(db: Database, m: Row, o: int)
    requires o in db.series && DuplicateSource(db, m, db.series[o].source)
    ensures Blocked(db, m, o)
  {}

  lemma NoPartner(db: Database, m: Row, o: int)
    requires OldSeries(db, m, o) && (forall n :: !Pairs(db, m, o, n)) && !DuplicateSource(db, m, db.series[o].source)
    ensures !Blocked(db, m, o)
  {}

  lemma PartnerDecides(db: Database, m: Row, o: int, n: int)
    requires Pairs(db, m, o, n) && !DuplicateSource(db, m, db.series[o].source)
    ensures Blocked(db, m, o) <==> UnitsClash(db.series[o], db.series[n])
  {
    hide DuplicateSource, UnitsClash;
    if k :| Pairs(db, m, o, k) && UnitsClash(db.series[o], db.series[k]) {
      OnlyPartner(db, m, o, n, k);
    }
  }

  /** The sources the target has several series of, and the single series of the others. */
  function DuplicatesIn(series: map<int, Series>, newId: string): set<string> {
    set i, j | i in series && j in series && i != j && series[i].statisticId == newId && series[j].statisticId == newId
      && series[i].source == series[j].source :: series[i].source
  }

  function SinglesIn(series: map<int, Series>, newId: string): map<string, int> {
    map i | i in series && series[i].statisticId == newId && series[i].source !in DuplicatesIn(series, newId) ::
      series[i].source := i
  }

  lemma DuplicatesAre(db: Database, m: Row)
    ensures forall s :: s in DuplicatesIn(db.series, m.newId) <==> DuplicateSource(db, m, s)
  {}

  lemma StartPairing(db: Database, m: Row)
    ensures Unpaired(db, m, {}, SinglesIn(db.series, m.newId))
  {
    DuplicatesAre(db, m);
    hide DuplicatesIn, DuplicateSource;
  }

  /** One update: the rows of metadata row id move to row o and the given entity. */
  function Assigned(states: map<int, StateRow>, id: int, o: int, entity: string): map<int, StateRow> {
    map r | r in states :: if states[r].metadataId == id then StateRow(o, entity, states[r].recorded) else states[r]
  }

  /** The two updates and the deletion, for an existing old row o and the target's row if any. */
  lemma UpdatesMerge(db: Database, m: Row, o: int, news: set<int>)
    requires o in db.statesMeta && db.statesMeta[o] == m.oldId && Usable(m) && news == Owners(db.statesMeta, m.newId)
    ensures news == {} ==>
      StatesMerged(db, m, o).states == Assigned(db.states, o, o, m.newId)
    ensures forall n :: news == {n} ==>
      StatesMerged(db, m, o).states == Assigned(Assigned(db.states, n, o, m.newId), o, o, m.newId)
    ensures StatesMerged(db, m, o).statesMeta == (db.statesMeta - news)[o := m.newId]
  {
    assert o !in news;
    hide Owners;
  }

  lemma StatesMergedBy(db: Database, m: Row, o: int)
    requires forall i :: i in db.statesMeta && db.statesMeta[i] == m.oldId <==> i == o
    ensures StatesAfter(db, m) == StatesMerged(db, m, o)
  {
    assert o in db.statesMeta;
    hide StatesMerged;
  }

  class Session {
    var statesMeta: map<int, string>
    var states: map<int, StateRow>
    var series: map<int, Series>
    var statistics: map<int, StatRow>
    var shortTerm: map<int, StatRow>

    constructor (db: Database)
      ensures Db() == db
    {
      statesMeta, states, series := db.statesMeta, db.states, db.series;
      statistics, shortTerm := db.statistics, db.shortTerm;
    }

    function Db(): Database
      reads this
    {
      Database(statesMeta, states, series, statistics, shortTerm)
    }

    /** The two updates and the deletion for an existing old row o and the new rows, at most one. */
    method RebindStates(m: Row, o: int, news: set<int>)
      requires o in statesMeta && statesMeta[o] == m.oldId && Usable(m)
      requires news == Owners(statesMeta, m.newId) && |news| <= 1
      modifies this`statesMeta, this`states
      ensures Db() == StatesMerged(old(Db()), m, o)
    {
      UpdatesMerge(Db(), m, o, news);
      hide StatesMerged, Assigned, Owners;
      if news != {} {
        ghost var some := Member(news);
        var n :| n in news;
        OnlyMember(news, n);
        states := Assigned(states, n, o, m.newId);
        statesMeta := statesMeta - {n};
      }
      states := Assigned(states, o, o, m.newId);
      statesMeta := statesMeta[o := m.newId];
    }

    method MergeStatesMetadata(m: Row) returns (refused: bool)
      requires Usable(m)
      modifies this`statesMeta, this`states
      ensures refused <==> StatesRefused(old(Db()), m)
      ensures Db() == if refused then old(Db()) else StatesAfter(old(Db()), m)
    {
      var olds, news := Owners(statesMeta, m.oldId), Owners(statesMeta, m.newId);
      OwnersCount(statesMeta, m.oldId);
      OwnersCount(statesMeta, m.newId);
      hide Ambiguous;
      if |olds| > 1 || |news| > 1 { return true; }
      assert forall i :: i in statesMeta && statesMeta[i] == m.oldId <==> i in olds;
      hide Owners, StatesMerged;
      refused := false;
      if olds == {} { return; }
      ghost var some := Member(olds);
      var o :| o in olds;
      OnlyMember(olds, o);
      StatesMergedBy(Db(), m, o);
      RebindStates(m, o, news);
    }

    /** The body of the loop over the old series. */
    method MergeOne(ghost db: Database, m: Row, ghost seen: set<int>, o: int, duplicates: set<string>,
                    bySource: map<string, int>)
      returns (left: map<string, int>)
      requires Usable(m) && DistinctSources(db, m) && Db() == Merged(db, m, seen)
      requires OldSeries(db, m, o) && o !in seen && seen <= OldOnes(db, m) && Unpaired(db, m, seen, bySource)
      requires forall s :: s in duplicates <==> DuplicateSource(db, m, s)
      modifies this`series, this`statistics, this`shortTerm
      ensures Db() == Merged(db, m, seen + {o}) && Unpaired(db, m, seen + {o}, left)
    {
      OneAsBefore(db, m, seen, o);
      PairingOne(db, m, seen, bySource, o);
      var source := series[o].source;
      left := bySource - {source};
      hide Blocked, TableAfter, SeriesAfter, DistinctSources, Gone, DuplicateSource;
      if source in duplicates {
        assert Blocked(db, m, o) by { DuplicateBlocks(db, m, o); }
        BlockedStays(db, m, seen, o);
        return;
      }
      if source in bySource {
        var n := bySource[source];
        assert Pairs(db, m, o, n);
        PartnerDecides(db, m, o, n);
        if series[o].unit != "" && series[n].unit != "" && series[o].unit != series[n].unit {
          BlockedStays(db, m, seen, o);
          return;
        }
        TableJoined(db, db.statistics, m, seen, o, n);
        TableJoined(db, db.shortTerm, m, seen, o, n);
        SeriesJoined(db, m, seen, o, n);
        statistics := MergeStatisticsTable(statistics, o, n);
        shortTerm := MergeStatisticsTable(shortTerm, o, n);
        series := series - {n};
      } else {
        assert forall n :: !Pairs(db, m, o, n);
        NoPartner(db, m, o);
        SeriesRenamed(db, m, seen, o);
        TableStays(db, db.statistics, m, seen, o);
        TableStays(db, db.shortTerm, m, seen, o);
      }
      series := series[o := series[o].(statisticId := m.newId)];
    }

    /** Whatever order the old series come in, the result is the one described above. */
    method MergeStatisticsMetadata(m: Row)
      requires Usable(m) && DistinctSources(Db(), m)
      modifies this`series, this`statistics, this`shortTerm
      ensures Db() == StatisticsAfter(old(Db()), m)
    {
      ghost var db := Db();
      var olds := OldOnes(Db(), m);
      NothingSeen(db, m);
      if olds == {} { return; }
      var duplicates, bySource := DuplicatesIn(series, m.newId), SinglesIn(series, m.newId);
      DuplicatesAre(db, m);
      StartPairing(db, m);
      assert forall o :: o in olds ==> OldSeries(db, m, o);
      hide Merged, Unpaired, DuplicateSource, DistinctSources, DuplicatesIn, SinglesIn, OldOnes, OldSeries;
      var rest := olds;
      assert olds - rest == {};
      while rest != {}
        invariant rest <= olds
        invariant Db() == Merged(db, m, olds - rest)
        invariant Unpaired(db, m, olds - rest, bySource)
        decreases |rest|
      {
        ghost var some := Member(rest);
        var o :| o in rest;
        bySource := MergeOne(db, m, olds - rest, o, duplicates, bySource);
        assert olds - rest + {o} == olds - (rest - {o});
        rest := rest - {o};
      }
      assert olds - rest == olds;
    }

    /** All mappings in one transaction: either all of them are merged, or a lookup raised and
        everything is rolled back. */
    method CopyLegacyHistory(mappings: seq<Row>) returns (ok: bool)
      requires Sound(Db()) && forall i :: 0 <= i < |mappings| ==> Usable(mappings[i])
      modifies this
      ensures ok <==> CopyAll(old(Db()), mappings).Some?
      ensures Db() == if ok then CopyAll(old(Db()), mappings).value else old(Db())
    {
      hide StatesRefused, StatesAfter, StatisticsAfter, Sound, DistinctSources;
      ghost var db := Db();
      var saved := new Session(Db());
      for k := 0 to |mappings|
        invariant CopyAll(db, mappings[..k]) == Some(Db()) && Sound(Db())
        invariant saved.Db() == db && fresh(saved)
      {
        var m := mappings[k];
        assert mappings[..k + 1][..k] == mappings[..k];
        ghost var before := Db();
        var refused := MergeStatesMetadata(m);
        if refused {
          statesMeta, states, series := saved.statesMeta, saved.states, saved.series;
          statistics, shortTerm := saved.statistics, saved.shortTerm;
          RefusedStays(db, mappings, k + 1);
          return false;
        }
        StepIsSound(before, m);
        MergeStatisticsMetadata(m);
      }
      assert mappings[..|mappings|] == mappings;
      return true;
    }
  }
}
