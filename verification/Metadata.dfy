/**
 Grouping the rows of a catalogue query into indexes and foreign keys. The loops extend the last entry
 or open a new one; `Groups` cuts the rows into runs of one key, and each entry is one run.
 */
module Metadata {
  import opened Wrappers

  datatype IndexRow = IndexRow(name: string, nonUnique: int, column: string)

  datatype IndexDetail = IndexDetail(name: string, columns: seq<string>, unique: bool)

  datatype KeyRow = KeyRow(constraint: string, column: string, refTable: string, refColumn: string)

  datatype PragmaRow = PragmaRow(id: int, seqNo: int, refTable: string, from: string, to: string)

  datatype ForeignKeyDetail = ForeignKeyDetail(name: Option<string>, columns: seq<string>, refTable: string, refColumns: seq<string>)

  // ── Runs ──

  /** Rows cut into runs: a row joins the last run when it has its key. */
  ghost function Groups<T, K>(rows: seq<T>, key: T -> K): (gs: seq<seq<T>>)
    ensures forall g :: 0 <= g < |gs| ==> gs[g] != []
  {
    if rows == [] then []
    else AddRow(Groups(rows[..|rows| - 1], key), rows[|rows| - 1], key)
  }

  ghost function AddRow<T, K>(gs: seq<seq<T>>, row: T, key: T -> K): (gs': seq<seq<T>>)
    requires forall g :: 0 <= g < |gs| ==> gs[g] != []
    ensures forall g :: 0 <= g < |gs'| ==> gs'[g] != []
  {
    if gs != [] && key(gs[|gs| - 1][0]) == key(row) then gs[..|gs| - 1] + [gs[|gs| - 1] + [row]]
    else gs + [[row]]
  }

  lemma NoGroups<T, K>(key: T -> K)
    ensures Groups<T, K>([], key) == []
  {
  }

  lemma GroupsStep<T, K>(rows: seq<T>, i: nat, key: T -> K)
    requires i < |rows|
    ensures Groups(rows[..i + 1], key) == AddRow(Groups(rows[..i], key), rows[i], key)
  {
    assert rows[..i + 1][..i] == rows[..i];
  }

  function Flatten<T>(gs: seq<seq<T>>): seq<T> {
    if gs == [] then [] else Flatten(gs[..|gs| - 1]) + gs[|gs| - 1]
  }

  ghost predicate Uniform<T, K>(run: seq<T>, key: T -> K) {
    run != [] && forall i :: 0 <= i < |run| ==> key(run[i]) == key(run[0])
  }

  ghost predicate MaximalRuns<T, K>(gs: seq<seq<T>>, key: T -> K) {
    && (forall g :: 0 <= g < |gs| ==> Uniform(gs[g], key))
    && (forall g, h :: 0 <= g < h < |gs| && h == g + 1 ==> gs[g] != [] && gs[h] != [] && key(gs[g][0]) != key(gs[h][0]))
  }

  lemma FlattenLast<T>(gs: seq<seq<T>>, run: seq<T>)
    ensures Flatten(gs + [run]) == Flatten(gs) + run
  {
    assert (gs + [run])[..|gs|] == gs;
  }

  lemma AddRowFlattens<T, K>(gs: seq<seq<T>>, row: T, key: T -> K)
    requires forall g :: 0 <= g < |gs| ==> gs[g] != []
    ensures Flatten(AddRow(gs, row, key)) == Flatten(gs) + [row]
  {
    if gs != [] && key(gs[|gs| - 1][0]) == key(row) {
      FlattenLast(gs[..|gs| - 1], gs[|gs| - 1] + [row]);
    } else {
      FlattenLast(gs, [row]);
    }
  }

  lemma AddRowKeepsRuns<T, K>(gs: seq<seq<T>>, row: T, key: T -> K)
    requires MaximalRuns(gs, key) && forall g :: 0 <= g < |gs| ==> gs[g] != []
    ensures MaximalRuns(AddRow(gs, row, key), key)
  {
    if gs != [] && key(gs[|gs| - 1][0]) == key(row) {
      var last := gs[|gs| - 1];
      assert Uniform(last, key);
      assert Uniform(last + [row], key);
      assert (last + [row])[0] == last[0];
    } else {
      assert Uniform([row], key);
    }
  }

  /** The runs are the rows in order, cut where the key changes and nowhere else. */
  lemma {:induction false} GroupsAreTheRuns<T, K>(rows: seq<T>, key: T -> K)
    ensures Flatten(Groups(rows, key)) == rows && MaximalRuns(Groups(rows, key), key)
  {
    hide Flatten, MaximalRuns, AddRow;
    if rows == [] {
      assert Flatten<T>([]) == [] && MaximalRuns<T, K>([], key) by { NoRuns<T, K>(key); }
    } else {
      var before, last := rows[..|rows| - 1], rows[|rows| - 1];
      GroupsAreTheRuns(before, key);
      AddRowFlattens(Groups(before, key), last, key);
      AddRowKeepsRuns(Groups(before, key), last, key);
      assert rows == before + [last];
    }
  }

  lemma NoRuns<T, K>(key: T -> K)
    ensures Flatten<T>([]) == [] && MaximalRuns<T, K>([], key)
  {
  }

  // ── One entry for each key ──

  ghost function Heads<T, K>(gs: seq<seq<T>>, key: T -> K): (ks: seq<K>)
    requires forall g :: 0 <= g < |gs| ==> gs[g] != []
    ensures |ks| == |gs| && forall g :: 0 <= g < |gs| ==> ks[g] == key(gs[g][0])
  {
    seq(|gs|, g requires 0 <= g < |gs| => key(gs[g][0]))
  }

  ghost predicate Distinct<K(!new)>(ks: seq<K>) {
    forall i, j :: 0 <= i < j < |ks| ==> ks[i] != ks[j]
  }

  /** Rows of one key stand together. */
  ghost predicate Contiguous<T, K>(rows: seq<T>, key: T -> K) {
    forall i, j, k :: 0 <= i < j < k < |rows| && key(rows[i]) == key(rows[k]) ==> key(rows[i]) == key(rows[j])
  }

  lemma AddRowHeads<T, K>(gs: seq<seq<T>>, row: T, key: T -> K)
    requires forall g :: 0 <= g < |gs| ==> gs[g] != []
    ensures Heads(AddRow(gs, row, key), key) ==
            Heads(gs, key) + if gs != [] && key(gs[|gs| - 1][0]) == key(row) then [] else [key(row)]
  {
  }

  ghost predicate HasKey<T, K>(rows: seq<T>, key: T -> K, k: K) {
    exists i :: 0 <= i < |rows| && key(rows[i]) == k
  }

  /** The keys of the runs are the keys of the rows, and the last run's is the last row's. */
  lemma {:induction false} HeadsAreTheKeys<T, K(!new)>(rows: seq<T>, key: T -> K)
    ensures var ks := Heads(Groups(rows, key), key);
            && (forall k :: k in ks <==> HasKey(rows, key, k))
            && (rows != [] ==> ks != [] && ks[|ks| - 1] == key(rows[|rows| - 1]))
  {
    hide AddRow;
    if rows != [] {
      var before, last := rows[..|rows| - 1], rows[|rows| - 1];
      var ks, ks' := Heads(Groups(before, key), key), Heads(Groups(rows, key), key);
      HeadsAreTheKeys(before, key);
      AddRowHeads(Groups(before, key), last, key);
      forall k ensures k in ks' <==> HasKey(rows, key, k) {
        assert HasKey(rows, key, k) <==> HasKey(before, key, k) || key(last) == k by {
          if HasKey(before, key, k) {
            var i :| 0 <= i < |before| && key(before[i]) == k;
            assert key(rows[i]) == k;
          }
          if key(last) == k {
            assert key(rows[|rows| - 1]) == k;
          }
        }
      }
    }
  }

  lemma ContiguousStep<T, K>(before: seq<T>, row: T, key: T -> K)
    ensures Contiguous(before + [row], key) <==>
            Contiguous(before, key) && (HasKey(before, key, key(row)) ==> key(before[|before| - 1]) == key(row))
  {
    var rows := before + [row];
    assert forall i :: 0 <= i < |before| ==> rows[i] == before[i];
    if Contiguous(rows, key) && HasKey(before, key, key(row)) {
      var i :| 0 <= i < |before| && key(before[i]) == key(row);
      assert key(rows[i]) == key(rows[|before|]);
      assert i < |before| - 1 ==> key(rows[i]) == key(rows[|before| - 1]);
    }
    if Contiguous(before, key) && (HasKey(before, key, key(row)) ==> key(before[|before| - 1]) == key(row)) {
      forall i, j, k | 0 <= i < j < k < |rows| && key(rows[i]) == key(rows[k]) ensures key(rows[i]) == key(rows[j]) {
        if k == |before| {
          assert key(before[i]) == key(row);
          assert HasKey(before, key, key(row));
          assert key(before[|before| - 1]) == key(before[i]);
        }
      }
    }
  }

  /** There is one entry for each key exactly when the rows of each key stand together. */
  lemma {:induction false} OneEntryPerKey<T, K(!new)>(rows: seq<T>, key: T -> K)
    ensures Distinct(Heads(Groups(rows, key), key)) <==> Contiguous(rows, key)
  {
    hide AddRow, Contiguous, HasKey;
    if rows == [] {
      NothingIsContiguous<T, K>(key);
    } else {
      var before, last := rows[..|rows| - 1], rows[|rows| - 1];
      var ks := Heads(Groups(before, key), key);
      assert rows == before + [last];
      OneEntryPerKey(before, key);
      HeadsAreTheKeys(before, key);
      AddRowHeads(Groups(before, key), last, key);
      ContiguousStep(before, last, key);
      DistinctStep(ks, key(last));
      var gs := Groups(before, key);
      var joins := gs != [] && key(gs[|gs| - 1][0]) == key(last);
      assert Heads(Groups(rows, key), key) == if joins then ks else ks + [key(last)] by {
        assert ks + [] == ks;
      }
      assert before == [] ==> gs == [];
      assert HasKey(before, key, key(last)) <==> key(last) in ks;
      assert before != [] ==> (joins <==> key(before[|before| - 1]) == key(last));
    }
  }

  lemma NothingIsContiguous<T, K>(key: T -> K)
    ensures Contiguous<T, K>([], key)
  {
  }

  lemma DistinctStep<K(!new)>(ks: seq<K>, k: K)
    ensures Distinct(ks + [k]) <==> Distinct(ks) && k !in ks
  {
    var all := ks + [k];
    assert forall i :: 0 <= i < |ks| ==> all[i] == ks[i];
    if Distinct(all) {
      forall i | 0 <= i < |ks| ensures ks[i] != k {
        assert all[i] != all[|ks|];
      }
      forall i, j | 0 <= i < j < |ks| ensures ks[i] != ks[j] {
        assert all[i] != all[j];
      }
    }
    if Distinct(ks) && k !in ks {
      forall i, j | 0 <= i < j < |all| ensures all[i] != all[j] {
        assert all[i] == ks[i];
      }
    }
  }

  // ── MySQL: indexes ──

  function NameOf(r: IndexRow): string {
    r.name
  }

  function IndexColumns(run: seq<IndexRow>): seq<string> {
    seq(|run|, k requires 0 <= k < |run| => run[k].column)
  }

  /** Whether the index is unique is read from its first row. */
  function IndexOf(run: seq<IndexRow>): IndexDetail
    requires run != []
  {
    IndexDetail(run[0].name, IndexColumns(run), run[0].nonUnique == 0)
  }

  function IndexesOf(gs: seq<seq<IndexRow>>): seq<IndexDetail>
    requires forall g :: 0 <= g < |gs| ==> gs[g] != []
  {
    seq(|gs|, g requires 0 <= g < |gs| => IndexOf(gs[g]))
  }

  lemma IndexesStep(rows: seq<IndexRow>, i: nat)
    requires i < |rows|
    ensures var done, r := IndexesOf(Groups(rows[..i], NameOf)), rows[i];
            IndexesOf(Groups(rows[..i + 1], NameOf)) ==
            if done != [] && done[|done| - 1].name == r.name
            then done[..|done| - 1] + [done[|done| - 1].(columns := done[|done| - 1].columns + [r.column])]
            else done + [IndexDetail(r.name, [r.column], r.nonUnique == 0)]
  {
    hide Groups;
    var gs: seq<seq<IndexRow>> := Groups(rows[..i], NameOf);
    GroupsStep(rows, i, NameOf);
    if gs != [] && gs[|gs| - 1][0].name == rows[i].name {
      var run := gs[|gs| - 1];
      assert IndexColumns(run + [rows[i]]) == IndexColumns(run) + [rows[i].column];
      assert IndexOf(run + [rows[i]]) == IndexOf(run).(columns := IndexColumns(run) + [rows[i].column]);
      assert IndexesOf(gs[..|gs| - 1] + [run + [rows[i]]]) == IndexesOf(gs)[..|gs| - 1] + [IndexOf(run + [rows[i]])];
    } else {
      assert IndexColumns([rows[i]]) == [rows[i].column];
      assert IndexesOf(gs + [[rows[i]]]) == IndexesOf(gs) + [IndexOf([rows[i]])];
    }
  }

  method GroupIndexes(rows: seq<IndexRow>) returns (indexes: seq<IndexDetail>)
    ensures indexes == IndexesOf(Groups(rows, NameOf))
  {
    hide Groups, IndexOf;
    indexes := [];
    NoGroups<IndexRow, string>(NameOf);
    for i := 0 to |rows|
      invariant indexes == IndexesOf(Groups(rows[..i], NameOf))
    {
      var r := rows[i];
      IndexesStep(rows, i);
      if indexes != [] && indexes[|indexes| - 1].name == r.name {
        var last := indexes[|indexes| - 1];
        indexes := indexes[..|indexes| - 1] + [last.(columns := last.columns + [r.column])];
      } else {
        indexes := indexes + [IndexDetail(r.name, [r.column], r.nonUnique == 0)];
      }
    }
    assert rows[..|rows|] == rows;
  }

  // ── MySQL: foreign keys ──

  /** `last_mut` pushes one column and what it refers to. */
  function Longer(fk: ForeignKeyDetail, column: string, refColumn: string): ForeignKeyDetail {
    fk.(columns := fk.columns + [column], refColumns := fk.refColumns + [refColumn])
  }

  function NonEmpty(s: string): Option<string> {
    if s == "" then None else Some(s)
  }

  function ConstraintOf(r: KeyRow): (Option<string>, string) {
    (NonEmpty(r.constraint), r.refTable)
  }

  function ForeignKeyOf(run: seq<KeyRow>): ForeignKeyDetail
    requires run != []
  {
    ForeignKeyDetail(NonEmpty(run[0].constraint),
                     seq(|run|, k requires 0 <= k < |run| => run[k].column),
                     run[0].refTable,
                     seq(|run|, k requires 0 <= k < |run| => run[k].refColumn))
  }

  function ForeignKeysOf(gs: seq<seq<KeyRow>>): seq<ForeignKeyDetail>
    requires forall g :: 0 <= g < |gs| ==> gs[g] != []
  {
    seq(|gs|, g requires 0 <= g < |gs| => ForeignKeyOf(gs[g]))
  }

  lemma ForeignKeysStep(rows: seq<KeyRow>, i: nat)
    requires i < |rows|
    ensures var done, r := ForeignKeysOf(Groups(rows[..i], ConstraintOf)), rows[i];
            ForeignKeysOf(Groups(rows[..i + 1], ConstraintOf)) ==
            if done != [] && done[|done| - 1].name == NonEmpty(r.constraint) && done[|done| - 1].refTable == r.refTable
            then done[..|done| - 1] + [Longer(done[|done| - 1], r.column, r.refColumn)]
            else done + [ForeignKeyDetail(NonEmpty(r.constraint), [r.column], r.refTable, [r.refColumn])]
  {
    hide Groups;
    var gs: seq<seq<KeyRow>> := Groups(rows[..i], ConstraintOf);
    GroupsStep(rows, i, ConstraintOf);
    if gs != [] && ConstraintOf(gs[|gs| - 1][0]) == ConstraintOf(rows[i]) {
      var run, r := gs[|gs| - 1], rows[i];
      assert ForeignKeyOf(run + [r]) == Longer(ForeignKeyOf(run), r.column, r.refColumn);
      assert ForeignKeysOf(gs[..|gs| - 1] + [run + [r]]) == ForeignKeysOf(gs)[..|gs| - 1] + [ForeignKeyOf(run + [r])];
    } else {
      var r := rows[i];
      assert ForeignKeyOf([r]) == ForeignKeyDetail(NonEmpty(r.constraint), [r.column], r.refTable, [r.refColumn]);
      assert ForeignKeysOf(gs + [[r]]) == ForeignKeysOf(gs) + [ForeignKeyOf([r])];
    }
  }

  method GroupForeignKeys(rows: seq<KeyRow>) returns (keys: seq<ForeignKeyDetail>)
    ensures keys == ForeignKeysOf(Groups(rows, ConstraintOf))
  {
    hide Groups, ForeignKeyOf, NonEmpty;
    keys := [];
    NoGroups<KeyRow, (Option<string>, string)>(ConstraintOf);
    for i := 0 to |rows|
      invariant keys == ForeignKeysOf(Groups(rows[..i], ConstraintOf))
    {
      var r := rows[i];
      ForeignKeysStep(rows, i);
      if keys != [] && keys[|keys| - 1].name == NonEmpty(r.constraint) && keys[|keys| - 1].refTable == r.refTable {
        var last := keys[|keys| - 1];
        keys := keys[..|keys| - 1] + [last.(columns := last.columns + [r.column], refColumns := last.refColumns + [r.refColumn])];
      } else {
        keys := keys + [ForeignKeyDetail(NonEmpty(r.constraint), [r.column], r.refTable, [r.refColumn])];
      }
    }
    assert rows[..|rows|] == rows;
  }

  // ── SQLite: foreign keys ──

  function IdOf(r: PragmaRow): int {
    r.id
  }

  predicate Before(a: PragmaRow, b: PragmaRow) {
    a.id < b.id || (a.id == b.id && a.seqNo < b.seqNo)
  }

  predicate InOrder(rows: seq<PragmaRow>) {
    forall i, j :: 0 <= i < j < |rows| ==> !Before(rows[j], rows[i])
  }

  function PragmaKeyOf(run: seq<PragmaRow>): ForeignKeyDetail
    requires run != []
  {
    ForeignKeyDetail(None,
                     seq(|run|, k requires 0 <= k < |run| => run[k].from),
                     run[0].refTable,
                     seq(|run|, k requires 0 <= k < |run| => run[k].to))
  }

  function PragmaKeysOf(gs: seq<seq<PragmaRow>>): seq<ForeignKeyDetail>
    requires forall g :: 0 <= g < |gs| ==> gs[g] != []
  {
    seq(|gs|, g requires 0 <= g < |gs| => PragmaKeyOf(gs[g]))
  }

  /** A row is put after all rows that are not behind it. */
  function Place(sorted: seq<PragmaRow>, row: PragmaRow): seq<PragmaRow> {
    if sorted != [] && Before(row, sorted[|sorted| - 1]) then Place(sorted[..|sorted| - 1], row) + [sorted[|sorted| - 1]]
    else sorted + [row]
  }

  /** `sort_by_key` on (id, seq), which is stable. */
  function SortRows(rows: seq<PragmaRow>): seq<PragmaRow> {
    if rows == [] then [] else Place(SortRows(rows[..|rows| - 1]), rows[|rows| - 1])
  }

  /** The rows with the given id and seq, in order. */
  function AtKey(rows: seq<PragmaRow>, id: int, seqNo: int): seq<PragmaRow> {
    if rows == [] then []
    else
      AtKey(rows[..|rows| - 1], id, seqNo) +
      if rows[|rows| - 1].id == id && rows[|rows| - 1].seqNo == seqNo then [rows[|rows| - 1]] else []
  }

  lemma {:induction false} PlaceIsPermutation(sorted: seq<PragmaRow>, row: PragmaRow)
    ensures multiset(Place(sorted, row)) == multiset(sorted) + multiset{row}
  {
    if sorted != [] && Before(row, sorted[|sorted| - 1]) {
      PlaceIsPermutation(sorted[..|sorted| - 1], row);
      assert sorted == sorted[..|sorted| - 1] + [sorted[|sorted| - 1]];
    }
  }

  lemma {:induction false} PlaceMembers(sorted: seq<PragmaRow>, row: PragmaRow, r: PragmaRow)
    requires r in Place(sorted, row)
    ensures r in sorted || r == row
  {
    if sorted != [] && Before(row, sorted[|sorted| - 1]) && r in Place(sorted[..|sorted| - 1], row) {
      PlaceMembers(sorted[..|sorted| - 1], row, r);
    }
  }

  lemma {:induction false} PlaceKeepsOrder(sorted: seq<PragmaRow>, row: PragmaRow)
    requires InOrder(sorted)
    ensures InOrder(Place(sorted, row))
  {
    if sorted != [] && Before(row, sorted[|sorted| - 1]) {
      var init, last := sorted[..|sorted| - 1], sorted[|sorted| - 1];
      PlaceKeepsOrder(init, row);
      forall r | r in Place(init, row) ensures !Before(last, r) {
        PlaceMembers(init, row, r);
      }
      InOrderExtends(Place(init, row), last);
    } else {
      if sorted != [] {
        LastIsLast(sorted, row);
      }
      InOrderExtends(sorted, row);
    }
  }

  lemma InOrderExtends(rows: seq<PragmaRow>, row: PragmaRow)
    requires InOrder(rows) && forall r :: r in rows ==> !Before(row, r)
    ensures InOrder(rows + [row])
  {
  }

  lemma LastIsLast(sorted: seq<PragmaRow>, row: PragmaRow)
    requires InOrder(sorted) && sorted != [] && !Before(row, sorted[|sorted| - 1])
    ensures forall r :: r in sorted ==> !Before(row, r)
  {
    forall r | r in sorted ensures !Before(row, r) {
      var i :| 0 <= i < |sorted| && sorted[i] == r;
      assert i < |sorted| - 1 ==> !Before(sorted[|sorted| - 1], sorted[i]);
    }
  }

  lemma {:induction false} PlaceIsStable(sorted: seq<PragmaRow>, row: PragmaRow, id: int, seqNo: int)
    requires InOrder(sorted)
    ensures AtKey(Place(sorted, row), id, seqNo) ==
            AtKey(sorted, id, seqNo) + if row.id == id && row.seqNo == seqNo then [row] else []
  {
    if sorted != [] && Before(row, sorted[|sorted| - 1]) {
      var init, last := sorted[..|sorted| - 1], sorted[|sorted| - 1];
      PlaceIsStable(init, row, id, seqNo);
      assert (Place(init, row) + [last])[..|Place(init, row)|] == Place(init, row);
    } else {
      assert (sorted + [row])[..|sorted|] == sorted;
    }
  }

  /** The sort orders the rows by (id, seq), loses and adds none, and keeps the order of equal ones. */
  lemma {:induction false} SortIsStable(rows: seq<PragmaRow>, id: int, seqNo: int)
    ensures InOrder(SortRows(rows)) && multiset(SortRows(rows)) == multiset(rows)
    ensures AtKey(SortRows(rows), id, seqNo) == AtKey(rows, id, seqNo)
  {
    hide Place;
    if rows != [] {
      var before, last := rows[..|rows| - 1], rows[|rows| - 1];
      SortIsStable(before, id, seqNo);
      PlaceKeepsOrder(SortRows(before), last);
      PlaceIsPermutation(SortRows(before), last);
      PlaceIsStable(SortRows(before), last, id, seqNo);
      assert rows == before + [last];
    }
  }

  lemma PragmaKeysStep(rows: seq<PragmaRow>, i: nat)
    requires i < |rows|
    ensures var gs: seq<seq<PragmaRow>>, r := Groups(rows[..i], IdOf), rows[i];
            var done, gs': seq<seq<PragmaRow>> := PragmaKeysOf(gs), Groups(rows[..i + 1], IdOf);
            && gs' != [] && gs'[|gs'| - 1][0].id == r.id
            && PragmaKeysOf(gs') ==
               if gs != [] && gs[|gs| - 1][0].id == r.id then done[..|done| - 1] + [Longer(done[|done| - 1], r.from, r.to)]
               else done + [ForeignKeyDetail(None, [r.from], r.refTable, [r.to])]
  {
    hide Groups;
    var gs: seq<seq<PragmaRow>> := Groups(rows[..i], IdOf);
    GroupsStep(rows, i, IdOf);
    if gs != [] && gs[|gs| - 1][0].id == rows[i].id {
      var run, r := gs[|gs| - 1], rows[i];
      assert PragmaKeyOf(run + [r]) == Longer(PragmaKeyOf(run), r.from, r.to);
      assert PragmaKeysOf(gs[..|gs| - 1] + [run + [r]]) == PragmaKeysOf(gs)[..|gs| - 1] + [PragmaKeyOf(run + [r])];
    } else {
      var r := rows[i];
      assert PragmaKeyOf([r]) == ForeignKeyDetail(None, [r.from], r.refTable, [r.to]);
      assert PragmaKeysOf(gs + [[r]]) == PragmaKeysOf(gs) + [PragmaKeyOf([r])];
    }
  }

  /** Ascending ids, and ascending seq within an id. */
  lemma SortedByIdThenSeq(rows: seq<PragmaRow>, i: nat, j: nat)
    requires i < j < |SortRows(rows)|
    ensures var a, b := SortRows(rows)[i], SortRows(rows)[j];
            a.id < b.id || (a.id == b.id && a.seqNo <= b.seqNo)
  {
    hide SortRows;
    SortIsStable(rows, 0, 0);
    assert !Before(SortRows(rows)[j], SortRows(rows)[i]);
  }

  method GroupPragmaKeys(rows: seq<PragmaRow>) returns (keys: seq<ForeignKeyDetail>)
    ensures keys == PragmaKeysOf(Groups(SortRows(rows), IdOf))
  {
    hide SortRows, Groups, PragmaKeyOf;
    var entries := SortRows(rows);
    keys := [];
    var lastId: Option<int> := None;
    NoGroups<PragmaRow, int>(IdOf);
    for i := 0 to |entries|
      invariant keys == PragmaKeysOf(Groups(entries[..i], IdOf))
      invariant var gs: seq<seq<PragmaRow>> := Groups(entries[..i], IdOf); lastId == if gs == [] then None else Some(gs[|gs| - 1][0].id)
    {
      var r := entries[i];
      PragmaKeysStep(entries, i);
      if lastId == Some(r.id) {
        if keys != [] {
          var last := keys[|keys| - 1];
          keys := keys[..|keys| - 1] + [last.(columns := last.columns + [r.from], refColumns := last.refColumns + [r.to])];
        }
      } else {
        keys := keys + [ForeignKeyDetail(None, [r.from], r.refTable, [r.to])];
        lastId := Some(r.id);
      }
    }
    assert entries[..|entries|] == entries;
  }

  // ── What the entries hold ──

  /** All columns with what they refer to, over all keys. */
  function Pairs(keys: seq<ForeignKeyDetail>): seq<(string, string)>
    requires forall k :: k in keys ==> |k.columns| == |k.refColumns|
  {
    if keys == [] then []
    else
      var last := keys[|keys| - 1];
      Pairs(keys[..|keys| - 1]) + seq(|last.columns|, k requires 0 <= k < |last.columns| => (last.columns[k], last.refColumns[k]))
  }

  function RowPairs(rows: seq<KeyRow>): seq<(string, string)> {
    seq(|rows|, k requires 0 <= k < |rows| => (rows[k].column, rows[k].refColumn))
  }

  function PragmaPairs(rows: seq<PragmaRow>): seq<(string, string)> {
    seq(|rows|, k requires 0 <= k < |rows| => (rows[k].from, rows[k].to))
  }

  lemma {:induction false} PairsOfRuns(gs: seq<seq<KeyRow>>)
    requires forall g :: 0 <= g < |gs| ==> gs[g] != []
    ensures forall k :: k in ForeignKeysOf(gs) ==> |k.columns| == |k.refColumns|
    ensures Pairs(ForeignKeysOf(gs)) == RowPairs(Flatten(gs))
  {
    if gs != [] {
      var init, run := gs[..|gs| - 1], gs[|gs| - 1];
      PairsOfRuns(init);
      assert ForeignKeysOf(gs)[..|init|] == ForeignKeysOf(init);
    }
  }

  lemma {:induction false} PragmaPairsOfRuns(gs: seq<seq<PragmaRow>>)
    requires forall g :: 0 <= g < |gs| ==> gs[g] != []
    ensures forall k :: k in PragmaKeysOf(gs) ==> |k.columns| == |k.refColumns|
    ensures Pairs(PragmaKeysOf(gs)) == PragmaPairs(Flatten(gs))
  {
    if gs != [] {
      var init, run := gs[..|gs| - 1], gs[|gs| - 1];
      PragmaPairsOfRuns(init);
      assert PragmaKeysOf(gs)[..|init|] == PragmaKeysOf(init);
    }
  }

  /** No column is lost, added or moved, and each still stands beside the column it refers to. */
  lemma ForeignKeysConserveRows(rows: seq<KeyRow>)
    ensures var keys := ForeignKeysOf(Groups(rows, ConstraintOf));
            && (forall k :: k in keys ==> |k.columns| == |k.refColumns| && k.columns != [])
            && Pairs(keys) == RowPairs(rows)
  {
    GroupsAreTheRuns(rows, ConstraintOf);
    PairsOfRuns(Groups(rows, ConstraintOf));
  }

  function Columns(indexes: seq<IndexDetail>): seq<string> {
    if indexes == [] then [] else Columns(indexes[..|indexes| - 1]) + indexes[|indexes| - 1].columns
  }

  lemma {:induction false} ColumnsOfRuns(gs: seq<seq<IndexRow>>)
    requires forall g :: 0 <= g < |gs| ==> gs[g] != []
    ensures Columns(IndexesOf(gs)) == IndexColumns(Flatten(gs))
  {
    if gs != [] {
      var init := gs[..|gs| - 1];
      ColumnsOfRuns(init);
      assert IndexesOf(gs)[..|init|] == IndexesOf(init);
    }
  }

  /** The columns of all indexes, one after another, are the columns of the rows. */
  lemma IndexesConserveRows(rows: seq<IndexRow>)
    ensures Columns(IndexesOf(Groups(rows, NameOf))) == IndexColumns(rows)
  {
    GroupsAreTheRuns(rows, NameOf);
    ColumnsOfRuns(Groups(rows, NameOf));
  }

  /** One foreign key for each (name, referenced table) exactly when its rows stand together. */
  lemma OneForeignKeyPerConstraint(rows: seq<KeyRow>)
    ensures var keys := ForeignKeysOf(Groups(rows, ConstraintOf));
            (forall i, j :: 0 <= i < j < |keys| ==> (keys[i].name, keys[i].refTable) != (keys[j].name, keys[j].refTable)) <==>
            Contiguous(rows, ConstraintOf)
  {
    OneEntryPerKey(rows, ConstraintOf);
    var gs: seq<seq<KeyRow>> := Groups(rows, ConstraintOf);
    var keys, ks := ForeignKeysOf(gs), Heads(gs, ConstraintOf);
    assert forall i :: 0 <= i < |keys| ==> ks[i] == (keys[i].name, keys[i].refTable);
  }

  /** One index for each name exactly when the rows of a name stand together. */
  lemma OneIndexPerName(rows: seq<IndexRow>)
    ensures var indexes := IndexesOf(Groups(rows, NameOf));
            (forall i, j :: 0 <= i < j < |indexes| ==> indexes[i].name != indexes[j].name) <==> Contiguous(rows, NameOf)
  {
    OneEntryPerKey(rows, NameOf);
    var gs: seq<seq<IndexRow>> := Groups(rows, NameOf);
    var indexes, ks := IndexesOf(gs), Heads(gs, NameOf);
    assert forall i :: 0 <= i < |indexes| ==> ks[i] == indexes[i].name;
  }

  lemma SortedIsContiguous(rows: seq<PragmaRow>)
    requires InOrder(rows)
    ensures Contiguous(rows, IdOf)
  {
    forall i, j, k | 0 <= i < j < k < |rows| && IdOf(rows[i]) == IdOf(rows[k]) ensures IdOf(rows[i]) == IdOf(rows[j]) {
      assert !Before(rows[j], rows[i]) && !Before(rows[k], rows[j]);
    }
  }

  /** A run is a slice of all rows. */
  lemma {:induction false} RunIsSlice<T>(gs: seq<seq<T>>, g: nat) returns (lo: nat)
    requires g < |gs|
    ensures lo + |gs[g]| <= |Flatten(gs)| && Flatten(gs)[lo..lo + |gs[g]|] == gs[g]
  {
    var init := gs[..|gs| - 1];
    assert Flatten(gs) == Flatten(init) + gs[|gs| - 1];
    if g == |gs| - 1 {
      lo := |Flatten(init)|;
    } else {
      lo := RunIsSlice(init, g);
    }
  }

  /**
   SQLite reports rows in any order: after the sort there is exactly one foreign key for each id, its
   columns are in seq order, and all pairs are those of the rows.
   */
  lemma OneForeignKeyPerId(rows: seq<PragmaRow>)
    ensures var gs: seq<seq<PragmaRow>> := Groups(SortRows(rows), IdOf);
            && (forall g, h :: 0 <= g < h < |gs| ==> gs[g][0].id != gs[h][0].id)
            && (forall r :: r in rows ==> exists g :: 0 <= g < |gs| && gs[g][0].id == r.id)
            && (forall g, i, j :: 0 <= g < |gs| && 0 <= i < j < |gs[g]| ==> gs[g][i].id == gs[g][j].id && gs[g][i].seqNo <= gs[g][j].seqNo)
    ensures var keys := PragmaKeysOf(Groups(SortRows(rows), IdOf));
            && (forall k :: k in keys ==> |k.columns| == |k.refColumns|)
            && Pairs(keys) == PragmaPairs(SortRows(rows)) && multiset(SortRows(rows)) == multiset(rows)
  {
    hide Groups, SortRows, Flatten, Contiguous;
    var sorted := SortRows(rows);
    var gs: seq<seq<PragmaRow>> := Groups(sorted, IdOf);
    SortIsStable(rows, 0, 0);
    SortedIsContiguous(sorted);
    OneEntryPerKey(sorted, IdOf);
    GroupsAreTheRuns(sorted, IdOf);
    PragmaPairsOfRuns(gs);
    var ks := Heads(gs, IdOf);
    forall g, h | 0 <= g < h < |gs| ensures gs[g][0].id != gs[h][0].id {
      assert ks[g] != ks[h];
    }
    forall r | r in rows ensures exists g :: 0 <= g < |gs| && gs[g][0].id == r.id {
      EveryRowHasItsKey(rows, r);
    }
    forall g, i, j | 0 <= g < |gs| && 0 <= i < j < |gs[g]| ensures gs[g][i].id == gs[g][j].id && gs[g][i].seqNo <= gs[g][j].seqNo {
      RunInOrder(gs, sorted, g, i, j);
    }
  }

  lemma EveryRowHasItsKey(rows: seq<PragmaRow>, r: PragmaRow)
    requires r in rows
    ensures var gs := Groups(SortRows(rows), IdOf);
            exists g :: 0 <= g < |gs| && gs[g][0].id == r.id
  {
    hide Groups, SortRows;
    var sorted := SortRows(rows);
    SortIsStable(rows, 0, 0);
    assert r in multiset(sorted);
    var i :| 0 <= i < |sorted| && sorted[i] == r;
    assert IdOf(sorted[i]) == r.id;
    assert HasKey(sorted, IdOf, r.id);
    HeadsAreTheKeys(sorted, IdOf);
    var ks := Heads(Groups(sorted, IdOf), IdOf);
    var g :| 0 <= g < |ks| && ks[g] == r.id;
    assert Groups(sorted, IdOf)[g][0].id == r.id;
  }

  lemma RunInOrder(gs: seq<seq<PragmaRow>>, sorted: seq<PragmaRow>, g: nat, i: nat, j: nat)
    requires Flatten(gs) == sorted && InOrder(sorted) && MaximalRuns(gs, IdOf)
    requires g < |gs| && i < j < |gs[g]|
    ensures gs[g][i].id == gs[g][j].id && gs[g][i].seqNo <= gs[g][j].seqNo
  {
    hide Flatten;
    var lo := RunIsSlice(gs, g);
    assert gs[g][i] == sorted[lo + i] && gs[g][j] == sorted[lo + j];
    assert Uniform(gs[g], IdOf);
    assert IdOf(gs[g][i]) == IdOf(gs[g][0]) == IdOf(gs[g][j]);
    assert !Before(sorted[lo + j], sorted[lo + i]);
  }

  // ── What one entry says ──

  /** Every entry tells its run: the name of all its rows, their columns in order, and uniqueness from its first row. */
  lemma EachIndexTellsItsRun(rows: seq<IndexRow>, g: nat)
    requires g < |Groups(rows, NameOf)|
    ensures var run: seq<IndexRow>, d := Groups(rows, NameOf)[g], IndexesOf(Groups(rows, NameOf))[g];
            && run != [] && |d.columns| == |run|
            && (forall k :: 0 <= k < |run| ==> run[k].name == d.name && d.columns[k] == run[k].column)
            && (d.unique <==> run[0].nonUnique == 0)
  {
    hide Groups;
    GroupsAreTheRuns(rows, NameOf);
    var run: seq<IndexRow> := Groups(rows, NameOf)[g];
    assert Uniform(run, NameOf);
    assert forall k :: 0 <= k < |run| ==> NameOf(run[k]) == NameOf(run[0]);
  }

  lemma EachForeignKeyTellsItsRun(rows: seq<KeyRow>, g: nat)
    requires g < |Groups(rows, ConstraintOf)|
    ensures var run: seq<KeyRow>, d := Groups(rows, ConstraintOf)[g], ForeignKeysOf(Groups(rows, ConstraintOf))[g];
            && run != [] && |d.columns| == |d.refColumns| == |run|
            && (forall k :: 0 <= k < |run| ==>
                  && run[k].refTable == d.refTable && d.columns[k] == run[k].column && d.refColumns[k] == run[k].refColumn
                  && (if run[k].constraint == "" then d.name.None? else d.name == Some(run[k].constraint)))
  {
    hide Groups;
    GroupsAreTheRuns(rows, ConstraintOf);
    var run: seq<KeyRow> := Groups(rows, ConstraintOf)[g];
    assert Uniform(run, ConstraintOf);
    assert forall k :: 0 <= k < |run| ==> ConstraintOf(run[k]) == ConstraintOf(run[0]);
  }

  /** Neighbouring rows of different constraints, or of different referenced tables, stay apart. */
  lemma DifferentConstraintsStayApart(rows: seq<KeyRow>, g: nat)
    requires g + 1 < |Groups(rows, ConstraintOf)|
    ensures var a: KeyRow, b: KeyRow := Groups(rows, ConstraintOf)[g][0], Groups(rows, ConstraintOf)[g + 1][0];
            a.constraint != b.constraint || a.refTable != b.refTable
    ensures var keys := ForeignKeysOf(Groups(rows, ConstraintOf)); keys[g].name != keys[g + 1].name || keys[g].refTable != keys[g + 1].refTable
  {
    hide Groups;
    GroupsAreTheRuns(rows, ConstraintOf);
    var gs: seq<seq<KeyRow>> := Groups(rows, ConstraintOf);
    var h := g + 1;
    assert ConstraintOf(gs[g][0]) != ConstraintOf(gs[h][0]);
  }

  lemma EachPragmaKeyTellsItsRun(rows: seq<PragmaRow>, g: nat)
    requires g < |Groups(SortRows(rows), IdOf)|
    ensures var run: seq<PragmaRow>, d := Groups(SortRows(rows), IdOf)[g], PragmaKeysOf(Groups(SortRows(rows), IdOf))[g];
            && run != [] && d.name.None? && d.refTable == run[0].refTable && |d.columns| == |d.refColumns| == |run|
            && (forall k :: 0 <= k < |run| ==> d.columns[k] == run[k].from && d.refColumns[k] == run[k].to)
  {
    hide Groups, SortRows;
  }
}
