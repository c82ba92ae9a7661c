/**
 * The procedure database: the CSV table of procedures still to be named and
 * the three passes over it — merging a batch of analysis results
 * (`update_database`), clearing names the source no longer needs
 * (`cleanup_database`), and picking the next batch of pending procedures
 * (`load_pending_procedures`).
 *
 * CSV reading and writing are not modelled: a table is a list of records, in
 * file order, holding the columns the scripts use.
 */
module ProcedureDatabase {
  import opened Results
  import opened Text
  import opened Seqs
  import opened Arithmetic

  /** A row of `procedure_database.csv`, with the columns the scripts write. */
  datatype Row = Row(oldName: string, scene: string, frame: string, newName: string,
                     description: string, category: string, status: string)

  /** A row of `batch_analysis.csv`: the columns the merge reads. */
  datatype BatchRow = BatchRow(oldName: string, newName: string, description: string, category: string)

  // ---------------------------------------------------------------------------
  // `update_database`
  // ---------------------------------------------------------------------------

  /** The batch rows by `old_name`, built in file order: rows without a name are skipped, and a later row overwrites an earlier one. */
  function BatchMap(batch: seq<BatchRow>): (m: map<string, BatchRow>)
    ensures "" !in m
    decreases |batch|
  {
    if batch == [] then map[]
    else
      var m := BatchMap(batch[..|batch| - 1]);
      var b := batch[|batch| - 1];
      if b.oldName == "" then m else m[b.oldName := b]
  }

  /** The last batch row with the name, if any: an independent reading of "the last row wins". */
  function LastFor(batch: seq<BatchRow>, name: string): (r: Option<BatchRow>)
    ensures r.Some? ==> r.value in batch && r.value.oldName == name
    ensures r.None? <==> forall k :: 0 <= k < |batch| ==> batch[k].oldName != name
    ensures r.Some? ==> exists k :: 0 <= k < |batch| && batch[k] == r.value
                                    && forall j :: k < j < |batch| ==> batch[j].oldName != name
    decreases |batch|
  {
    if batch == [] then None
    else
      var front := batch[..|batch| - 1];
      var b := batch[|batch| - 1];
      if b.oldName == name then Some(b)
      else
        var r := LastFor(front, name);
        assert forall k :: 0 <= k < |front| ==> front[k] == batch[k];
        r
  }

  /** The batch map holds, for every non-empty name, the last batch row with it, and nothing for the empty name. */
  lemma {:induction false} BatchMapLast(batch: seq<BatchRow>, name: string)
    ensures name in BatchMap(batch) <==> name != "" && LastFor(batch, name).Some?
    ensures name in BatchMap(batch) ==> BatchMap(batch)[name] == LastFor(batch, name).value
    decreases |batch|
  {
    if batch != [] {
      BatchMapLast(batch[..|batch| - 1], name);
    }
  }

  /** The batch row a database row is merged with: the last one with its name, unless the name is empty. */
  function Match(batch: seq<BatchRow>, name: string): Option<BatchRow>
  {
    if name == "" then None else LastFor(batch, name)
  }

  /** A database row after the merge: a matched row takes the batch's names and is marked analysed. */
  function Merge(row: Row, m: map<string, BatchRow>): (r: Row)
    ensures r.oldName == row.oldName && r.scene == row.scene && r.frame == row.frame
    ensures row.oldName !in m ==> r == row
    ensures row.oldName in m ==> var b := m[row.oldName];
              r.newName == b.newName && r.description == b.description
              && r.category == b.category && r.status == "analyzed"
  {
    if row.oldName in m then
      var b := m[row.oldName];
      Row(row.oldName, row.scene, row.frame, b.newName, b.description, b.category, "analyzed")
    else row
  }

  /** Whether a database row is merged with some batch row. */
  predicate Matched(batch: seq<BatchRow>, row: Row)
  {
    Match(batch, row.oldName).Some?
  }

  /**
   * `update_database`: the rows after the merge, in file order, and how many
   * were updated. Every row is kept; a row whose name has a batch row takes
   * that row's `new_name`, `description` and `category` and the status
   * `analyzed`, keeping its name, scene and frame; any other row is unchanged.
   */
  method UpdateDatabase(batch: seq<BatchRow>, db: seq<Row>) returns (rows: seq<Row>, updated: nat)
    ensures |rows| == |db|
    ensures forall k :: 0 <= k < |db| ==>
              && rows[k].oldName == db[k].oldName && rows[k].scene == db[k].scene && rows[k].frame == db[k].frame
              && (Match(batch, db[k].oldName).None? ==> rows[k] == db[k])
              && (Match(batch, db[k].oldName).Some? ==>
                    && rows[k].newName == Match(batch, db[k].oldName).value.newName
                    && rows[k].description == Match(batch, db[k].oldName).value.description
                    && rows[k].category == Match(batch, db[k].oldName).value.category
                    && rows[k].status == "analyzed")
    ensures updated == |Filter((r: Row) => Matched(batch, r), db)|
  {
    var m := BatchMap(batch);
    rows := [];
    updated := 0;
    var i := 0;
    while i < |db|
      invariant 0 <= i <= |db|
      invariant |rows| == i
      invariant forall k :: 0 <= k < i ==> rows[k] == Merge(db[k], m)
      invariant updated == |Filter((r: Row) => Matched(batch, r), db[..i])|
    {
      var row := db[i];
      assert updated + (if row.oldName in m then 1 else 0) == |Filter((r: Row) => Matched(batch, r), db[..i + 1])| by {
        MergeMatches(batch, row);
        assert db[..i + 1] == db[..i] + [row];
        FilterSnoc((r: Row) => Matched(batch, r), db[..i], row);
      }
      if row.oldName in m {
        updated := updated + 1;
      }
      rows := rows + [Merge(row, m)];
      i := i + 1;
    }
    assert db[..i] == db;
    forall k | 0 <= k < |db|
      ensures (Match(batch, db[k].oldName).None? ==> rows[k] == db[k])
      ensures Match(batch, db[k].oldName).Some? ==>
                && rows[k].newName == Match(batch, db[k].oldName).value.newName
                && rows[k].description == Match(batch, db[k].oldName).value.description
                && rows[k].category == Match(batch, db[k].oldName).value.category
                && rows[k].status == "analyzed"
    {
      MergeMatches(batch, db[k]);
    }
  }

  /** A row is merged exactly when it has a match, and then with that match. */
  lemma {:induction false} MergeMatches(batch: seq<BatchRow>, row: Row)
    ensures row.oldName in BatchMap(batch) <==> Matched(batch, row)
    ensures Matched(batch, row) ==> BatchMap(batch)[row.oldName] == Match(batch, row.oldName).value
  {
    BatchMapLast(batch, row.oldName);
  }

  // ---------------------------------------------------------------------------
  // `cleanup_database`
  // ---------------------------------------------------------------------------

  /** The line opens with `n` word characters, a colon and a whitespace character. */
  predicate LabelEndsAt(line: string, n: int)
  {
    0 < n && n + 1 < |line| && line[n] == ':' && IsSpace(line[n + 1])
    && forall j :: 0 <= j < n ==> IsWordChar(line[j])
  }

  /**
   * `^(\w+):\s` on a source line (with its line break): the word characters
   * opening the line, when a colon and a whitespace character follow them.
   */
  function LineLabel(line: string): (r: Option<string>)
    ensures r.Some? <==> exists n :: LabelEndsAt(line, n)
    ensures r.Some? ==> 0 < |r.value| < |line| - 1 && r.value == line[..|r.value|]
                        && line[|r.value|] == ':' && IsSpace(line[|r.value| + 1])
  {
    var n := WordRun(line, 0);
    if 0 < n && n + 1 < |line| && line[n] == ':' && IsSpace(line[n + 1]) then
      assert LabelEndsAt(line, n);
      Some(line[..n])
    else
      WordRunOnly(line, n);
      None
  }

  /** The only place a run of word characters can end at a colon is where the whole run ends. */
  lemma {:induction false} WordRunOnly(line: string, n: nat)
    requires n == WordRun(line, 0)
    ensures forall m :: LabelEndsAt(line, m) ==> m == n
  {
    forall m | LabelEndsAt(line, m)
      ensures m == n
    {
      assert !IsWordChar(line[m]);
    }
  }

  /** A label definition reads back as its label. */
  lemma {:induction false} LabelRoundTrip(name: string, space: char, rest: string)
    requires name != [] && forall j :: 0 <= j < |name| ==> IsWordChar(name[j])
    requires IsSpace(space)
    ensures LineLabel(name + ":" + [space] + rest) == Some(name)
  {
    var line := name + ":" + [space] + rest;
    assert line[|name|] == ':' && IsSpace(line[|name| + 1]);
    assert forall j :: 0 <= j < |name| ==> line[j] == name[j];
    assert line[..|name|] == name;
  }

  /** `get_source_labels`: every label defined in the source. */
  function SourceLabels(lines: seq<string>): (labels: set<string>)
    ensures forall x :: x in labels <==> exists k :: 0 <= k < |lines| && LineLabel(lines[k]) == Some(x)
    decreases |lines|
  {
    if lines == [] then {}
    else
      var front := lines[..|lines| - 1];
      var labels := SourceLabels(front);
      assert forall k :: 0 <= k < |front| ==> front[k] == lines[k];
      match LineLabel(lines[|lines| - 1])
      case None => labels
      case Some(x) => labels + {x}
  }

  /** A row the cleanup clears: it has a new name and its old name is no longer a label. */
  predicate Clears(row: Row, labels: set<string>)
  {
    row.newName != "" && row.oldName !in labels
  }

  /**
   * One row after the cleanup: a cleared row loses its new name and its
   * description; whether the new name is a label does not matter, since both
   * branches of the script clear.
   */
  function CleanRow(row: Row, labels: set<string>): (r: Row)
    ensures Clears(row, labels) ==> r == Row(row.oldName, row.scene, row.frame, "", "", row.category, row.status)
    ensures !Clears(row, labels) ==> r == row
    ensures !Clears(r, labels)
  {
    if row.newName != "" && row.oldName !in labels then Row(row.oldName, row.scene, row.frame, "", "", row.category, row.status)
    else row
  }

  /**
   * `cleanup_database`: the rows after the cleanup, in file order, and how
   * many were cleared. Rows without a new name and rows whose old name is
   * still defined are unchanged; every field but the new name and the
   * description is kept.
   */
  function CleanupDatabase(db: seq<Row>, labels: set<string>): (r: (seq<Row>, nat))
    ensures |r.0| == |db|
    ensures forall k :: 0 <= k < |db| ==>
              && r.0[k].oldName == db[k].oldName && r.0[k].scene == db[k].scene && r.0[k].frame == db[k].frame
              && r.0[k].category == db[k].category && r.0[k].status == db[k].status
              && (db[k].newName == "" || db[k].oldName in labels ==> r.0[k] == db[k])
              && (db[k].newName != "" && db[k].oldName !in labels ==> r.0[k].newName == "" && r.0[k].description == "")
              && (r.0[k] != db[k] <==> Clears(db[k], labels))
    ensures r.1 == |Filter((row: Row) => Clears(row, labels), db)|
  {
    (MapAll((row: Row) => CleanRow(row, labels), db), |Filter((row: Row) => Clears(row, labels), db)|)
  }

  /** A second cleanup with the same labels clears nothing and changes nothing. */
  lemma {:induction false} CleanupIdempotent(db: seq<Row>, labels: set<string>)
    ensures var once := CleanupDatabase(db, labels).0;
            CleanupDatabase(once, labels) == (once, 0)
  {
    var once := CleanupDatabase(db, labels).0;
    assert MapAll((row: Row) => CleanRow(row, labels), once) == once;
    FilterNone((row: Row) => Clears(row, labels), once);
  }

  // ---------------------------------------------------------------------------
  // `load_pending_procedures`
  // ---------------------------------------------------------------------------

  /** What the batch keeps of a pending row. */
  datatype PendingProc = PendingProc(oldName: string, scene: string, frame: string)

  /** A row still waiting for analysis: status exactly `pending`. */
  predicate IsPending(row: Row)
  {
    row.status == "pending"
  }

  /** The kept columns of a row. */
  function Selected(row: Row): (p: PendingProc)
    ensures p.oldName == row.oldName && p.scene == row.scene && p.frame == row.frame
  {
    PendingProc(row.oldName, row.scene, row.frame)
  }

  /** Every pending row, in file order. */
  function AllPending(db: seq<Row>): seq<PendingProc>
  {
    MapAll(Selected, Filter(IsPending, db))
  }

  /** How many procedures the loop collects before it stops: the size check follows the append, so at least one. */
  function BatchLimit(batchSize: int): (n: nat)
    ensures n >= 1 && n >= batchSize
  {
    Max(batchSize, 1)
  }

  /** The pending rows of a table split in two are those of the first part, then those of the second. */
  lemma {:induction false} AllPendingAppend(a: seq<Row>, b: seq<Row>)
    ensures AllPending(a + b) == AllPending(a) + AllPending(b)
  {
    FilterAppend(IsPending, a, b);
    MapAllAppend(Selected, Filter(IsPending, a), Filter(IsPending, b));
  }

  /**
   * `load_pending_procedures`: the first pending rows in file order, as many
   * as the batch holds; a batch size of zero or less still takes one.
   */
  method LoadPendingProcedures(db: seq<Row>, batchSize: int) returns (procs: seq<PendingProc>)
    ensures procs == AllPending(db)[..Min(BatchLimit(batchSize), |AllPending(db)|)]
  {
    procs := [];
    var i := 0;
    while i < |db|
      invariant 0 <= i <= |db|
      invariant procs == AllPending(db[..i])
      invariant |procs| < BatchLimit(batchSize)
    {
      var row := db[i];
      assert db[..i + 1] == db[..i] + [row];
      AllPendingAppend(db[..i], [row]);
      if row.status == "pending" {
        procs := procs + [Selected(row)];
        if |procs| >= batchSize {
          assert |procs| == BatchLimit(batchSize);
          AllPendingAppend(db[..i + 1], db[i + 1..]);
          assert db[..i + 1] + db[i + 1..] == db;
          return;
        }
      }
      i := i + 1;
    }
    assert db[..i] == db;
  }

  /** Every procedure of the batch is a pending row's, with its name, scene and frame. */
  lemma {:induction false} BatchFromPending(db: seq<Row>, n: nat, k: nat)
    requires n <= |AllPending(db)| && k < n
    ensures exists j :: 0 <= j < |db| && IsPending(db[j]) && AllPending(db)[..n][k] == Selected(db[j])
  {
    var pending := Filter(IsPending, db);
    assert pending[k] in db && IsPending(pending[k]);
  }
}
