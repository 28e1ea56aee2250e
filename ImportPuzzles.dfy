/**
 * scripts/importPuzzles.ts: every well-formed CSV row becomes a puzzle record; the
 * records are sent to the store in batches of 1000 with `createMany({ skipDuplicates: true })`,
 * and whatever is left at the end of the input is sent as one last batch.
 */
module ImportPuzzles {
  import opened Wrappers
  import opened JsStrings
  import opened CsvRows
  import opened Batching

  const BatchSize: nat := 1000

  /** What the script sends for one row; a `rating` of `None` is `parseInt`'s `NaN`. */
  datatype PuzzleData = PuzzleData(fen: string, solutionMoves: seq<string>, rating: Option<int>)

  /** The puzzle table, keyed by its unique `fen` column. */
  type PuzzleTable = map<string, PuzzleData>

  /**
   * Row normalisation: a row is kept exactly when FEN, Moves and Rating are all present
   * and non-empty. The moves are split on single spaces with empty tokens kept, so that
   * joining them gives `Moves` back; the rating is whatever `parseInt` makes of `Rating`.
   */
  function Normalize(row: Row): (r: Option<PuzzleData>)
    ensures r.Some? <==> Truthy(row.fen) && Truthy(row.moves) && Truthy(row.rating)
    ensures r.Some? ==> (&& r.value.fen == row.fen.value
                         && Join(r.value.solutionMoves, ' ') == row.moves.value
                         && |r.value.solutionMoves| >= 1
                         && (forall k :: 0 <= k < |r.value.solutionMoves| ==> ' ' !in r.value.solutionMoves[k])
                         && r.value.rating == ParseInt(row.rating.value))
  {
    if !Truthy(row.fen) || !Truthy(row.moves) || !Truthy(row.rating) then None
    else
      JoinSplit(row.moves.value, ' ');
      Some(PuzzleData(row.fen.value, Split(row.moves.value, ' '), ParseInt(row.rating.value)))
  }

  /** The records produced by `rows`, in arrival order. */
  function Accepted(rows: seq<Row>): (r: seq<PuzzleData>)
    ensures |r| <= |rows|
  {
    if rows == [] then []
    else
      var last := Normalize(rows[|rows| - 1]);
      Accepted(rows[..|rows| - 1]) + (if last.Some? then [last.value] else [])
  }

  /** A record is accepted exactly when `Normalize` makes it of some row. */
  lemma {:induction false} AcceptedMembers(rows: seq<Row>, p: PuzzleData)
    ensures p in Accepted(rows) <==> exists row :: row in rows && Normalize(row) == Some(p)
    decreases |rows|
  {
    if rows != [] {
      var init := rows[..|rows| - 1];
      AcceptedMembers(init, p);
      assert rows == init + [rows[|rows| - 1]];
      assert forall row :: row in rows <==> row in init || row == rows[|rows| - 1];
    }
  }

  /** Accepting two stretches of rows in turn is accepting them together. */
  lemma {:induction false} AcceptedAppend(a: seq<Row>, b: seq<Row>)
    ensures Accepted(a + b) == Accepted(a) + Accepted(b)
    decreases |b|
  {
    if b == [] {
      assert a + b == a;
    } else {
      assert (a + b)[..|a + b| - 1] == a + b[..|b| - 1];
      AcceptedAppend(a, b[..|b| - 1]);
    }
  }

  function Fens(batch: seq<PuzzleData>): set<string> {
    set p | p in batch :: p.fen
  }

  /**
   * `createMany({ data: batch, skipDuplicates: true })`: each record is inserted unless a
   * record with its fen is already stored (or came earlier in the same batch), in which
   * case it is skipped and the stored one stays as it was.
   */
  function CreateMany(table: PuzzleTable, batch: seq<PuzzleData>): PuzzleTable
    decreases |batch|
  {
    if batch == [] then table
    else
      var p := batch[0];
      CreateMany(if p.fen in table then table else table[p.fen := p], batch[1..])
  }

  /**
   * Insert-or-skip: afterwards every fen of the batch is stored, a record that was
   * stored before is unchanged, and each new record comes from the batch under its own fen.
   */
  lemma {:induction false} CreateManySpec(table: PuzzleTable, batch: seq<PuzzleData>)
    ensures CreateMany(table, batch).Keys == table.Keys + Fens(batch)
    ensures forall f :: f in table ==> CreateMany(table, batch)[f] == table[f]
    ensures forall f :: f in CreateMany(table, batch) && f !in table ==>
              CreateMany(table, batch)[f] in batch && CreateMany(table, batch)[f].fen == f
    decreases |batch|
  {
    if batch != [] {
      var p := batch[0];
      var next := if p.fen in table then table else table[p.fen := p];
      CreateManySpec(next, batch[1..]);
      assert Fens(batch) == {p.fen} + Fens(batch[1..]) by {
        assert batch == [p] + batch[1..];
      }
    }
  }

  /** Every `createMany` call of a run, one after the other. */
  function CreateManyAll(table: PuzzleTable, calls: seq<seq<PuzzleData>>): PuzzleTable
    decreases |calls|
  {
    if calls == [] then table
    else CreateManyAll(CreateMany(table, calls[0]), calls[1..])
  }

  /** Batch boundaries do not matter: two calls store what one call on both batches would. */
  lemma {:induction false} CreateManyConcat(table: PuzzleTable, a: seq<PuzzleData>, b: seq<PuzzleData>)
    ensures CreateMany(CreateMany(table, a), b) == CreateMany(table, a + b)
    decreases |a|
  {
    if a != [] {
      var p := a[0];
      var next := if p.fen in table then table else table[p.fen := p];
      assert (a + b)[0] == p && (a + b)[1..] == a[1..] + b;
      CreateManyConcat(next, a[1..], b);
    } else {
      assert a + b == b;
    }
  }

  lemma {:induction false} CreateManyAllFlatten(table: PuzzleTable, calls: seq<seq<PuzzleData>>)
    ensures CreateManyAll(table, calls) == CreateMany(table, Flatten(calls))
    decreases |calls|
  {
    if calls != [] {
      CreateManyAllFlatten(CreateMany(table, calls[0]), calls[1..]);
      CreateManyConcat(table, calls[0], Flatten(calls[1..]));
    }
  }

  /** Records whose fens are all stored already change nothing. */
  lemma {:induction false} CreateManyStored(table: PuzzleTable, batch: seq<PuzzleData>)
    requires Fens(batch) <= table.Keys
    ensures CreateMany(table, batch) == table
  {
    if batch != [] {
      assert batch == [batch[0]] + batch[1..];
      assert Fens(batch[1..]) <= Fens(batch);
      CreateManyStored(table, batch[1..]);
    }
  }

  /** The table after a whole import run over `rows`. */
  function Import(table: PuzzleTable, rows: seq<Row>): PuzzleTable {
    CreateManyAll(table, Chunks(Accepted(rows), BatchSize))
  }

  /**
   * After an import every accepted fen is stored, a record already stored is left
   * untouched, and nothing else appears.
   */
  lemma {:induction false} ImportStoresAll(table: PuzzleTable, rows: seq<Row>)
    ensures Import(table, rows).Keys == table.Keys + Fens(Accepted(rows))
    ensures forall f :: f in table ==> Import(table, rows)[f] == table[f]
  {
    CreateManyAllFlatten(table, Chunks(Accepted(rows), BatchSize));
    FlattenChunks(Accepted(rows), BatchSize);
    CreateManySpec(table, Accepted(rows));
  }

  /** Running the whole import a second time on the same rows leaves the table as it was. */
  lemma {:induction false} ImportIdempotent(table: PuzzleTable, rows: seq<Row>)
    ensures Import(Import(table, rows), rows) == Import(table, rows)
  {
    var once := Import(table, rows);
    ImportStoresAll(table, rows);
    CreateManyAllFlatten(once, Chunks(Accepted(rows), BatchSize));
    FlattenChunks(Accepted(rows), BatchSize);
    CreateManyStored(once, Accepted(rows));
  }

  lemma {:induction false} AcceptedStep(rows: seq<Row>, i: nat)
    requires i < |rows|
    ensures Accepted(rows[..i + 1])
         == Accepted(rows[..i]) + (if Normalize(rows[i]).Some? then [Normalize(rows[i]).value] else [])
  {
    assert rows[..i + 1][..i] == rows[..i];
  }

  /**
   * What one pass of the row loop does to (pending batch, calls so far, table, counter):
   * a malformed row changes nothing; an accepted record is pushed and counted, and a
   * batch that reaches `BatchSize` is sent and emptied.
   */
  ghost predicate RowStep(row: Row,
                          batch: seq<PuzzleData>, calls: seq<seq<PuzzleData>>, table: PuzzleTable, counter: nat,
                          batch': seq<PuzzleData>, calls': seq<seq<PuzzleData>>, table': PuzzleTable, counter': nat)
  {
    match Normalize(row)
    case None => batch' == batch && calls' == calls && table' == table && counter' == counter
    case Some(p) =>
      && counter' == counter + 1
      && (|batch + [p]| == BatchSize ==> batch' == [] && calls' == calls + [batch + [p]] && table' == CreateMany(table, batch + [p]))
      && (|batch + [p]| < BatchSize ==> batch' == batch + [p] && calls' == calls && table' == table)
  }

  /** The row loop's invariant after the rows `seen`, for a run that started on table `db`. */
  ghost predicate Progress(db: PuzzleTable, seen: seq<Row>,
                           batch: seq<PuzzleData>, calls: seq<seq<PuzzleData>>, table: PuzzleTable, counter: nat)
  {
    && |batch| < BatchSize
    && Flatten(calls) + batch == Accepted(seen)
    && (forall k :: 0 <= k < |calls| ==> |calls[k]| == BatchSize)
    && counter == |Accepted(seen)|
    && table == CreateMany(db, Flatten(calls))
  }

  lemma {:induction false} ProgressStep(db: PuzzleTable, rows: seq<Row>, i: nat,
                     batch: seq<PuzzleData>, calls: seq<seq<PuzzleData>>, table: PuzzleTable, counter: nat,
                     batch': seq<PuzzleData>, calls': seq<seq<PuzzleData>>, table': PuzzleTable, counter': nat)
    requires i < |rows|
    requires Progress(db, rows[..i], batch, calls, table, counter)
    requires RowStep(rows[i], batch, calls, table, counter, batch', calls', table', counter')
    ensures Progress(db, rows[..i + 1], batch', calls', table', counter')
  {
    AcceptedStep(rows, i);
    match Normalize(rows[i])
    case None =>
    case Some(p) =>
      if |batch + [p]| == BatchSize {
        ProgressFlush(db, rows[..i], rows[..i + 1], p, batch, calls, table, counter);
      } else {
        assert Flatten(calls') + batch' == Flatten(calls) + batch + [p];
      }
  }

  lemma {:induction false} ProgressFlush(db: PuzzleTable, seen: seq<Row>, seen': seq<Row>, p: PuzzleData,
                                         batch: seq<PuzzleData>, calls: seq<seq<PuzzleData>>, table: PuzzleTable, counter: nat)
    requires Progress(db, seen, batch, calls, table, counter)
    requires Accepted(seen') == Accepted(seen) + [p]
    requires |batch + [p]| == BatchSize
    ensures Progress(db, seen', [], calls + [batch + [p]], CreateMany(table, batch + [p]), counter + 1)
  {
    var full := batch + [p];
    var calls' := calls + [full];
    assert Flatten(calls') + [] == Accepted(seen') by {
      FlattenAppend(calls, full);
    }
    assert CreateMany(table, full) == CreateMany(db, Flatten(calls')) by {
      FlattenAppend(calls, full);
      CreateManyConcat(db, Flatten(calls), full);
    }
    assert forall k :: 0 <= k < |calls'| ==> |calls'[k]| == BatchSize by {
      assert forall k :: 0 <= k < |calls| ==> calls'[k] == calls[k];
    }
    assert counter + 1 == |Accepted(seen')|;
  }

  /**
   * The state of the script's `main`: the pending batch, the running `counter`, the
   * store, and (for the proofs) the list of `createMany` calls made so far.
   */
  class PuzzleImport {
    var puzzleBatch: seq<PuzzleData>
    var counter: nat
    var table: PuzzleTable
    ghost var Calls: seq<seq<PuzzleData>>

    constructor (db: PuzzleTable)
      ensures puzzleBatch == [] && counter == 0 && table == db && Calls == []
    {
      puzzleBatch, counter, table := [], 0, db;
      Calls := [];
    }

    /** One `createMany` call with `skipDuplicates`. */
    method CreateManySkipDuplicates(batch: seq<PuzzleData>)
      modifies this`table, this`Calls
      ensures table == CreateMany(old(table), batch)
      ensures Calls == old(Calls) + [batch]
    {
      table := CreateMany(table, batch);
      Calls := Calls + [batch];
    }

    /**
     * The body of the row loop: skip a malformed row; otherwise push its record, count
     * it, and send the batch once it holds exactly `BatchSize` records.
     */
    method AddRow(row: Row)
      requires |puzzleBatch| < BatchSize
      modifies this
      ensures |puzzleBatch| < BatchSize
      ensures RowStep(row, old(puzzleBatch), old(Calls), old(table), old(counter), puzzleBatch, Calls, table, counter)
    {
      var data := Normalize(row);
      if data.None? {
        return;
      }
      puzzleBatch := puzzleBatch + [data.value];
      counter := counter + 1;
      if |puzzleBatch| == BatchSize {
        CreateManySkipDuplicates(puzzleBatch);
        puzzleBatch := [];
      }
    }

    /**
     * After the input ends: send the remaining records, if there are any. The script does
     * not empty its batch here (`main` ends); emptying it only marks every record as sent.
     */
    method FlushRemaining()
      modifies this
      ensures puzzleBatch == [] && counter == old(counter)
      ensures old(puzzleBatch) == [] ==> table == old(table) && Calls == old(Calls)
      ensures old(puzzleBatch) != [] ==>
                table == CreateMany(old(table), old(puzzleBatch)) && Calls == old(Calls) + [old(puzzleBatch)]
    {
      if |puzzleBatch| > 0 {
        CreateManySkipDuplicates(puzzleBatch);
        puzzleBatch := [];
      }
    }

    /**
     * A whole run over the decoded rows. The `createMany` calls are exactly the chunks of
     * the accepted records (every in-loop call with 1000 records, a final one with the
     * 1 to 999 left over if any), `counter` ends as the number of accepted rows, and the
     * table ends as `Import` says.
     */
    method Run(rows: seq<Row>)
      requires puzzleBatch == [] && counter == 0 && Calls == []
      modifies this
      ensures Calls == Chunks(Accepted(rows), BatchSize)
      ensures counter == |Accepted(rows)|
      ensures table == Import(old(table), rows)
      ensures puzzleBatch == []
    {
      ghost var db := table;
      var i := 0;
      while i < |rows|
        invariant 0 <= i <= |rows|
        invariant Progress(db, rows[..i], puzzleBatch, Calls, table, counter)
      {
        ghost var batch0, calls0, table0, counter0 := puzzleBatch, Calls, table, counter;
        AddRow(rows[i]);
        ProgressStep(db, rows, i, batch0, calls0, table0, counter0, puzzleBatch, Calls, table, counter);
        i := i + 1;
      }
      assert rows[..i] == rows;
      ghost var calls0, batch0 := Calls, puzzleBatch;
      FlushRemaining();
      ChunksOfFlushed(calls0, batch0, BatchSize);
      if batch0 != [] {
        FlattenAppend(calls0, batch0);
        CreateManyConcat(db, Flatten(calls0), batch0);
      }
      CreateManyAllFlatten(db, Calls);
    }
  }
}
