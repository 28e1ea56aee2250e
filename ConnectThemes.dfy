/**
 * scripts/connectThemes.ts: every CSV row with a FEN and a Themes value becomes a
 * (fen, theme slugs) record; records are processed in batches of 500. Processing a batch
 * looks up the batch's puzzles by fen and its themes by slug, builds one "connect these
 * themes" operation per puzzle that resolved and has at least one resolved theme, and
 * runs all of them as a single transaction.
 */
module ConnectThemes {
  import opened Wrappers
  import opened JsStrings
  import opened CsvRows
  import opened Batching

  const BatchSize: nat := 500

  type PuzzleId = string
  type ThemeId = int

  datatype PuzzleUpdateData = PuzzleUpdateData(fen: string, themes: seq<string>)

  /**
   * Row normalisation: a row is kept exactly when FEN and Themes are present and
   * non-empty; its slugs are the space-separated tokens of Themes with the empty ones dropped.
   */
  function Normalize(row: Row): (r: Option<PuzzleUpdateData>)
    ensures r.Some? <==> Truthy(row.fen) && Truthy(row.themes)
    ensures r.Some? ==> && r.value.fen == row.fen.value
                        && (forall k :: 0 <= k < |r.value.themes| ==> r.value.themes[k] != "" && ' ' !in r.value.themes[k])
                        && (forall t :: t in r.value.themes <==> t in Split(row.themes.value, ' ') && t != "")
                        && multiset(r.value.themes) == multiset(Split(row.themes.value, ' '))["" := 0]
  {
    if !Truthy(row.fen) || !Truthy(row.themes) then None
    else
      var themes := DropEmpty(Split(row.themes.value, ' '));
      assert forall k :: 0 <= k < |themes| ==> themes[k] in Split(row.themes.value, ' ');
      DropEmptyMultiset(Split(row.themes.value, ' '));
      Some(PuzzleUpdateData(row.fen.value, themes))
  }

  lemma {:induction false} SplitAllSeparators(s: string, d: char)
    requires forall k :: 0 <= k < |s| ==> s[k] == d
    ensures forall k :: 0 <= k < |Split(s, d)| ==> Split(s, d)[k] == ""
  {
    if s != [] {
      SplitAllSeparators(s[1..], d);
    }
  }

  lemma {:induction false} DropEmptyAllEmpty(xs: seq<string>)
    requires forall k :: 0 <= k < |xs| ==> xs[k] == ""
    ensures DropEmpty(xs) == []
  {
    if xs != [] {
      DropEmptyAllEmpty(xs[1..]);
    }
  }

  /** A Themes value made only of spaces is accepted, with no slugs. */
  lemma OnlySpacesGivesNoSlugs(row: Row)
    requires Truthy(row.fen) && Truthy(row.themes)
    requires forall k :: 0 <= k < |row.themes.value| ==> row.themes.value[k] == ' '
    ensures Normalize(row) == Some(PuzzleUpdateData(row.fen.value, []))
  {
    SplitAllSeparators(row.themes.value, ' ');
    DropEmptyAllEmpty(Split(row.themes.value, ' '));
  }

  /** Slugs written out with single spaces are read back one for one, in order. */
  lemma ThemesRoundTrip(fen: string, slugs: seq<string>)
    requires fen != "" && |slugs| >= 1
    requires forall k :: 0 <= k < |slugs| ==> slugs[k] != "" && ' ' !in slugs[k]
    ensures Normalize(Row(Some(fen), None, None, Some(Join(slugs, ' ')))) == Some(PuzzleUpdateData(fen, slugs))
  {
    assert |Join(slugs, ' ')| >= |slugs[0]|;
    SplitJoin(slugs, ' ');
    DropEmptyNone(slugs);
  }

  /** The records produced by `rows`, in arrival order. */
  function Accepted(rows: seq<Row>): (r: seq<PuzzleUpdateData>)
    ensures |r| <= |rows|
  {
    if rows == [] then []
    else
      var last := Normalize(rows[|rows| - 1]);
      Accepted(rows[..|rows| - 1]) + (if last.Some? then [last.value] else [])
  }

  /** A record is accepted exactly when `Normalize` makes it of some row. */
  lemma {:induction false} AcceptedMembers(rows: seq<Row>, p: PuzzleUpdateData)
    ensures p in Accepted(rows) <==> exists row :: row in rows && Normalize(row) == Some(p)
    decreases |rows|
  {
    if rows != [] {
      var init := rows[..|rows| - 1];
      AcceptedMembers(init, p);
      assert rows == init + [rows[|rows| - 1]];
      assert forall row :: row in rows <==> row in init || row == rows[|rows| - 1];
    }
  }

  /** Accepting two stretches of rows in turn is accepting them together. */
  lemma {:induction false} AcceptedAppend(a: seq<Row>, b: seq<Row>)
    ensures Accepted(a + b) == Accepted(a) + Accepted(b)
    decreases |b|
  {
    if b == [] {
      assert a + b == a;
    } else {
      assert (a + b)[..|a + b| - 1] == a + b[..|b| - 1];
      AcceptedAppend(a, b[..|b| - 1]);
    }
  }

  /**
   * The part of the store the script touches: puzzle ids by fen, theme ids by slug,
   * and the puzzle-theme relation as a set of theme ids per puzzle.
   */
  datatype Db = Db(puzzleIdByFen: map<string, PuzzleId>, themeIdBySlug: map<string, ThemeId>,
                   links: map<PuzzleId, set<ThemeId>>)

  /** Referential integrity: every puzzle id names a puzzle row, every linked id a theme. */
  predicate Consistent(db: Db) {
    && (forall f :: f in db.puzzleIdByFen ==> db.puzzleIdByFen[f] in db.links)
    && (forall p :: p in db.links ==> db.links[p] <= db.themeIdBySlug.Values)
  }

  function FensOf(batch: seq<PuzzleUpdateData>): set<string> {
    set r | r in batch :: r.fen
  }

  /** `new Set(batch.flatMap(p => p.themes))`. */
  function SlugsOf(batch: seq<PuzzleUpdateData>): set<string> {
    set r, s | r in batch && s in r.themes :: s
  }

  /** `fenToIdMap`: the puzzles whose fen occurs in the batch. */
  function FenLookup(db: Db, batch: seq<PuzzleUpdateData>): (m: map<string, PuzzleId>)
    ensures m.Keys == db.puzzleIdByFen.Keys * FensOf(batch)
    ensures forall f :: f in m ==> m[f] == db.puzzleIdByFen[f]
  {
    map f | f in db.puzzleIdByFen && f in FensOf(batch) :: db.puzzleIdByFen[f]
  }

  /** `slugToIdMap`: the themes whose slug occurs in some record of the batch. */
  function SlugLookup(db: Db, batch: seq<PuzzleUpdateData>): (m: map<string, ThemeId>)
    ensures m.Keys == db.themeIdBySlug.Keys * SlugsOf(batch)
    ensures forall s :: s in m ==> m[s] == db.themeIdBySlug[s]
  {
    map s | s in db.themeIdBySlug && s in SlugsOf(batch) :: db.themeIdBySlug[s]
  }

  /** `prisma.puzzle.update({ where: { id }, data: { themes: { connect: ids } } })`. */
  datatype ConnectOp = ConnectOp(puzzleId: PuzzleId, themeIds: seq<ThemeId>)

  /** `slugs.map(slug => slugToIdMap.get(slug)).filter(id => id !== undefined)`. */
  function ResolveSlugs(slugs: seq<string>, slugToId: map<string, ThemeId>): (r: seq<ThemeId>)
    ensures |r| <= |slugs|
    ensures forall id :: id in r <==> exists s :: s in slugs && s in slugToId && slugToId[s] == id
  {
    if slugs == [] then []
    else
      var rest := ResolveSlugs(slugs[1..], slugToId);
      assert forall s :: s in slugs <==> s == slugs[0] || s in slugs[1..];
      (if slugs[0] in slugToId then [slugToId[slugs[0]]] else []) + rest
  }

  /** The ids keep the order of their slugs, duplicates included: resolving two parts is resolving each and concatenating. */
  lemma {:induction false} ResolveSlugsAppend(a: seq<string>, b: seq<string>, slugToId: map<string, ThemeId>)
    ensures ResolveSlugs(a + b, slugToId) == ResolveSlugs(a, slugToId) + ResolveSlugs(b, slugToId)
    decreases |a|
  {
    if a == [] {
      assert a + b == b;
    } else {
      assert (a + b)[0] == a[0] && (a + b)[1..] == a[1..] + b;
      ResolveSlugsAppend(a[1..], b, slugToId);
    }
  }

  /** The operation one record contributes: none when its fen or all its slugs fail to resolve. */
  function OpFor(rec: PuzzleUpdateData, fenToId: map<string, PuzzleId>, slugToId: map<string, ThemeId>): seq<ConnectOp> {
    if rec.fen !in fenToId then []
    else
      var ids := ResolveSlugs(rec.themes, slugToId);
      if ids == [] then [] else [ConnectOp(fenToId[rec.fen], ids)]
  }

  /** `transactionPayload` after the loop over `batch`. */
  function Plan(batch: seq<PuzzleUpdateData>, fenToId: map<string, PuzzleId>, slugToId: map<string, ThemeId>): seq<ConnectOp> {
    if batch == [] then []
    else Plan(batch[..|batch| - 1], fenToId, slugToId) + OpFor(batch[|batch| - 1], fenToId, slugToId)
  }

  /** Every operation names a resolved puzzle and at least one theme id. */
  lemma {:induction false} PlanWellFormed(batch: seq<PuzzleUpdateData>, fenToId: map<string, PuzzleId>, slugToId: map<string, ThemeId>)
    ensures |Plan(batch, fenToId, slugToId)| <= |batch|
    ensures forall op :: op in Plan(batch, fenToId, slugToId) ==>
              op.themeIds != [] && op.puzzleId in fenToId.Values && (forall id :: id in op.themeIds ==> id in slugToId.Values)
  {
    if batch != [] {
      PlanWellFormed(batch[..|batch| - 1], fenToId, slugToId);
      var rec := batch[|batch| - 1];
      if rec.fen in fenToId {
        var ids := ResolveSlugs(rec.themes, slugToId);
        forall id | id in ids ensures id in slugToId.Values {
          var s :| s in rec.themes && s in slugToId && slugToId[s] == id;
        }
      }
    }
  }

  /**
   * Operations come in batch order: the plan of two pieces is the plan of the first
   * followed by the plan of the second, record by record.
   */
  lemma {:induction false} PlanAppend(a: seq<PuzzleUpdateData>, b: seq<PuzzleUpdateData>,
                                      fenToId: map<string, PuzzleId>, slugToId: map<string, ThemeId>)
    ensures Plan(a + b, fenToId, slugToId) == Plan(a, fenToId, slugToId) + Plan(b, fenToId, slugToId)
    decreases |b|
  {
    if b == [] {
      assert a + b == a;
    } else {
      var b' := b[..|b| - 1];
      assert (a + b)[..|a + b| - 1] == a + b';
      PlanAppend(a, b', fenToId, slugToId);
    }
  }

  /**
   * One record yields exactly one operation when its fen resolves and at least one of its
   * slugs does, and none otherwise (an unknown fen raises no error).
   */
  lemma PlanSingle(rec: PuzzleUpdateData, fenToId: map<string, PuzzleId>, slugToId: map<string, ThemeId>)
    ensures rec.fen !in fenToId ==> Plan([rec], fenToId, slugToId) == []
    ensures rec.fen in fenToId && ResolveSlugs(rec.themes, slugToId) != [] ==>
              Plan([rec], fenToId, slugToId) == [ConnectOp(fenToId[rec.fen], ResolveSlugs(rec.themes, slugToId))]
    ensures ResolveSlugs(rec.themes, slugToId) == [] ==> Plan([rec], fenToId, slugToId) == []
  {
    assert [rec][..0] == [];
  }

  /** The loop of `processBatch` that fills `transactionPayload`. */
  method BuildPayload(batch: seq<PuzzleUpdateData>, fenToIdMap: map<string, PuzzleId>, slugToIdMap: map<string, ThemeId>)
    returns (transactionPayload: seq<ConnectOp>)
    ensures transactionPayload == Plan(batch, fenToIdMap, slugToIdMap)
  {
    transactionPayload := [];
    for i := 0 to |batch|
      invariant transactionPayload == Plan(batch[..i], fenToIdMap, slugToIdMap)
    {
      assert batch[..i + 1][..i] == batch[..i];
      var puzzleData := batch[i];
      if puzzleData.fen !in fenToIdMap {
        continue;
      }
      var puzzleId := fenToIdMap[puzzleData.fen];
      var themeIdsToConnect := ResolveSlugs(puzzleData.themes, slugToIdMap);
      if |themeIdsToConnect| > 0 {
        transactionPayload := transactionPayload + [ConnectOp(puzzleId, themeIdsToConnect)];
      }
    }
    assert batch[..|batch|] == batch;
  }

  /** Connecting is additive: a theme already linked stays linked once, as in a set. */
  function Connect(links: map<PuzzleId, set<ThemeId>>, op: ConnectOp): map<PuzzleId, set<ThemeId>> {
    if op.puzzleId in links then links[op.puzzleId := links[op.puzzleId] + (set id | id in op.themeIds)] else links
  }

  function ApplyOps(links: map<PuzzleId, set<ThemeId>>, ops: seq<ConnectOp>): map<PuzzleId, set<ThemeId>>
    decreases |ops|
  {
    if ops == [] then links else ApplyOps(Connect(links, ops[0]), ops[1..])
  }

  /** An operation can be carried out when its puzzle and all its themes exist. */
  predicate Applicable(db: Db, op: ConnectOp) {
    op.puzzleId in db.links && forall id :: id in op.themeIds ==> id in db.themeIdBySlug.Values
  }

  /**
   * `prisma.$transaction(ops)`: if any operation names a missing record the whole
   * transaction fails and nothing is written; otherwise all of them are applied.
   */
  function Transaction(db: Db, ops: seq<ConnectOp>): Result<Db, string> {
    if forall op :: op in ops ==> Applicable(db, op) then Success(db.(links := ApplyOps(db.links, ops)))
    else Failure("Record to update not found")
  }

  /** What `processBatch(batch)` does to the store. */
  function BatchEffect(db: Db, batch: seq<PuzzleUpdateData>): Result<Db, string> {
    var ops := Plan(batch, FenLookup(db, batch), SlugLookup(db, batch));
    if ops == [] then Success(db) else Transaction(db, ops)
  }

  /** The `processBatch` calls of a run, one after another, stopping at the first failure. */
  function BatchesEffect(db: Db, batches: seq<seq<PuzzleUpdateData>>): Result<Db, string> {
    if batches == [] then Success(db)
    else
      var before := BatchesEffect(db, batches[..|batches| - 1]);
      if before.Failure? then before else BatchEffect(before.value, batches[|batches| - 1])
  }

  /** The set of theme ids the operations attach to puzzle `pid`. */
  function Attached(ops: seq<ConnectOp>, pid: PuzzleId): set<ThemeId>
    decreases |ops|
  {
    if ops == [] then {}
    else (if ops[0].puzzleId == pid then set id | id in ops[0].themeIds else {}) + Attached(ops[1..], pid)
  }

  /** Applying operations adds to each puzzle exactly the themes attached to it, and adds no puzzle. */
  lemma {:induction false} ApplyOpsAt(links: map<PuzzleId, set<ThemeId>>, ops: seq<ConnectOp>)
    ensures ApplyOps(links, ops).Keys == links.Keys
    ensures forall pid :: pid in links ==> ApplyOps(links, ops)[pid] == links[pid] + Attached(ops, pid)
    decreases |ops|
  {
    if ops != [] {
      var next := Connect(links, ops[0]);
      ApplyOpsAt(next, ops[1..]);
    }
  }

  lemma {:induction false} AttachedContains(ops: seq<ConnectOp>, k: nat)
    requires k < |ops|
    ensures (set id | id in ops[k].themeIds) <= Attached(ops, ops[k].puzzleId)
    decreases k
  {
    if k > 0 {
      AttachedContains(ops[1..], k - 1);
      assert ops[1..][k - 1] == ops[k];
    }
  }

  /** A consistent store never fails a batch, stays consistent, and keeps its lookups. */
  lemma ConsistentBatchSucceeds(db: Db, batch: seq<PuzzleUpdateData>)
    requires Consistent(db)
    ensures BatchEffect(db, batch).Success?
    ensures var db' := BatchEffect(db, batch).value;
            Consistent(db') && db'.puzzleIdByFen == db.puzzleIdByFen && db'.themeIdBySlug == db.themeIdBySlug
            && db'.links.Keys == db.links.Keys
            && (forall p :: p in db.links ==> db.links[p] <= db'.links[p])
  {
    var ops := Plan(batch, FenLookup(db, batch), SlugLookup(db, batch));
    PlanApplicable(db, batch);
    ApplyOpsAt(db.links, ops);
    AttachedStored(db, ops);
    var db' := db.(links := ApplyOps(db.links, ops));
    forall p | p in db'.links ensures db'.links[p] <= db.themeIdBySlug.Values {
      assert p in db.links && db'.links[p] == db.links[p] + Attached(ops, p);
    }
    assert BatchEffect(db, batch) == Success(db');
  }

  /** Applicable operations attach only stored themes. */
  lemma AttachedStored(db: Db, ops: seq<ConnectOp>)
    requires forall op :: op in ops ==> Applicable(db, op)
    ensures forall p :: Attached(ops, p) <= db.themeIdBySlug.Values
  {
    forall p, id | id in Attached(ops, p) ensures id in db.themeIdBySlug.Values {
      AttachedFrom(ops, p, id);
    }
  }

  /** Every operation planned against a consistent store names a stored puzzle and stored themes. */
  lemma PlanApplicable(db: Db, batch: seq<PuzzleUpdateData>)
    requires Consistent(db)
    ensures forall op :: op in Plan(batch, FenLookup(db, batch), SlugLookup(db, batch)) ==> Applicable(db, op)
  {
    var fenToId, slugToId := FenLookup(db, batch), SlugLookup(db, batch);
    PlanWellFormed(batch, fenToId, slugToId);
    forall op | op in Plan(batch, fenToId, slugToId) ensures Applicable(db, op) {
      var f :| f in fenToId && fenToId[f] == op.puzzleId;
      forall id | id in op.themeIds ensures id in db.themeIdBySlug.Values {
        var s :| s in slugToId && slugToId[s] == id;
      }
    }
  }

  lemma {:induction false} AttachedFrom(ops: seq<ConnectOp>, pid: PuzzleId, id: ThemeId)
    requires id in Attached(ops, pid)
    ensures exists op :: op in ops && op.puzzleId == pid && id in op.themeIds
    decreases |ops|
  {
    if !(ops[0].puzzleId == pid && id in ops[0].themeIds) {
      AttachedFrom(ops[1..], pid, id);
      var op :| op in ops[1..] && op.puzzleId == pid && id in op.themeIds;
      assert op in ops;
    }
  }

  /**
   * After one batch on a consistent store, a puzzle's themes are the ones it had plus
   * exactly the resolved slugs of the batch's records with its fen; unknown slugs add nothing.
   */
  lemma BatchLinks(db: Db, batch: seq<PuzzleUpdateData>, pid: PuzzleId)
    requires Consistent(db) && pid in db.links
    ensures BatchEffect(db, batch).Success? && pid in BatchEffect(db, batch).value.links
    ensures BatchEffect(db, batch).value.links[pid]
         == db.links[pid] + (set r, s | r in batch && r.fen in db.puzzleIdByFen && db.puzzleIdByFen[r.fen] == pid
                                        && s in r.themes && s in db.themeIdBySlug :: db.themeIdBySlug[s])
  {
    ConsistentBatchSucceeds(db, batch);
    ApplyOpsAt(db.links, Plan(batch, FenLookup(db, batch), SlugLookup(db, batch)));
    LookupAttached(db, batch, pid);
  }

  /** Resolving through the batch's lookup maps is resolving through the store. */
  lemma LookupAttached(db: Db, batch: seq<PuzzleUpdateData>, pid: PuzzleId)
    ensures Attached(Plan(batch, FenLookup(db, batch), SlugLookup(db, batch)), pid)
         == set r, s | r in batch && r.fen in db.puzzleIdByFen && db.puzzleIdByFen[r.fen] == pid
                       && s in r.themes && s in db.themeIdBySlug :: db.themeIdBySlug[s]
  {
    var fenToId, slugToId := FenLookup(db, batch), SlugLookup(db, batch);
    PlanAttached(batch, fenToId, slugToId, pid);
    var want := set r, s | r in batch && r.fen in db.puzzleIdByFen && db.puzzleIdByFen[r.fen] == pid
                           && s in r.themes && s in db.themeIdBySlug :: db.themeIdBySlug[s];
    var got := set r, s | r in batch && r.fen in fenToId && fenToId[r.fen] == pid
                          && s in r.themes && s in slugToId :: slugToId[s];
    forall id ensures id in got <==> id in want {
      if id in want {
        var r, s :| r in batch && r.fen in db.puzzleIdByFen && db.puzzleIdByFen[r.fen] == pid
                    && s in r.themes && s in db.themeIdBySlug && db.themeIdBySlug[s] == id;
        assert r.fen in FensOf(batch);
        assert s in SlugsOf(batch);
      }
    }
    assert got == want;
  }

  /** The themes the plan attaches to `pid`: every resolved slug of every record whose fen resolves to `pid`. */
  lemma {:induction false} PlanAttached(batch: seq<PuzzleUpdateData>, fenToId: map<string, PuzzleId>,
                                        slugToId: map<string, ThemeId>, pid: PuzzleId)
    ensures Attached(Plan(batch, fenToId, slugToId), pid)
         == set r, s | r in batch && r.fen in fenToId && fenToId[r.fen] == pid && s in r.themes && s in slugToId :: slugToId[s]
  {
    if batch != [] {
      var init, rec := batch[..|batch| - 1], batch[|batch| - 1];
      PlanAttached(init, fenToId, slugToId, pid);
      AttachedAppend(Plan(init, fenToId, slugToId), OpFor(rec, fenToId, slugToId), pid);
      assert batch == init + [rec];
      var whole := set r, s | r in batch && r.fen in fenToId && fenToId[r.fen] == pid && s in r.themes && s in slugToId :: slugToId[s];
      var front := set r, s | r in init && r.fen in fenToId && fenToId[r.fen] == pid && s in r.themes && s in slugToId :: slugToId[s];
      var last := set s | rec.fen in fenToId && fenToId[rec.fen] == pid && s in rec.themes && s in slugToId :: slugToId[s];
      OpForAttached(rec, fenToId, slugToId, pid);
      forall id ensures id in whole <==> id in front + last {
        if id in whole {
          var r, s :| r in batch && r.fen in fenToId && fenToId[r.fen] == pid && s in r.themes && s in slugToId && slugToId[s] == id;
          if r != rec {
            assert r in init;
          }
        }
      }
    } else {
      assert Attached([], pid) == {};
    }
  }

  lemma OpForAttached(rec: PuzzleUpdateData, fenToId: map<string, PuzzleId>, slugToId: map<string, ThemeId>, pid: PuzzleId)
    ensures Attached(OpFor(rec, fenToId, slugToId), pid)
         == set s | rec.fen in fenToId && fenToId[rec.fen] == pid && s in rec.themes && s in slugToId :: slugToId[s]
  {
    if rec.fen in fenToId {
      var ids := ResolveSlugs(rec.themes, slugToId);
      var direct := set s | s in rec.themes && s in slugToId :: slugToId[s];
      assert (set id | id in ids) == direct;
      if ids != [] {
        var ops := [ConnectOp(fenToId[rec.fen], ids)];
        assert ops[1..] == [];
        assert Attached(ops, pid) == (if fenToId[rec.fen] == pid then set id | id in ids else {}) + Attached([], pid);
      } else {
        assert direct == {};
      }
    }
  }

  lemma {:induction false} AttachedAppend(a: seq<ConnectOp>, b: seq<ConnectOp>, pid: PuzzleId)
    ensures Attached(a + b, pid) == Attached(a, pid) + Attached(b, pid)
    decreases |a|
  {
    if a == [] {
      assert a + b == b;
    } else {
      assert (a + b)[0] == a[0] && (a + b)[1..] == a[1..] + b;
      AttachedAppend(a[1..], b, pid);
    }
  }

  /** Every operation the store's plan for `batch` would run is already reflected in its links. */
  predicate Covered(db: Db, batch: seq<PuzzleUpdateData>) {
    forall op :: op in Plan(batch, FenLookup(db, batch), SlugLookup(db, batch)) ==>
      op.puzzleId in db.links && (set id | id in op.themeIds) <= db.links[op.puzzleId]
  }

  /** `db'` has the same puzzles and themes as `db` and at least its links. */
  predicate Extends(db: Db, db': Db) {
    && db'.puzzleIdByFen == db.puzzleIdByFen && db'.themeIdBySlug == db.themeIdBySlug
    && db'.links.Keys == db.links.Keys
    && (forall p :: p in db.links ==> db.links[p] <= db'.links[p])
  }

  /** The lookups, and so the plan, depend only on the puzzles and themes, not on the links. */
  lemma SamePlan(db: Db, db': Db, batch: seq<PuzzleUpdateData>)
    requires db'.puzzleIdByFen == db.puzzleIdByFen && db'.themeIdBySlug == db.themeIdBySlug
    ensures FenLookup(db', batch) == FenLookup(db, batch) && SlugLookup(db', batch) == SlugLookup(db, batch)
  {
  }

  lemma CoveredAfterBatch(db: Db, batch: seq<PuzzleUpdateData>)
    requires Consistent(db)
    ensures BatchEffect(db, batch).Success? && Covered(BatchEffect(db, batch).value, batch)
  {
    ConsistentBatchSucceeds(db, batch);
    var db' := BatchEffect(db, batch).value;
    SamePlan(db, db', batch);
    var ops := Plan(batch, FenLookup(db, batch), SlugLookup(db, batch));
    ApplyOpsAt(db.links, ops);
    forall op | op in ops ensures op.puzzleId in db'.links && (set id | id in op.themeIds) <= db'.links[op.puzzleId] {
      var k :| 0 <= k < |ops| && ops[k] == op;
      AttachedContains(ops, k);
      assert op.puzzleId in db.links;
    }
  }

  lemma CoveredIsNoOp(db: Db, batch: seq<PuzzleUpdateData>)
    requires Consistent(db) && Covered(db, batch)
    ensures BatchEffect(db, batch) == Success(db)
  {
    ConsistentBatchSucceeds(db, batch);
    var ops := Plan(batch, FenLookup(db, batch), SlugLookup(db, batch));
    if ops != [] {
      ApplyOpsAt(db.links, ops);
      var links' := ApplyOps(db.links, ops);
      forall p | p in db.links ensures links'[p] == db.links[p] {
        forall id | id in Attached(ops, p) ensures id in db.links[p] {
          AttachedFrom(ops, p, id);
          var op :| op in ops && op.puzzleId == p && id in op.themeIds;
        }
      }
      assert links' == db.links;
    }
  }

  lemma CoveredStays(db: Db, db': Db, batch: seq<PuzzleUpdateData>)
    requires Covered(db, batch) && Extends(db, db')
    ensures Covered(db', batch)
  {
    SamePlan(db, db', batch);
  }

  /** A run on a consistent store succeeds, extends the store, and leaves every batch covered. */
  lemma {:induction false} BatchesCover(db: Db, batches: seq<seq<PuzzleUpdateData>>)
    requires Consistent(db)
    ensures BatchesEffect(db, batches).Success?
    ensures var db' := BatchesEffect(db, batches).value;
            Consistent(db') && Extends(db, db') && forall k :: 0 <= k < |batches| ==> Covered(db', batches[k])
  {
    if batches != [] {
      var init := batches[..|batches| - 1];
      BatchesCover(db, init);
      var mid := BatchesEffect(db, init).value;
      ConsistentBatchSucceeds(mid, batches[|batches| - 1]);
      CoveredAfterBatch(mid, batches[|batches| - 1]);
      var db' := BatchesEffect(db, batches).value;
      forall k | 0 <= k < |batches| ensures Covered(db', batches[k]) {
        if k < |batches| - 1 {
          assert init[k] == batches[k];
          CoveredStays(mid, db', batches[k]);
        }
      }
    }
  }

  lemma {:induction false} CoveredRunIsNoOp(db: Db, batches: seq<seq<PuzzleUpdateData>>)
    requires Consistent(db)
    requires forall k :: 0 <= k < |batches| ==> Covered(db, batches[k])
    ensures BatchesEffect(db, batches) == Success(db)
  {
    if batches != [] {
      var init := batches[..|batches| - 1];
      assert forall k :: 0 <= k < |init| ==> init[k] == batches[k];
      CoveredRunIsNoOp(db, init);
      CoveredIsNoOp(db, batches[|batches| - 1]);
    }
  }

  /**
   * Connecting is idempotent: on a consistent store, running the same batches again
   * over the result of a run changes nothing.
   */
  lemma ConnectIdempotent(db: Db, batches: seq<seq<PuzzleUpdateData>>)
    requires Consistent(db)
    ensures BatchesEffect(db, batches).Success?
    ensures BatchesEffect(BatchesEffect(db, batches).value, batches) == BatchesEffect(db, batches)
  {
    BatchesCover(db, batches);
    CoveredRunIsNoOp(BatchesEffect(db, batches).value, batches);
  }

  /** The body of the row loop, from the state before it to the state after it. */
  ghost predicate RowStep(row: Row, batch: seq<PuzzleUpdateData>, calls: seq<seq<PuzzleUpdateData>>, db: Db, total: nat,
                          ok: bool, batch': seq<PuzzleUpdateData>, calls': seq<seq<PuzzleUpdateData>>, db': Db, total': nat)
  {
    match Normalize(row)
    case None => ok && batch' == batch && calls' == calls && db' == db && total' == total
    case Some(p) =>
      && (|batch + [p]| < BatchSize ==> ok && batch' == batch + [p] && calls' == calls && db' == db && total' == total)
      && (|batch + [p]| == BatchSize ==>
            && calls' == calls + [batch + [p]]
            && (ok <==> BatchEffect(db, batch + [p]).Success?)
            && (ok ==> db' == BatchEffect(db, batch + [p]).value && batch' == [] && total' == total + BatchSize)
            && (!ok ==> db' == db))
  }

  /** The row loop's invariant after the rows `seen`, for a run that started on store `db0`. */
  ghost predicate Progress(db0: Db, seen: seq<Row>, batch: seq<PuzzleUpdateData>, calls: seq<seq<PuzzleUpdateData>>,
                           db: Db, total: nat)
  {
    && |batch| < BatchSize
    && Flatten(calls) + batch == Accepted(seen)
    && (forall k :: 0 <= k < |calls| ==> |calls[k]| == BatchSize)
    && total == |Flatten(calls)|
    && BatchesEffect(db0, calls) == Success(db)
    && (Consistent(db0) ==> Consistent(db))
  }

  lemma {:induction false} AcceptedStep(rows: seq<Row>, i: nat)
    requires i < |rows|
    ensures Accepted(rows[..i + 1]) == Accepted(rows[..i]) + (if Normalize(rows[i]).Some? then [Normalize(rows[i]).value] else [])
  {
    assert rows[..i + 1][..i] == rows[..i];
  }

  lemma {:induction false} ProgressStep(db0: Db, rows: seq<Row>, i: nat,
                     batch: seq<PuzzleUpdateData>, calls: seq<seq<PuzzleUpdateData>>, db: Db, total: nat,
                     batch': seq<PuzzleUpdateData>, calls': seq<seq<PuzzleUpdateData>>, db': Db, total': nat)
    requires i < |rows|
    requires Progress(db0, rows[..i], batch, calls, db, total)
    requires RowStep(rows[i], batch, calls, db, total, true, batch', calls', db', total')
    ensures Progress(db0, rows[..i + 1], batch', calls', db', total')
  {
    AcceptedStep(rows, i);
    match Normalize(rows[i])
    case None =>
    case Some(p) =>
      if |batch + [p]| == BatchSize {
        var full := batch + [p];
        DropAppended(calls, full);
        assert Flatten(calls') + [] == Accepted(rows[..i + 1]) by {
          FlattenAppend(calls, full);
        }
        assert forall k :: 0 <= k < |calls'| ==> |calls'[k]| == BatchSize by {
          assert forall k :: 0 <= k < |calls| ==> calls'[k] == calls[k];
        }
        if Consistent(db0) {
          ConsistentBatchSucceeds(db, full);
        }
      } else {
        assert Flatten(calls') + batch' == Flatten(calls) + batch + [p];
      }
  }

  /** At the end of the stream with nothing pending, the calls made are the chunks of the accepted records. */
  lemma EndStep(db0: Db, rows: seq<Row>, calls: seq<seq<PuzzleUpdateData>>, db: Db, total: nat)
    requires Progress(db0, rows, [], calls, db, total)
    ensures calls == Chunks(Accepted(rows), BatchSize) && total == |Accepted(rows)|
  {
    ChunksOfFlushed(calls, [], BatchSize);
    assert Flatten(calls) + [] == Flatten(calls);
  }

  /**
   * At the end of the stream the pending records go out as one last call: on success the
   * calls are the chunks of the accepted records and every one of them is counted; on
   * failure the earlier calls' effect stays, and then the store was not consistent.
   */
  lemma FlushStep(db0: Db, rows: seq<Row>, batch: seq<PuzzleUpdateData>, calls: seq<seq<PuzzleUpdateData>>,
                  db: Db, total: nat, ok: bool, calls': seq<seq<PuzzleUpdateData>>, db': Db)
    requires Progress(db0, rows, batch, calls, db, total) && |batch| > 0
    requires calls' == calls + [batch]
    requires ok <==> BatchEffect(db, batch).Success?
    requires db' == if ok then BatchEffect(db, batch).value else db
    ensures Consistent(db0) ==> ok
    ensures ok ==> && calls' == Chunks(Accepted(rows), BatchSize) && total + |batch| == |Accepted(rows)|
                   && BatchesEffect(db0, calls') == Success(db')
    ensures !ok ==> |calls'| >= 1 && BatchesEffect(db0, calls'[..|calls'| - 1]) == Success(db')
                    && BatchesEffect(db0, calls').Failure?
  {
    DropAppended(calls, batch);
    ChunksOfFlushed(calls, batch, BatchSize);
    FlattenAppend(calls, batch);
    if Consistent(db0) {
      ConsistentBatchSucceeds(db, batch);
    }
  }

  /** A failing batch ends the run: the store before it is kept, and the start store was not consistent. */
  lemma FailedStep(db0: Db, seen: seq<Row>, row: Row,
                   batch: seq<PuzzleUpdateData>, calls: seq<seq<PuzzleUpdateData>>, db: Db, total: nat,
                   batch': seq<PuzzleUpdateData>, calls': seq<seq<PuzzleUpdateData>>, db': Db, total': nat)
    requires Progress(db0, seen, batch, calls, db, total)
    requires RowStep(row, batch, calls, db, total, false, batch', calls', db', total')
    ensures |calls'| >= 1 && BatchesEffect(db0, calls'[..|calls'| - 1]) == Success(db')
    ensures BatchesEffect(db0, calls').Failure? && !Consistent(db0)
  {
    var p := Normalize(row).value;
    assert calls'[..|calls'| - 1] == calls;
    if Consistent(db0) {
      ConsistentBatchSucceeds(db, batch + [p]);
    }
  }

  /**
   * The state of the script's `main`: the pending batch, `totalProcessed`, the store,
   * and (for the proofs) the `processBatch` calls and the transactions sent so far.
   */
  class ThemeConnector {
    var puzzleBatch: seq<PuzzleUpdateData>
    var totalProcessed: nat
    var db: Db
    ghost var Calls: seq<seq<PuzzleUpdateData>>
    ghost var Transactions: seq<seq<ConnectOp>>

    constructor (db0: Db)
      ensures puzzleBatch == [] && totalProcessed == 0 && db == db0 && Calls == [] && Transactions == []
    {
      puzzleBatch, totalProcessed, db := [], 0, db0;
      Calls, Transactions := [], [];
    }

    /**
     * `processBatch`: two lookups, the payload loop, and one transaction, sent only when
     * the payload is not empty. On failure (`ok` false) the store is as it was.
     */
    method ProcessBatch(batch: seq<PuzzleUpdateData>) returns (ok: bool)
      modifies this`db, this`Calls, this`Transactions
      ensures Calls == old(Calls) + [batch]
      ensures ok <==> BatchEffect(old(db), batch).Success?
      ensures db == if ok then BatchEffect(old(db), batch).value else old(db)
      ensures var ops := Plan(batch, FenLookup(old(db), batch), SlugLookup(old(db), batch));
              Transactions == old(Transactions) + (if ops == [] then [] else [ops])
    {
      Calls := Calls + [batch];
      var fenToIdMap := FenLookup(db, batch);
      var slugToIdMap := SlugLookup(db, batch);
      var transactionPayload := BuildPayload(batch, fenToIdMap, slugToIdMap);
      ok := true;
      if |transactionPayload| > 0 {
        Transactions := Transactions + [transactionPayload];
        var outcome := Transaction(db, transactionPayload);
        if outcome.Failure? {
          ok := false;
          return;
        }
        db := outcome.value;
      }
    }

    /**
     * The body of the row loop: skip a row without FEN or Themes; otherwise push its
     * record and, once the batch holds `BatchSize` records, process it, count it and reset it.
     */
    method HandleRow(row: Row) returns (ok: bool)
      requires |puzzleBatch| < BatchSize
      modifies this
      ensures ok ==> |puzzleBatch| < BatchSize
      ensures RowStep(row, old(puzzleBatch), old(Calls), old(db), old(totalProcessed),
                      ok, puzzleBatch, Calls, db, totalProcessed)
    {
      ok := true;
      var data := Normalize(row);
      if data.None? {
        return;
      }
      puzzleBatch := puzzleBatch + [data.value];
      if |puzzleBatch| >= BatchSize {
        ok := ProcessBatch(puzzleBatch);
        if !ok {
          return;
        }
        totalProcessed := totalProcessed + |puzzleBatch|;
        puzzleBatch := [];
      }
    }

    /**
     * After the stream: process the records still pending, if any, and count them. The
     * script does not empty its batch here (`main` ends); emptying it only marks every
     * record as sent.
     */
    method FlushRemaining() returns (ok: bool)
      modifies this`db, this`Calls, this`Transactions, this`puzzleBatch, this`totalProcessed
      ensures old(puzzleBatch) == [] ==>
                ok && Calls == old(Calls) && db == old(db) && totalProcessed == old(totalProcessed) && puzzleBatch == []
      ensures old(puzzleBatch) != [] ==>
                && Calls == old(Calls) + [old(puzzleBatch)]
                && (ok <==> BatchEffect(old(db), old(puzzleBatch)).Success?)
                && db == (if ok then BatchEffect(old(db), old(puzzleBatch)).value else old(db))
                && (ok ==> totalProcessed == old(totalProcessed) + |old(puzzleBatch)| && puzzleBatch == [])
    {
      ok := true;
      if |puzzleBatch| > 0 {
        ok := ProcessBatch(puzzleBatch);
        if !ok {
          return;
        }
        totalProcessed := totalProcessed + |puzzleBatch|;
        puzzleBatch := [];
      }
    }

    /**
     * The row loop over the decoded rows. It stops at the first failing batch, with the
     * earlier batches' links kept (which cannot happen on a consistent store); otherwise
     * the accepted records not yet sent are pending and every full chunk has gone out.
     */
    method ConsumeRows(rows: seq<Row>) returns (ok: bool)
      requires puzzleBatch == [] && totalProcessed == 0 && Calls == []
      modifies this
      ensures ok ==> Progress(old(db), rows, puzzleBatch, Calls, db, totalProcessed)
      ensures !ok ==> && |Calls| >= 1 && BatchesEffect(old(db), Calls[..|Calls| - 1]) == Success(db)
                      && BatchesEffect(old(db), Calls).Failure? && !Consistent(old(db))
    {
      ghost var db0 := db;
      ok := true;
      var i := 0;
      while i < |rows|
        invariant 0 <= i <= |rows|
        invariant Progress(db0, rows[..i], puzzleBatch, Calls, db, totalProcessed)
      {
        ghost var batch0, calls0, store0, total0 := puzzleBatch, Calls, db, totalProcessed;
        ok := HandleRow(rows[i]);
        if !ok {
          FailedStep(db0, rows[..i], rows[i], batch0, calls0, store0, total0, puzzleBatch, Calls, db, totalProcessed);
          return;
        }
        ProgressStep(db0, rows, i, batch0, calls0, store0, total0, puzzleBatch, Calls, db, totalProcessed);
        i := i + 1;
      }
      WholePrefix(rows);
    }

    /**
     * A whole run over the decoded rows. A failing batch stops the run (`ok` false) with
     * the earlier batches' links kept; on a consistent store no batch fails. A run that
     * finishes makes one `processBatch` call per chunk of the accepted records, counts
     * every accepted record, and leaves the store as `BatchesEffect` says.
     */
    method Run(rows: seq<Row>) returns (ok: bool)
      requires puzzleBatch == [] && totalProcessed == 0 && Calls == []
      modifies this
      ensures Consistent(old(db)) ==> ok
      ensures ok ==> && Calls == Chunks(Accepted(rows), BatchSize)
                     && totalProcessed == |Accepted(rows)|
                     && BatchesEffect(old(db), Calls) == Success(db)
                     && puzzleBatch == []
      ensures !ok ==> && |Calls| >= 1 && BatchesEffect(old(db), Calls[..|Calls| - 1]) == Success(db)
                      && BatchesEffect(old(db), Calls).Failure?
    {
      ghost var db0 := db;
      ok := ConsumeRows(rows);
      if !ok {
        return;
      }
      ghost var calls0, batch0, store0, total0 := Calls, puzzleBatch, db, totalProcessed;
      ok := FlushRemaining();
      if batch0 != [] {
        FlushStep(db0, rows, batch0, calls0, store0, total0, ok, Calls, db);
      } else {
        EndStep(db0, rows, Calls, db, totalProcessed);
      }
    }
  }
}
