/**
  Keyset pagination of ranked search results, while the table changes in any way between fetches.
 */
module SearchPaging {
  import opened Values
  import opened Sorting

  datatype Cell = Scalar(value: Value) | Vector(coords: seq<real>)

  /** A stored row, its fields in stored order. */
  type Row = seq<(string, Cell)>

  /** The first scalar of the row. (For a row without one the engine falls back on the object
      address, which no theorem here relies on.) */
  function StableKey(row: Row): Value {
    if row == [] then Null
    else if row[0].1.Scalar? && !row[0].1.value.Null? then row[0].1.value
    else StableKey(row[1..])
  }

  /** Position in the ranking: descending score, then ascending stable key. */
  datatype Mark = Mark(score: real, key: Value)

  datatype Scored = Scored(row: Row, score: real) {
    function MarkOf(): Mark { Mark(score, StableKey(row)) }
  }

  /** The tuple comparison `(-score, key) < (-score, key)`. */
  predicate Before(a: Mark, b: Mark) {
    a.score > b.score || (a.score == b.score && a.key != b.key && Leq(a.key, b.key))
  }

  predicate RankLeq(a: Scored, b: Scored) {
    a.MarkOf() == b.MarkOf() || Before(a.MarkOf(), b.MarkOf())
  }

  lemma BeforeOrder(a: Mark, b: Mark, c: Mark)
    ensures !Before(a, a)
    ensures a == b || Before(a, b) || Before(b, a)
    ensures !(Before(a, b) && Before(b, a))
    ensures Before(a, b) && Before(b, c) ==> Before(a, c)
  {
    LeqTotal(a.key, b.key);
    if Leq(a.key, b.key) && Leq(b.key, a.key) {
      LeqAntisymmetric(a.key, b.key);
    }
    if Before(a, b) && Before(b, c) && a.score == c.score {
      LeqTransitive(a.key, b.key, c.key);
      if a.key == c.key {
        LeqAntisymmetric(a.key, b.key);
      }
    }
  }

  lemma RankPreorder()
    ensures TotalPreorder(RankLeq)
  {
    forall a, b ensures RankLeq(a, b) || RankLeq(b, a) {
      BeforeOrder(a.MarkOf(), b.MarkOf(), a.MarkOf());
    }
    forall a, b, c | RankLeq(a, b) && RankLeq(b, c) ensures RankLeq(a, c) {
      BeforeOrder(a.MarkOf(), b.MarkOf(), c.MarkOf());
    }
  }

  // ----- ranking -----

  /** How a search scores the rows of a table: the score of a row may depend on all the others, as the
      document frequencies of BM25 and the normalised or ranked parts of a hybrid score do. */
  type Scoring = seq<Row> -> Row -> Option<real>

  /** Rows that score at all, scored. */
  function Candidates(rows: seq<Row>, score: Row -> Option<real>): seq<Scored> {
    if rows == [] then []
    else
      var rest := Candidates(rows[1..], score);
      match score(rows[0])
      case Some(s) => [Scored(rows[0], s)] + rest
      case None => rest
  }

  function ApplySearch(rows: seq<Row>, score: Scoring): seq<Scored> {
    Sort(Candidates(rows, score(rows)), RankLeq)
  }

  /** Each entry comes strictly before the later ones: sorted, and no mark occurs twice. */
  ghost predicate StrictlyRanked(entries: seq<Scored>) {
    forall i, j :: 0 <= i < j < |entries| ==> Before(entries[i].MarkOf(), entries[j].MarkOf())
  }

  ghost predicate DistinctKeys(rows: seq<Row>) {
    forall i, j :: 0 <= i < j < |rows| ==> StableKey(rows[i]) != StableKey(rows[j])
  }

  lemma {:induction false} CandidatesFrom(rows: seq<Row>, score: Row -> Option<real>)
    ensures forall e :: e in Candidates(rows, score) <==> e.row in rows && score(e.row) == Some(e.score)
    ensures DistinctKeys(rows) ==> forall i, j :: 0 <= i < j < |Candidates(rows, score)| ==>
      StableKey(Candidates(rows, score)[i].row) != StableKey(Candidates(rows, score)[j].row)
  {
    if rows != [] {
      CandidatesFrom(rows[1..], score);
      assert rows == [rows[0]] + rows[1..];
      var rest := Candidates(rows[1..], score);
      if DistinctKeys(rows) {
        forall e | e in rest ensures StableKey(e.row) != StableKey(rows[0]) {
          assert e.row in rows[1..];
        }
      }
    }
  }

  /** Sorting keeps keys distinct. */
  lemma DistinctAfterSort(entries: seq<Scored>)
    requires forall i, j :: 0 <= i < j < |entries| ==> StableKey(entries[i].row) != StableKey(entries[j].row)
    ensures StrictlyRanked(Sort(entries, RankLeq))
  {
    RankPreorder();
    SortCorrect(entries, RankLeq);
    var sorted := Sort(entries, RankLeq);
    forall i, j | 0 <= i < j < |sorted| ensures Before(sorted[i].MarkOf(), sorted[j].MarkOf()) {
      assert RankLeq(sorted[i], sorted[j]);
      if StableKey(sorted[i].row) == StableKey(sorted[j].row) {
        SameKeyTwice(entries, sorted, i, j);
      }
    }
  }

  lemma SameKeyTwice(entries: seq<Scored>, sorted: seq<Scored>, i: nat, j: nat)
    requires multiset(entries) == multiset(sorted)
    requires i < j < |sorted| && StableKey(sorted[i].row) == StableKey(sorted[j].row)
    ensures exists a, b :: 0 <= a < b < |entries| && StableKey(entries[a].row) == StableKey(entries[b].row)
  {
    var x, y := sorted[i], sorted[j];
    assert x in multiset(entries) && y in multiset(entries);
    if x != y {
      assert x in entries && y in entries;
    } else {
      assert sorted == sorted[..j] + [y] + sorted[j + 1..];
      assert x in sorted[..j];
      assert multiset(sorted)[x] >= 2;
      var a :| 0 <= a < |entries| && entries[a] == x;
      assert entries == entries[..a] + [x] + entries[a + 1..];
      assert x in multiset(entries[..a]) || x in multiset(entries[a + 1..]);
    }
  }

  lemma SearchRanked(rows: seq<Row>, score: Scoring)
    requires DistinctKeys(rows)
    ensures StrictlyRanked(ApplySearch(rows, score))
    ensures forall e :: e in ApplySearch(rows, score) <==> e.row in rows && score(rows)(e.row) == Some(e.score)
  {
    var candidates := Candidates(rows, score(rows));
    CandidatesFrom(rows, score(rows));
    DistinctAfterSort(candidates);
    RankPreorder();
    SortCorrect(candidates, RankLeq);
    forall e ensures e in ApplySearch(rows, score) <==> e in candidates {
      assert e in multiset(ApplySearch(rows, score)) <==> e in multiset(candidates);
    }
  }

  // ----- one page -----

  datatype Cursor = Cursor(after: Mark, fingerprint: int)

  datatype Page = Page(entries: seq<Scored>, firstRank: nat, next: Option<Cursor>, total: nat)

  datatype PageError = BadPageSize | ForeignCursor

  /** Index of the first entry strictly past the mark. */
  function SeekPast(ranked: seq<Scored>, after: Mark): (start: nat)
    ensures start <= |ranked|
    ensures forall i :: 0 <= i < start ==> !Before(after, ranked[i].MarkOf())
    ensures start < |ranked| ==> Before(after, ranked[start].MarkOf())
  {
    if ranked == [] || Before(after, ranked[0].MarkOf()) then 0 else 1 + SeekPast(ranked[1..], after)
  }

  function PageStart(ranked: seq<Scored>, cursor: Option<Cursor>): (start: nat)
    ensures start <= |ranked|
  {
    match cursor
    case None => 0
    case Some(c) => SeekPast(ranked, c.after)
  }

  function SearchPage(ranked: seq<Scored>, pageSize: int, cursor: Option<Cursor>, fingerprint: int)
    : Result<Page, PageError>
  {
    if pageSize <= 0 then Err(BadPageSize)
    else if cursor.Some? && cursor.value.fingerprint != fingerprint then Err(ForeignCursor)
    else
      var start := PageStart(ranked, cursor);
      var end := if start + pageSize < |ranked| then start + pageSize else |ranked|;
      var next :=
        if end < |ranked| then Some(Cursor(ranked[end - 1].MarkOf(), fingerprint)) else None;
      Ok(Page(ranked[start..end], start + 1, next, |ranked|))
  }

  // ----- a run of the client against a changing table -----

  /** The pages fetched while the visible table goes through `stores`, one fetch each, until a page
      carries no cursor or the observation ends. */
  function FetchAll(stores: seq<seq<Row>>, score: Scoring, pageSize: nat,
                    cursor: Option<Cursor>, fingerprint: int): (pages: seq<Page>)
    requires pageSize > 0 && (cursor.Some? ==> cursor.value.fingerprint == fingerprint)
  {
    if stores == [] then []
    else
      var page := SearchPage(ApplySearch(stores[0], score), pageSize, cursor, fingerprint).value;
      if page.next.None? then [page]
      else [page] + FetchAll(stores[1..], score, pageSize, page.next, fingerprint)
  }

  function Entries(pages: seq<Page>): seq<Scored> {
    if pages == [] then [] else pages[0].entries + Entries(pages[1..])
  }

  predicate Finished(pages: seq<Page>) {
    pages != [] && pages[|pages| - 1].next.None?
  }

  ghost predicate PastCursor(cursor: Option<Cursor>, e: Scored) {
    cursor.Some? ==> Before(cursor.value.after, e.MarkOf())
  }

  lemma PastFrom(ranked: seq<Scored>, cursor: Option<Cursor>)
    requires StrictlyRanked(ranked)
    ensures forall i :: 0 <= i < |ranked| ==> (PastCursor(cursor, ranked[i]) <==> PageStart(ranked, cursor) <= i)
  {
    var start := PageStart(ranked, cursor);
    forall i | 0 <= i < |ranked| && cursor.Some? ensures PastCursor(cursor, ranked[i]) <==> start <= i {
      if start < i {
        BeforeOrder(cursor.value.after, ranked[start].MarkOf(), ranked[i].MarkOf());
      }
    }
  }

  lemma PastEntry(ranked: seq<Scored>, k: nat)
    requires StrictlyRanked(ranked) && k < |ranked|
    ensures forall i :: 0 <= i < |ranked| ==> (Before(ranked[k].MarkOf(), ranked[i].MarkOf()) <==> k < i)
  {
    forall i | 0 <= i <= k ensures !Before(ranked[k].MarkOf(), ranked[i].MarkOf()) {
      BeforeOrder(ranked[i].MarkOf(), ranked[k].MarkOf(), ranked[k].MarkOf());
    }
  }

  /** The page is the slice of the ranking that starts past the cursor, and its own cursor marks
      the slice's last entry exactly when entries remain. */
  lemma PageIsSlice(ranked: seq<Scored>, pageSize: nat, cursor: Option<Cursor>, fingerprint: int)
    returns (page: Page, start: nat, end: nat)
    requires pageSize > 0 && (cursor.Some? ==> cursor.value.fingerprint == fingerprint)
    ensures SearchPage(ranked, pageSize, cursor, fingerprint) == Ok(page)
    ensures start == PageStart(ranked, cursor) <= end <= |ranked| && end - start <= pageSize
    ensures page.entries == ranked[start..end] && page.firstRank == start + 1
    ensures page.next.None? <==> end == |ranked|
    ensures page.next.Some? ==>
      end == start + pageSize && page.next == Some(Cursor(ranked[end - 1].MarkOf(), fingerprint))
  {
    page := SearchPage(ranked, pageSize, cursor, fingerprint).value;
    start := PageStart(ranked, cursor);
    end := if start + pageSize < |ranked| then start + pageSize else |ranked|;
  }

  lemma SliceRanked(ranked: seq<Scored>, start: nat, end: nat)
    requires StrictlyRanked(ranked) && start <= end <= |ranked|
    ensures StrictlyRanked(ranked[start..end])
  {
    var slice := ranked[start..end];
    forall i, j | 0 <= i < j < |slice| ensures Before(slice[i].MarkOf(), slice[j].MarkOf()) {
      assert slice[i] == ranked[start + i] && slice[j] == ranked[start + j];
    }
  }

  /** Every entry of a page is past the page's cursor. */
  lemma PageInside(ranked: seq<Scored>, pageSize: nat, cursor: Option<Cursor>, fingerprint: int) returns (page: Page)
    requires StrictlyRanked(ranked)
    requires pageSize > 0 && (cursor.Some? ==> cursor.value.fingerprint == fingerprint)
    ensures SearchPage(ranked, pageSize, cursor, fingerprint) == Ok(page)
    ensures StrictlyRanked(page.entries)
    ensures forall e :: e in page.entries ==> e in ranked && PastCursor(cursor, e)
    ensures page.next.Some? ==> page.next.value.fingerprint == fingerprint
    ensures page.next.Some? ==>
      page.entries != [] && page.next.value.after == page.entries[|page.entries| - 1].MarkOf()
  {
    hide SearchPage, PageStart, StrictlyRanked;
    var start, end;
    page, start, end := PageIsSlice(ranked, pageSize, cursor, fingerprint);
    PastFrom(ranked, cursor);
    SliceRanked(ranked, start, end);
    forall e | e in page.entries ensures e in ranked && PastCursor(cursor, e) {
      var i :| 0 <= i < |page.entries| && page.entries[i] == e;
      assert ranked[start + i] == e;
    }
  }

  /** Every ranked entry past the page's cursor is in the page or past the next cursor. */
  lemma PageCovers(ranked: seq<Scored>, pageSize: nat, cursor: Option<Cursor>, fingerprint: int, e: Scored)
    requires StrictlyRanked(ranked)
    requires pageSize > 0 && (cursor.Some? ==> cursor.value.fingerprint == fingerprint)
    requires e in ranked && PastCursor(cursor, e)
    ensures
      var page := SearchPage(ranked, pageSize, cursor, fingerprint).value;
      e in page.entries || (page.next.Some? && PastCursor(page.next, e))
  {
    var page, start, end := PageIsSlice(ranked, pageSize, cursor, fingerprint);
    var i :| 0 <= i < |ranked| && ranked[i] == e;
    PastFrom(ranked, cursor);
    if i < end {
      assert page.entries[i - start] == e;
    } else {
      PastEntry(ranked, end - 1);
    }
  }

  lemma JoinRanked(xs: seq<Scored>, ys: seq<Scored>)
    requires xs != [] && StrictlyRanked(xs) && StrictlyRanked(ys)
    requires forall y :: y in ys ==> Before(xs[|xs| - 1].MarkOf(), y.MarkOf())
    ensures StrictlyRanked(xs + ys)
  {
    forall i, j | 0 <= i < j < |xs + ys| ensures Before((xs + ys)[i].MarkOf(), (xs + ys)[j].MarkOf()) {
      if i < |xs| <= j {
        BeforeOrder(xs[i].MarkOf(), xs[|xs| - 1].MarkOf(), ys[j - |xs|].MarkOf());
      }
    }
  }

  lemma FetchAllSteps(stores: seq<seq<Row>>, score: Scoring, pageSize: nat,
                      cursor: Option<Cursor>, fingerprint: int)
    requires stores != [] && pageSize > 0 && (cursor.Some? ==> cursor.value.fingerprint == fingerprint)
    ensures
      var page := SearchPage(ApplySearch(stores[0], score), pageSize, cursor, fingerprint).value;
      var all := FetchAll(stores, score, pageSize, cursor, fingerprint);
      if page.next.None? then
        all == [page] && Entries(all) == page.entries && Finished(all)
      else
        var later := FetchAll(stores[1..], score, pageSize, page.next, fingerprint);
        all == [page] + later && Entries(all) == page.entries + Entries(later) && (Finished(all) <==> Finished(later))
  {
    var page := SearchPage(ApplySearch(stores[0], score), pageSize, cursor, fingerprint).value;
    if page.next.Some? {
      var later := FetchAll(stores[1..], score, pageSize, page.next, fingerprint);
      assert ([page] + later)[1..] == later;
    }
  }

  /** What a run returns was in the table, with that score, at one of its fetches. */
  lemma {:induction false} PagesReturnRows(stores: seq<seq<Row>>, score: Scoring, pageSize: nat,
                                           cursor: Option<Cursor>, fingerprint: int)
    requires pageSize > 0 && (cursor.Some? ==> cursor.value.fingerprint == fingerprint)
    requires forall s :: s in stores ==> DistinctKeys(s)
    ensures forall e :: e in Entries(FetchAll(stores, score, pageSize, cursor, fingerprint)) ==>
      exists s :: s in stores && e.row in s && score(s)(e.row) == Some(e.score)
  {
    if stores != [] {
      hide SearchPage, ApplySearch, StableKey, Before, Finished, PageStart, DistinctKeys, StrictlyRanked;
      SearchRanked(stores[0], score);
      FetchAllSteps(stores, score, pageSize, cursor, fingerprint);
      var ranked := ApplySearch(stores[0], score);
      var page := PageInside(ranked, pageSize, cursor, fingerprint);
      if page.next.Some? {
        PagesReturnRows(stores[1..], score, pageSize, page.next, fingerprint);
        assert forall s :: s in stores[1..] ==> s in stores;
      }
    }
  }

  /** Whatever happens to the table between fetches, the entries returned over the whole run are
      strictly ranked: no (score, stable key) pair is returned twice. */
  lemma {:induction false} PagesNeverRepeat(stores: seq<seq<Row>>, score: Scoring, pageSize: nat,
                                            cursor: Option<Cursor>, fingerprint: int)
    requires pageSize > 0 && (cursor.Some? ==> cursor.value.fingerprint == fingerprint)
    requires forall s :: s in stores ==> DistinctKeys(s)
    ensures StrictlyRanked(Entries(FetchAll(stores, score, pageSize, cursor, fingerprint)))
    ensures forall e :: e in Entries(FetchAll(stores, score, pageSize, cursor, fingerprint)) ==> PastCursor(cursor, e)
  {
    if stores != [] {
      var ranked := ApplySearch(stores[0], score);
      SearchRanked(stores[0], score);
      var page := PageInside(ranked, pageSize, cursor, fingerprint);
      FetchAllSteps(stores, score, pageSize, cursor, fingerprint);
      if page.next.Some? {
        var later := Entries(FetchAll(stores[1..], score, pageSize, page.next, fingerprint));
        PagesNeverRepeat(stores[1..], score, pageSize, page.next, fingerprint);
        PageThenLater(cursor, page, later);
      }
    }
  }

  lemma PageThenLater(cursor: Option<Cursor>, page: Page, later: seq<Scored>)
    requires page.next.Some? && page.entries != []
    requires page.next.value.after == page.entries[|page.entries| - 1].MarkOf()
    requires StrictlyRanked(page.entries) && StrictlyRanked(later)
    requires forall e :: e in page.entries ==> PastCursor(cursor, e)
    requires forall e :: e in later ==> PastCursor(page.next, e)
    ensures StrictlyRanked(page.entries + later)
    ensures forall e :: e in page.entries + later ==> PastCursor(cursor, e)
  {
    JoinRanked(page.entries, later);
    var last := page.entries[|page.entries| - 1];
    assert last in page.entries;
    forall e | e in later && cursor.Some? ensures PastCursor(cursor, e) {
      BeforeOrder(cursor.value.after, last.MarkOf(), e.MarkOf());
    }
  }

  // ----- which rows a run misses -----

  /** The row is in the table and scored there. */
  predicate Ranked(rows: seq<Row>, score: Scoring, row: Row) {
    row in rows && score(rows)(row).Some?
  }

  function EntryOf(rows: seq<Row>, score: Scoring, row: Row): Scored
    requires Ranked(rows, score, row)
  {
    Scored(row, score(rows)(row).value)
  }

  /** From the one table to the other the row moves past an entry that was ranked ahead of it. */
  ghost predicate Overtakes(s: seq<Row>, t: seq<Row>, score: Scoring, row: Row)
    requires Ranked(s, score, row) && Ranked(t, score, row)
  {
    exists x :: x in ApplySearch(s, score)
      && Before(x.MarkOf(), EntryOf(s, score, row).MarkOf()) && !Before(x.MarkOf(), EntryOf(t, score, row).MarkOf())
  }

  /** The row is ranked at every fetch and from one to the next overtakes nothing. */
  ghost predicate NeverOvertakes(stores: seq<seq<Row>>, score: Scoring, row: Row) {
    && (forall s :: s in stores ==> Ranked(s, score, row))
    && (forall i :: 0 < i < |stores| ==> !Overtakes(stores[i - 1], stores[i], score, row))
  }

  predicate Returned(entries: seq<Scored>, row: Row) {
    exists i :: 0 <= i < |entries| && entries[i].row == row
  }

  lemma NeverOvertakesLater(stores: seq<seq<Row>>, score: Scoring, row: Row)
    requires NeverOvertakes(stores, score, row) && stores != []
    ensures NeverOvertakes(stores[1..], score, row)
  {
    assert forall s :: s in stores[1..] ==> s in stores;
    forall i | 0 < i < |stores[1..]| ensures !Overtakes(stores[1..][i - 1], stores[1..][i], score, row) {
      assert stores[1..][i - 1] == stores[i] && stores[1..][i] == stores[i + 1];
    }
  }

  /** A row that is ranked at every fetch of a finished run, and never overtakes an entry, is returned. */
  lemma {:induction false} PagesMissNothing(stores: seq<seq<Row>>, score: Scoring, pageSize: nat,
                                            cursor: Option<Cursor>, fingerprint: int, row: Row)
    requires pageSize > 0 && (cursor.Some? ==> cursor.value.fingerprint == fingerprint)
    requires forall s :: s in stores ==> DistinctKeys(s)
    requires NeverOvertakes(stores, score, row)
    requires stores != [] ==> PastCursor(cursor, EntryOf(stores[0], score, row))
    requires Finished(FetchAll(stores, score, pageSize, cursor, fingerprint))
    ensures Returned(Entries(FetchAll(stores, score, pageSize, cursor, fingerprint)), row)
  {
    hide SearchPage, ApplySearch, Before, StableKey, DistinctKeys, PageStart, Finished, FetchAll;
    assert stores != [] by {
      NoFetchNoEnd(score, pageSize, cursor, fingerprint);
    }
    var ranked, e := ApplySearch(stores[0], score), EntryOf(stores[0], score, row);
    SearchRanked(stores[0], score);
    var page := PageInside(ranked, pageSize, cursor, fingerprint);
    FetchAllSteps(stores, score, pageSize, cursor, fingerprint);
    assert e in ranked;
    PageCovers(ranked, pageSize, cursor, fingerprint, e);
    var out := Entries(FetchAll(stores, score, pageSize, cursor, fingerprint));
    if e in page.entries {
      var i :| 0 <= i < |page.entries| && page.entries[i] == e;
      assert out[i] == e;
    } else {
      var rest := stores[1..];
      var later := Entries(FetchAll(rest, score, pageSize, page.next, fingerprint));
      NeverOvertakesLater(stores, score, row);
      assert forall s :: s in rest ==> s in stores;
      var last := page.entries[|page.entries| - 1];
      assert last in page.entries;
      assert rest != [] ==> !Overtakes(stores[0], stores[1], score, row);
      PagesMissNothing(rest, score, pageSize, page.next, fingerprint, row);
      var i :| 0 <= i < |later| && later[i].row == row;
      assert out[|page.entries| + i] == later[i];
    }
  }

  lemma NoFetchNoEnd(score: Scoring, pageSize: nat, cursor: Option<Cursor>, fingerprint: int)
    requires pageSize > 0 && (cursor.Some? ==> cursor.value.fingerprint == fingerprint)
    ensures !Finished(FetchAll([], score, pageSize, cursor, fingerprint))
  {
  }

  /** The row is in every table, always with the one score. */
  ghost predicate KeepsItsScore(stores: seq<seq<Row>>, score: Scoring, e: Scored) {
    forall s :: s in stores ==> e.row in s && score(s)(e.row) == Some(e.score)
  }

  /** A row whose own score stays overtakes nothing, whatever the scores of the others do. */
  lemma FixedScoresOvertakeNothing(stores: seq<seq<Row>>, score: Scoring, e: Scored)
    requires KeepsItsScore(stores, score, e)
    ensures NeverOvertakes(stores, score, e.row)
    ensures stores != [] ==> EntryOf(stores[0], score, e.row) == e
  {
  }

  // ----- which rewritten scores return a key twice -----

  /** The row closes the ranking of its table, so the page it is returned on is the last one. */
  ghost predicate Closes(rows: seq<Row>, score: Scoring, row: Row) {
    var ranked := ApplySearch(rows, score);
    ranked != [] && ranked[|ranked| - 1].row == row
  }

  /** From the one table to the other no key drops to a lower score, except one that closes the ranking. */
  ghost predicate NoScoreDrops(s: seq<Row>, t: seq<Row>, score: Scoring) {
    forall a, b :: Ranked(s, score, a) && Ranked(t, score, b) && StableKey(a) == StableKey(b) && !Closes(s, score, a)
      ==> score(s)(a).value <= score(t)(b).value
  }

  /** Between a fetch and any later one, scores may rise, appear and disappear, but not drop. */
  ghost predicate ScoresNeverDrop(stores: seq<seq<Row>>, score: Scoring) {
    forall i, j :: 0 <= i < j < |stores| ==> NoScoreDrops(stores[i], stores[j], score)
  }

  ghost predicate NoKeyTwice(entries: seq<Scored>) {
    forall i, j :: 0 <= i < j < |entries| ==> StableKey(entries[i].row) != StableKey(entries[j].row)
  }

  /** Two entries of a strict ranking with one key: the later has the lower score. */
  lemma SameKeyDrops(entries: seq<Scored>, i: nat, j: nat)
    requires StrictlyRanked(entries) && i < j < |entries| && StableKey(entries[i].row) == StableKey(entries[j].row)
    ensures entries[i].score > entries[j].score
  {
    assert Before(entries[i].MarkOf(), entries[j].MarkOf());
  }

  /** A page with a cursor does not hold the last of the ranking. */
  lemma PageStopsShort(rows: seq<Row>, score: Scoring, pageSize: nat, cursor: Option<Cursor>, fingerprint: int,
                       e: Scored)
    requires pageSize > 0 && (cursor.Some? ==> cursor.value.fingerprint == fingerprint)
    requires DistinctKeys(rows)
    requires
      var page := SearchPage(ApplySearch(rows, score), pageSize, cursor, fingerprint).value;
      e in page.entries && page.next.Some?
    ensures !Closes(rows, score, e.row)
  {
    hide SearchPage, ApplySearch, Before, StableKey, PageStart;
    var ranked := ApplySearch(rows, score);
    SearchRanked(rows, score);
    var page, start, end := PageIsSlice(ranked, pageSize, cursor, fingerprint);
    var k :| 0 <= k < |page.entries| && page.entries[k] == e;
    var last := ranked[|ranked| - 1];
    assert ranked[start + k] == e && start + k < end < |ranked|;
    assert e in ranked && last in ranked;
    BeforeOrder(e.MarkOf(), last.MarkOf(), e.MarkOf());
  }

  lemma SameKeySameRow(rows: seq<Row>, a: Row, b: Row)
    requires DistinctKeys(rows) && a in rows && b in rows && StableKey(a) == StableKey(b)
    ensures a == b
  {
    var i :| 0 <= i < |rows| && rows[i] == a;
    var j :| 0 <= j < |rows| && rows[j] == b;
  }

  lemma LaterScoresAreNoLower(stores: seq<seq<Row>>, score: Scoring, e: Scored, f: Scored)
    requires ScoresNeverDrop(stores, score) && stores != [] && StableKey(e.row) == StableKey(f.row)
    requires e.row in stores[0] && score(stores[0])(e.row) == Some(e.score) && !Closes(stores[0], score, e.row)
    requires exists s :: s in stores[1..] && f.row in s && score(s)(f.row) == Some(f.score)
    ensures e.score <= f.score
  {
    var s :| s in stores[1..] && f.row in s && score(s)(f.row) == Some(f.score);
    var k :| 0 <= k < |stores[1..]| && stores[1..][k] == s;
    assert NoScoreDrops(stores[0], stores[k + 1], score);
  }

  lemma ScoresNeverDropLater(stores: seq<seq<Row>>, score: Scoring)
    requires ScoresNeverDrop(stores, score) && stores != []
    ensures ScoresNeverDrop(stores[1..], score)
  {
    forall i, j | 0 <= i < j < |stores[1..]| ensures NoScoreDrops(stores[1..][i], stores[1..][j], score) {
      assert NoScoreDrops(stores[i + 1], stores[j + 1], score);
    }
  }

  /** No key is returned twice, whatever the page size, if no score drops between two fetches. */
  lemma {:induction false} KeysNeverRepeat(stores: seq<seq<Row>>, score: Scoring, pageSize: nat,
                                           cursor: Option<Cursor>, fingerprint: int, i: nat, j: nat)
    requires pageSize > 0 && (cursor.Some? ==> cursor.value.fingerprint == fingerprint)
    requires forall s :: s in stores ==> DistinctKeys(s)
    requires ScoresNeverDrop(stores, score)
    requires i < j < |Entries(FetchAll(stores, score, pageSize, cursor, fingerprint))|
    ensures
      var out := Entries(FetchAll(stores, score, pageSize, cursor, fingerprint));
      StableKey(out[i].row) != StableKey(out[j].row)
    decreases |stores|
  {
    hide SearchPage, ApplySearch, NoScoreDrops, DistinctKeys, Before, StableKey;
    var out := Entries(FetchAll(stores, score, pageSize, cursor, fingerprint));
    SearchRanked(stores[0], score);
    var page := PageInside(ApplySearch(stores[0], score), pageSize, cursor, fingerprint);
    FetchAllSteps(stores, score, pageSize, cursor, fingerprint);
    PagesNeverRepeat(stores, score, pageSize, cursor, fingerprint);
    var n := |page.entries|;
    if i >= n {
      assert forall s :: s in stores[1..] ==> s in stores;
      ScoresNeverDropLater(stores, score);
      KeysNeverRepeat(stores[1..], score, pageSize, page.next, fingerprint, i - n, j - n);
    } else if StableKey(out[i].row) == StableKey(out[j].row) {
      SameKeyDrops(out, i, j);
      assert out[i] in page.entries;
      if j < n {
        assert out[j] in page.entries;
        SameKeySameRow(stores[0], out[i].row, out[j].row);
      } else {
        PageStopsShort(stores[0], score, pageSize, cursor, fingerprint, out[i]);
        var later := Entries(FetchAll(stores[1..], score, pageSize, page.next, fingerprint));
        assert out[j] == later[j - n] && out[j] in later;
        PagesReturnRows(stores[1..], score, pageSize, page.next, fingerprint);
        LaterScoresAreNoLower(stores, score, out[i], out[j]);
      }
    }
  }

  // ----- a drop is returned twice by some schedule -----

  function Repeat<T>(x: T, n: nat): (xs: seq<T>)
    ensures |xs| == n && forall i :: 0 <= i < n ==> xs[i] == x
  {
    seq(n, _ => x)
  }

  lemma RepeatFirst<T>(x: T, n: nat, rest: seq<T>)
    requires n > 0
    ensures (Repeat(x, n) + rest)[0] == x && (Repeat(x, n) + rest)[1..] == Repeat(x, n - 1) + rest
  {
  }

  /** One-row pages of an unchanged table, up to entry `k`, not the last: then the run goes on. */
  lemma {:induction false} WalkTo(rows: seq<Row>, score: Scoring, cursor: Option<Cursor>, fingerprint: int,
                                  at: nat, k: nat, rest: seq<seq<Row>>)
    requires StrictlyRanked(ApplySearch(rows, score)) && at <= k < |ApplySearch(rows, score)| - 1
    requires PageStart(ApplySearch(rows, score), cursor) == at && (cursor.Some? ==> cursor.value.fingerprint == fingerprint)
    ensures
      var ranked := ApplySearch(rows, score);
      var pages := FetchAll(Repeat(rows, k - at + 1) + rest, score, 1, cursor, fingerprint);
      var later := FetchAll(rest, score, 1, Some(Cursor(ranked[k].MarkOf(), fingerprint)), fingerprint);
      Entries(pages) == ranked[at..k + 1] + Entries(later) && (Finished(pages) <==> Finished(later))
    decreases k - at
  {
    hide ApplySearch, PageStart, SearchPage, FetchAll, StrictlyRanked, Finished;
    var ranked := ApplySearch(rows, score);
    var stores := Repeat(rows, k - at + 1) + rest;
    RepeatFirst(rows, k - at + 1, rest);
    FetchAllSteps(stores, score, 1, cursor, fingerprint);
    var page, start, end := PageIsSlice(ranked, 1, cursor, fingerprint);
    ResumeAt(ranked, at + 1, fingerprint);
    if at < k {
      WalkTo(rows, score, page.next, fingerprint, at + 1, k, rest);
      assert ranked[at..k + 1] == ranked[at..at + 1] + ranked[at + 1..k + 1];
    } else {
      assert Repeat(rows, 0) + rest == rest;
    }
  }

  /** Enough one-row pages of an unchanged table finish the run. */
  lemma {:induction false} WalkThrough(rows: seq<Row>, score: Scoring, cursor: Option<Cursor>, fingerprint: int,
                                       at: nat, n: nat)
    requires StrictlyRanked(ApplySearch(rows, score)) && at <= |ApplySearch(rows, score)| < at + n
    requires PageStart(ApplySearch(rows, score), cursor) == at && (cursor.Some? ==> cursor.value.fingerprint == fingerprint)
    ensures Finished(FetchAll(Repeat(rows, n), score, 1, cursor, fingerprint))
    decreases n
  {
    hide ApplySearch, PageStart, SearchPage, FetchAll, StrictlyRanked;
    var ranked := ApplySearch(rows, score);
    FetchAllSteps(Repeat(rows, n), score, 1, cursor, fingerprint);
    assert Repeat(rows, n)[1..] == Repeat(rows, n - 1);
    var page, start, end := PageIsSlice(ranked, 1, cursor, fingerprint);
    if page.next.Some? {
      ResumeAt(ranked, at + 1, fingerprint);
      WalkThrough(rows, score, page.next, fingerprint, at + 1, n - 1);
    }
  }

  /** A table `first` that gives way to a table `second` after some fetches. */
  function Schedule(first: seq<Row>, m: nat, second: seq<Row>, n: nat): seq<seq<Row>> {
    Repeat(first, m) + Repeat(second, n)
  }

  /** A key that drops, and does not close its ranking, is returned under both scores when the table
      changes right after its first return. */
  lemma DroppedScoreReturnsTwice(first: seq<Row>, second: seq<Row>, score: Scoring, fingerprint: int, a: Row, b: Row)
    returns (m: nat, n: nat)
    requires DistinctKeys(first) && DistinctKeys(second) && StableKey(a) == StableKey(b)
    requires Ranked(first, score, a) && Ranked(second, score, b) && !Closes(first, score, a)
    requires score(second)(b).value < score(first)(a).value
    ensures !NoKeyTwice(Entries(FetchAll(Schedule(first, m, second, n), score, 1, None, fingerprint)))
  {
    hide ApplySearch, FetchAll, Before, StableKey, StrictlyRanked;
    var ranked, after := ApplySearch(first, score), ApplySearch(second, score);
    SearchRanked(first, score);
    SearchRanked(second, score);
    var x, y := EntryOf(first, score, a), EntryOf(second, score, b);
    assert x in ranked;
    var k :| 0 <= k < |ranked| && ranked[k] == x;
    var cursor := Some(Cursor(x.MarkOf(), fingerprint));
    m, n := k + 1, |after| + 1;
    WalkTo(first, score, None, fingerprint, 0, k, Repeat(second, n));
    WalkThrough(second, score, cursor, fingerprint, PageStart(after, cursor), n);
    PastTheDrop(x, y, fingerprint);
    StillTableMissesNothing(second, n, score, 1, cursor, fingerprint, b);
    var later := Entries(FetchAll(Repeat(second, n), score, 1, cursor, fingerprint));
    var j :| 0 <= j < |later| && later[j].row == b;
    var out := ranked[0..k + 1] + later;
    assert out[k] == x && out[k + 1 + j].row == b;
  }

  lemma StillTableMissesNothing(rows: seq<Row>, n: nat, score: Scoring, pageSize: nat, cursor: Option<Cursor>, fingerprint: int,
                                row: Row)
    requires pageSize > 0 && (cursor.Some? ==> cursor.value.fingerprint == fingerprint)
    requires DistinctKeys(rows) && Ranked(rows, score, row) && PastCursor(cursor, EntryOf(rows, score, row))
    requires Finished(FetchAll(Repeat(rows, n), score, pageSize, cursor, fingerprint))
    ensures Returned(Entries(FetchAll(Repeat(rows, n), score, pageSize, cursor, fingerprint)), row)
  {
    FixedScoresOvertakeNothing(Repeat(rows, n), score, EntryOf(rows, score, row));
    PagesMissNothing(Repeat(rows, n), score, pageSize, cursor, fingerprint, row);
  }

  lemma PastTheDrop(x: Scored, y: Scored, fingerprint: int)
    requires y.score < x.score
    ensures PastCursor(Some(Cursor(x.MarkOf(), fingerprint)), y)
  {
  }

  /** The condition is exact: two tables can follow each other between the fetches of a run without
      a key ever being returned twice, at any time and for any page size, if and only if no key drops
      from the first to the second, except one that closes the first ranking. */
  lemma RepeatsExactlyWhenAScoreDrops(first: seq<Row>, second: seq<Row>, score: Scoring, fingerprint: int)
    requires DistinctKeys(first) && DistinctKeys(second)
    ensures NoScoreDrops(first, second, score) <==>
      forall m: nat, n: nat, pageSize: nat :: pageSize > 0 ==>
        NoKeyTwice(Entries(FetchAll(Schedule(first, m, second, n), score, pageSize, None, fingerprint)))
  {
    if NoScoreDrops(first, second, score) {
      forall m: nat, n: nat, pageSize: nat | pageSize > 0
        ensures NoKeyTwice(Entries(FetchAll(Schedule(first, m, second, n), score, pageSize, None, fingerprint)))
      {
        var stores := Schedule(first, m, second, n);
        ScheduleNeverDrops(first, m, second, n, score);
        var out := Entries(FetchAll(stores, score, pageSize, None, fingerprint));
        forall i, j | 0 <= i < j < |out| ensures StableKey(out[i].row) != StableKey(out[j].row) {
          KeysNeverRepeat(stores, score, pageSize, None, fingerprint, i, j);
        }
      }
    } else {
      var a, b :| Ranked(first, score, a) && Ranked(second, score, b) && StableKey(a) == StableKey(b)
        && !Closes(first, score, a) && score(second)(b).value < score(first)(a).value;
      var m, n := DroppedScoreReturnsTwice(first, second, score, fingerprint, a, b);
    }
  }

  lemma ScheduleNeverDrops(first: seq<Row>, m: nat, second: seq<Row>, n: nat, score: Scoring)
    requires DistinctKeys(first) && DistinctKeys(second) && NoScoreDrops(first, second, score)
    ensures ScoresNeverDrop(Schedule(first, m, second, n), score)
    ensures forall s :: s in Schedule(first, m, second, n) ==> DistinctKeys(s)
  {
    SameTableNeverDrops(first, score);
    SameTableNeverDrops(second, score);
  }

  lemma SameTableNeverDrops(rows: seq<Row>, score: Scoring)
    requires DistinctKeys(rows)
    ensures NoScoreDrops(rows, rows, score)
  {
    forall a, b | a in rows && b in rows && StableKey(a) == StableKey(b) ensures a == b {
      SameKeySameRow(rows, a, b);
    }
  }

  // ----- an overtaking row is missed by some schedule -----

  /** A row that overtakes an entry is missed when the table changes right after that entry was returned. */
  lemma OvertakingRowIsMissed(first: seq<Row>, second: seq<Row>, score: Scoring, fingerprint: int, row: Row)
    returns (m: nat, n: nat)
    requires DistinctKeys(first) && DistinctKeys(second) && Ranked(first, score, row) && Ranked(second, score, row)
    requires Overtakes(first, second, score, row)
    ensures Finished(FetchAll(Schedule(first, m, second, n), score, 1, None, fingerprint))
    ensures !Returned(Entries(FetchAll(Schedule(first, m, second, n), score, 1, None, fingerprint)), row)
  {
    hide ApplySearch, FetchAll, Before, StableKey, StrictlyRanked, Finished, DistinctKeys;
    var ranked, after := ApplySearch(first, score), ApplySearch(second, score);
    SearchRanked(first, score);
    SearchRanked(second, score);
    var was, now := EntryOf(first, score, row), EntryOf(second, score, row);
    var x :| x in ranked && Before(x.MarkOf(), was.MarkOf()) && !Before(x.MarkOf(), now.MarkOf());
    var k :| 0 <= k < |ranked| && ranked[k] == x;
    assert was in ranked;
    var r :| 0 <= r < |ranked| && ranked[r] == was;
    PastEntry(ranked, k);
    var cursor := Some(Cursor(x.MarkOf(), fingerprint));
    m, n := k + 1, |after| + 1;
    var rest := Repeat(second, n);
    WalkTo(first, score, None, fingerprint, 0, k, rest);
    WalkThrough(second, score, cursor, fingerprint, PageStart(after, cursor), n);
    PagesNeverRepeat(rest, score, 1, cursor, fingerprint);
    PagesReturnRows(rest, score, 1, cursor, fingerprint);
    var later := Entries(FetchAll(rest, score, 1, cursor, fingerprint));
    var out := ranked[0..k + 1] + later;
    forall i | 0 <= i < |out| ensures out[i].row != row {
      if i <= k {
        assert out[i] == ranked[i] && ranked[i] in ranked;
        EarlierIsOther(first, score, i, r);
      } else {
        assert out[i] == later[i - k - 1] && out[i] in later;
      }
    }
  }

  lemma EarlierIsOther(rows: seq<Row>, score: Scoring, i: nat, r: nat)
    requires DistinctKeys(rows) && i < r < |ApplySearch(rows, score)|
    ensures ApplySearch(rows, score)[i].row != ApplySearch(rows, score)[r].row
  {
    hide ApplySearch, DistinctKeys;
    var ranked := ApplySearch(rows, score);
    SearchRanked(rows, score);
    assert ranked[i] in ranked && ranked[r] in ranked;
    BeforeOrder(ranked[i].MarkOf(), ranked[r].MarkOf(), ranked[i].MarkOf());
  }

  /** The condition is exact: for a row ranked in both tables, every finished run over the one and then
      the other, changing at any time and for any page size, returns the row if and only if it overtakes
      no entry. */
  lemma ReturnedExactlyWithoutOvertaking(first: seq<Row>, second: seq<Row>, score: Scoring, fingerprint: int, row: Row)
    requires DistinctKeys(first) && DistinctKeys(second) && Ranked(first, score, row) && Ranked(second, score, row)
    ensures !Overtakes(first, second, score, row) <==>
      forall m: nat, n: nat, pageSize: nat :: pageSize > 0 ==>
        var pages := FetchAll(Schedule(first, m, second, n), score, pageSize, None, fingerprint);
        Finished(pages) ==> Returned(Entries(pages), row)
  {
    hide FetchAll, Finished, Returned, Overtakes;
    if !Overtakes(first, second, score, row) {
      forall m: nat, n: nat, pageSize: nat | pageSize > 0 ensures
        var pages := FetchAll(Schedule(first, m, second, n), score, pageSize, None, fingerprint);
        Finished(pages) ==> Returned(Entries(pages), row)
      {
        var stores := Schedule(first, m, second, n);
        if Finished(FetchAll(stores, score, pageSize, None, fingerprint)) {
          ScheduleNeverOvertakes(first, m, second, n, score, row);
          PagesMissNothing(stores, score, pageSize, None, fingerprint, row);
        }
      }
    } else {
      var m, n := OvertakingRowIsMissed(first, second, score, fingerprint, row);
    }
  }

  lemma ScheduleNeverOvertakes(first: seq<Row>, m: nat, second: seq<Row>, n: nat, score: Scoring, row: Row)
    requires Ranked(first, score, row) && Ranked(second, score, row) && !Overtakes(first, second, score, row)
    ensures NeverOvertakes(Schedule(first, m, second, n), score, row)
  {
    hide Ranked;
    assert !Overtakes(first, first, score, row) && !Overtakes(second, second, score, row);
    var stores := Schedule(first, m, second, n);
    forall i | 0 <= i < |stores| ensures stores[i] == if i < m then first else second {
    }
  }

  /** Paging under concurrent writes, for scores that may depend on the whole table: over any sequence of
      tables no stable key is returned twice as long as no score drops, and by the time the cursor is empty
      every row that overtakes nothing has been returned; a row whose own score stays, exactly once. */
  lemma PagingUnderConcurrentWrites(stores: seq<seq<Row>>, score: Scoring, pageSize: nat, fingerprint: int)
    requires pageSize > 0
    requires forall s :: s in stores ==> DistinctKeys(s)
    ensures
      var pages := FetchAll(stores, score, pageSize, None, fingerprint);
      var out := Entries(pages);
      && (ScoresNeverDrop(stores, score) ==> NoKeyTwice(out))
      && (Finished(pages) ==>
        && (forall row :: NeverOvertakes(stores, score, row) ==> Returned(out, row))
        && forall e :: KeepsItsScore(stores, score, e) ==>
             exists i :: 0 <= i < |out| && out[i] == e && forall j :: 0 <= j < |out| && j != i ==> out[j].row != e.row)
  {
    hide FetchAll, DistinctKeys, NoScoreDrops, Before, NeverOvertakes, Finished, Entries;
    var pages := FetchAll(stores, score, pageSize, None, fingerprint);
    var out := Entries(pages);
    PagesNeverRepeat(stores, score, pageSize, None, fingerprint);
    if ScoresNeverDrop(stores, score) {
      forall i, j | 0 <= i < j < |out| ensures StableKey(out[i].row) != StableKey(out[j].row) {
        KeysNeverRepeat(stores, score, pageSize, None, fingerprint, i, j);
      }
    }
    if Finished(pages) {
      forall row | NeverOvertakes(stores, score, row) ensures Returned(out, row) {
        PagesMissNothing(stores, score, pageSize, None, fingerprint, row);
      }
      forall e | KeepsItsScore(stores, score, e)
        ensures exists i :: 0 <= i < |out| && out[i] == e && forall j :: 0 <= j < |out| && j != i ==> out[j].row != e.row
      {
        FixedScoresOvertakeNothing(stores, score, e);
        PagesReturnRows(stores, score, pageSize, None, fingerprint);
        var i :| 0 <= i < |out| && out[i].row == e.row;
        FixedScoreOnce(stores, score, out, e);
      }
    }
  }

  /** The entries of a row whose score stays are all the same, so there is at most one. */
  lemma FixedScoreOnce(stores: seq<seq<Row>>, score: Scoring, out: seq<Scored>, e: Scored)
    requires StrictlyRanked(out)
    requires KeepsItsScore(stores, score, e)
    requires forall x :: x in out ==> exists s :: s in stores && x.row in s && score(s)(x.row) == Some(x.score)
    ensures forall i :: 0 <= i < |out| && out[i].row == e.row ==>
      out[i] == e && forall j :: 0 <= j < |out| && j != i ==> out[j].row != e.row
  {
    hide Before;
    forall i | 0 <= i < |out| && out[i].row == e.row ensures out[i] == e {
      assert out[i] in out;
    }
    BeforeOrder(e.MarkOf(), e.MarkOf(), e.MarkOf());
  }

  // ----- the client loop over an unchanged table -----

  function Count(first: nat, n: nat): (r: seq<nat>)
    ensures |r| == n && forall i :: 0 <= i < n ==> r[i] == first + i
  {
    seq(n, i requires 0 <= i => first + i)
  }

  /** The `__rank__` values of the rows returned, in order. */
  function Ranks(pages: seq<Page>): seq<nat> {
    if pages == [] then [] else Count(pages[0].firstRank, |pages[0].entries|) + Ranks(pages[1..])
  }

  lemma {:induction false} AppendPage(pages: seq<Page>, page: Page)
    ensures Entries(pages + [page]) == Entries(pages) + page.entries
    ensures Ranks(pages + [page]) == Ranks(pages) + Count(page.firstRank, |page.entries|)
  {
    if pages == [] {
      assert [page][1..] == [] && pages + [page] == [page];
    } else {
      assert (pages + [page])[1..] == pages[1..] + [page];
      AppendPage(pages[1..], page);
    }
  }

  lemma ResumeAt(ranked: seq<Scored>, at: nat, fingerprint: int)
    requires StrictlyRanked(ranked) && 0 < at <= |ranked|
    ensures PageStart(ranked, Some(Cursor(ranked[at - 1].MarkOf(), fingerprint))) == at
  {
    var cursor := Some(Cursor(ranked[at - 1].MarkOf(), fingerprint));
    var start := PageStart(ranked, cursor);
    PastEntry(ranked, at - 1);
    PastFrom(ranked, cursor);
    assert forall i :: 0 <= i < |ranked| ==> (start <= i <==> PastCursor(cursor, ranked[i]));
    assert at < |ranked| ==> PastCursor(cursor, ranked[at]);
    assert start < |ranked| ==> PastCursor(cursor, ranked[start]);
  }

  /** Number of fetches: one for an empty ranking, else as many as pages are needed. */
  function PagesNeeded(n: nat, pageSize: nat): nat
    requires pageSize > 0
  {
    if n == 0 then 1 else (n + pageSize - 1) / pageSize
  }

  lemma FullPages(fetched: nat, k: nat, extra: nat, pageSize: nat)
    requires pageSize > 0 && fetched == k * pageSize && extra <= pageSize && (k > 0 ==> extra > 0)
    ensures PagesNeeded(fetched + extra, pageSize) == k + 1
  {
    if fetched + extra > 0 {
      var n := fetched + extra + pageSize - 1;
      assert n == (k + 1) * pageSize + (extra - 1);
      DivideExactly(n, k + 1, extra - 1, pageSize);
    }
  }

  lemma DivideExactly(n: nat, q: nat, r: int, d: nat)
    requires d > 0 && n == q * d + r && 0 <= r < d
    ensures n / d == q
  {
    var q', r' := n / d, n % d;
    assert n == q' * d + r';
    assert q' + 1 <= q ==> (q' + 1) * d <= q * d;
    assert q + 1 <= q' ==> (q + 1) * d <= q' * d;
  }

  /** After `pages`, the next fetch resumes at index `at` of the ranking. */
  ghost predicate Fetched(ranked: seq<Scored>, pageSize: nat, fingerprint: int,
                          pages: seq<Page>, cursor: Option<Cursor>, at: nat)
  {
    && at <= |ranked| && at == |pages| * pageSize
    && Entries(pages) == ranked[..at] && Ranks(pages) == Count(1, at)
    && PageStart(ranked, cursor) == at
    && (cursor.Some? ==> cursor.value.fingerprint == fingerprint && at < |ranked|)
    && (pages == [] <==> cursor.None?)
    && (forall p :: p in pages ==> |p.entries| <= pageSize)
  }

  lemma AppendSlice(ranked: seq<Scored>, pages: seq<Page>, page: Page, at: nat, end: nat)
    requires at <= end <= |ranked|
    requires Entries(pages) == ranked[..at] && Ranks(pages) == Count(1, at)
    requires page.entries == ranked[at..end] && page.firstRank == at + 1
    ensures Entries(pages + [page]) == ranked[..end] && Ranks(pages + [page]) == Count(1, end)
  {
    AppendPage(pages, page);
    assert ranked[..at] + ranked[at..end] == ranked[..end];
  }

  lemma FetchLast(ranked: seq<Scored>, pageSize: nat, fingerprint: int,
                  pages: seq<Page>, cursor: Option<Cursor>, at: nat)
    requires pageSize > 0 && Fetched(ranked, pageSize, fingerprint, pages, cursor, at)
    requires SearchPage(ranked, pageSize, cursor, fingerprint).value.next.None?
    ensures
      var all := pages + [SearchPage(ranked, pageSize, cursor, fingerprint).value];
      && Entries(all) == ranked && Ranks(all) == Count(1, |ranked|)
      && |all| == PagesNeeded(|ranked|, pageSize)
      && |all[|pages|].entries| <= pageSize
  {
    var page, start, end := PageIsSlice(ranked, pageSize, cursor, fingerprint);
    AppendSlice(ranked, pages, page, at, end);
    FullPages(at, |pages|, end - at, pageSize);
    assert ranked[..end] == ranked;
  }

  lemma FetchMore(ranked: seq<Scored>, pageSize: nat, fingerprint: int,
                  pages: seq<Page>, cursor: Option<Cursor>, at: nat)
    requires StrictlyRanked(ranked)
    requires pageSize > 0 && Fetched(ranked, pageSize, fingerprint, pages, cursor, at)
    requires SearchPage(ranked, pageSize, cursor, fingerprint).value.next.Some?
    ensures
      var page := SearchPage(ranked, pageSize, cursor, fingerprint).value;
      at + pageSize < |ranked| && Fetched(ranked, pageSize, fingerprint, pages + [page], page.next, at + pageSize)
  {
    var page, start, end := PageIsSlice(ranked, pageSize, cursor, fingerprint);
    AppendSlice(ranked, pages, page, at, end);
    ResumeAt(ranked, end, fingerprint);
    NextMultiple(|pages|, pageSize);
  }

  lemma NextMultiple(k: nat, d: nat)
    ensures (k + 1) * d == k * d + d
  {
  }

  /** Over an unchanged ranking with distinct marks, following `next_cursor` yields the whole
      ranking in order, numbered 1 to n, in exactly the number of fetches the page size asks for. */
  method SearchPages(ranked: seq<Scored>, pageSize: int, fingerprint: int) returns (r: Result<seq<Page>, PageError>)
    requires StrictlyRanked(ranked)
    ensures if pageSize <= 0 then r == Err(BadPageSize) else r.Ok?
    ensures r.Ok? ==> Entries(r.value) == ranked && Ranks(r.value) == Count(1, |ranked|)
    ensures r.Ok? ==> |r.value| == PagesNeeded(|ranked|, pageSize)
    ensures r.Ok? ==> forall p :: p in r.value ==> |p.entries| <= pageSize
  {
    if pageSize <= 0 {
      return Err(BadPageSize);
    }
    var pages: seq<Page> := [];
    var cursor: Option<Cursor> := None;
    ghost var at := 0;
    while true
      invariant Fetched(ranked, pageSize, fingerprint, pages, cursor, at)
      decreases |ranked| - at
    {
      var page := SearchPage(ranked, pageSize, cursor, fingerprint).value;
      if page.next.None? {
        FetchLast(ranked, pageSize, fingerprint, pages, cursor, at);
        return Ok(pages + [page]);
      }
      FetchMore(ranked, pageSize, fingerprint, pages, cursor, at);
      pages := pages + [page];
      cursor := page.next;
      at := at + pageSize;
    }
  }

  // ----- exactly when an unchanged ranking is paged completely -----

  /** The entries that following the cursor returns from index `at` on, the ranking unchanged. */
  function Followed(ranked: seq<Scored>, at: nat, pageSize: nat): seq<Scored>
    requires pageSize > 0 && at <= |ranked|
    decreases |ranked| - at
  {
    if at + pageSize >= |ranked| then ranked[at..]
    else
      var next := SeekPast(ranked, ranked[at + pageSize - 1].MarkOf());
      ranked[at..at + pageSize] + if next <= at then [] else Followed(ranked, next, pageSize)
  }

  /** No two entries with one mark stand on either side of a page boundary. */
  predicate NoTieAcrossPages(ranked: seq<Scored>, at: nat, pageSize: nat)
    requires pageSize > 0 && at <= |ranked|
    decreases |ranked| - at
  {
    at + pageSize >= |ranked| ||
    (ranked[at + pageSize - 1].MarkOf() != ranked[at + pageSize].MarkOf() && NoTieAcrossPages(ranked, at + pageSize, pageSize))
  }

  lemma SeekInSorted(ranked: seq<Scored>, end: nat)
    requires SortedBy(ranked, RankLeq) && 0 < end < |ranked|
    ensures
      var next := SeekPast(ranked, ranked[end - 1].MarkOf());
      next >= end && (next == end <==> ranked[end - 1].MarkOf() != ranked[end].MarkOf())
  {
    var mark := ranked[end - 1].MarkOf();
    forall i | 0 <= i < end ensures !Before(mark, ranked[i].MarkOf()) {
      if i < end - 1 {
        assert RankLeq(ranked[i], ranked[end - 1]);
      }
      BeforeOrder(mark, ranked[i].MarkOf(), mark);
    }
    assert RankLeq(ranked[end - 1], ranked[end]);
    BeforeOrder(mark, ranked[end].MarkOf(), mark);
  }

  lemma {:induction false} FollowedSize(ranked: seq<Scored>, at: nat, pageSize: nat)
    requires pageSize > 0 && at <= |ranked| && SortedBy(ranked, RankLeq)
    ensures |Followed(ranked, at, pageSize)| <= |ranked| - at
    decreases |ranked| - at
  {
    hide SortedBy, RankLeq, Before;
    if at + pageSize < |ranked| {
      SeekInSorted(ranked, at + pageSize);
      FollowedSize(ranked, SeekPast(ranked, ranked[at + pageSize - 1].MarkOf()), pageSize);
    }
  }

  /** Paging an unchanged ranking returns all of it exactly when no tie straddles a page boundary;
      else the rest of the tie is lost. Distinct stable keys exclude ties altogether. */
  lemma {:induction false} CompleteExactlyWithoutTies(ranked: seq<Scored>, at: nat, pageSize: nat)
    requires pageSize > 0 && at <= |ranked| && SortedBy(ranked, RankLeq)
    ensures Followed(ranked, at, pageSize) == ranked[at..] <==> NoTieAcrossPages(ranked, at, pageSize)
    decreases |ranked| - at
  {
    hide SortedBy, RankLeq, Before;
    if at + pageSize < |ranked| {
      var end := at + pageSize;
      var next := SeekPast(ranked, ranked[end - 1].MarkOf());
      SeekInSorted(ranked, end);
      FollowedSize(ranked, next, pageSize);
      if next == end {
        CompleteExactlyWithoutTies(ranked, end, pageSize);
        SplitAt(ranked, at, end, Followed(ranked, end, pageSize));
      }
    }
  }

  lemma SplitAt(ranked: seq<Scored>, at: nat, end: nat, rest: seq<Scored>)
    requires at <= end <= |ranked|
    ensures ranked[at..end] + rest == ranked[at..] <==> rest == ranked[end..]
  {
    assert ranked[at..] == ranked[at..end] + ranked[end..];
    if ranked[at..end] + rest == ranked[at..] {
      assert rest == (ranked[at..end] + rest)[end - at..];
    }
  }

  lemma SearchSorted(rows: seq<Row>, score: Scoring)
    ensures SortedBy(ApplySearch(rows, score), RankLeq)
  {
    RankPreorder();
    SortCorrect(Candidates(rows, score(rows)), RankLeq);
  }

  /** `Followed` is what the pages of a static table hold. */
  lemma {:induction false} FollowedIsFetched(rows: seq<Row>, score: Scoring, pageSize: nat, fingerprint: int,
                                             cursor: Option<Cursor>, stores: seq<seq<Row>>)
    requires pageSize > 0 && (cursor.Some? ==> cursor.value.fingerprint == fingerprint)
    requires forall s :: s in stores ==> s == rows
    requires |stores| > |ApplySearch(rows, score)| - PageStart(ApplySearch(rows, score), cursor)
    ensures
      var ranked := ApplySearch(rows, score);
      var pages := FetchAll(stores, score, pageSize, cursor, fingerprint);
      Finished(pages) && Entries(pages) == Followed(ranked, PageStart(ranked, cursor), pageSize)
    decreases |stores|
  {
    var ranked := ApplySearch(rows, score);
    SearchSorted(rows, score);
    hide ApplySearch, SearchPage, RankLeq, SortedBy, FetchAll, Entries, Finished, Followed, PageStart;
    assert stores[0] in stores;
    FollowedStep(ranked, pageSize, cursor, fingerprint);
    FetchAllSteps(stores, score, pageSize, cursor, fingerprint);
    var page := SearchPage(ranked, pageSize, cursor, fingerprint).value;
    if page.next.Some? {
      assert forall s :: s in stores[1..] ==> s in stores;
      FollowedIsFetched(rows, score, pageSize, fingerprint, page.next, stores[1..]);
    }
  }

  lemma FollowedStep(ranked: seq<Scored>, pageSize: nat, cursor: Option<Cursor>, fingerprint: int)
    requires pageSize > 0 && (cursor.Some? ==> cursor.value.fingerprint == fingerprint) && SortedBy(ranked, RankLeq)
    ensures SearchPage(ranked, pageSize, cursor, fingerprint).Ok?
    ensures
      var page := SearchPage(ranked, pageSize, cursor, fingerprint).value;
      var start := PageStart(ranked, cursor);
      if page.next.None? then Followed(ranked, start, pageSize) == page.entries
      else
        && page.next.value.fingerprint == fingerprint && start < PageStart(ranked, page.next)
        && Followed(ranked, start, pageSize) == page.entries + Followed(ranked, PageStart(ranked, page.next), pageSize)
  {
    hide SearchPage, SeekPast, Before, Followed;
    var page, start, end := PageIsSlice(ranked, pageSize, cursor, fingerprint);
    FollowedUnfolds(ranked, start, pageSize);
    if page.next.Some? {
      SeekInSorted(ranked, end);
    }
  }

  lemma FollowedUnfolds(ranked: seq<Scored>, at: nat, pageSize: nat)
    requires pageSize > 0 && at <= |ranked|
    ensures at + pageSize >= |ranked| ==> Followed(ranked, at, pageSize) == ranked[at..|ranked|]
    ensures at + pageSize < |ranked| ==>
      var next := SeekPast(ranked, ranked[at + pageSize - 1].MarkOf());
      next > at ==> Followed(ranked, at, pageSize) == ranked[at..at + pageSize] + Followed(ranked, next, pageSize)
  {
    hide SeekPast;
  }

  // ----- what fails without the hypotheses -----

  /** A one-field score for the examples. */
  function SecondField(rows: seq<Row>): Row -> Option<real> {
    (row: Row) => if |row| > 1 && row[1].1.Scalar? && row[1].1.value.Int? then Some(row[1].1.value.i as real) else None
  }

  function SampleRow(key: int, score: int): Row {
    [("a", Scalar(Int(key))), ("b", Scalar(Int(score)))]
  }

  /** Two rows with one stable key and one score: the second is lost at a page boundary. */
  lemma TiedKeysLoseARow(fingerprint: int)
    ensures
      var first, second := SampleRow(1, 5), SampleRow(1, 5) + [("c", Scalar(Int(0)))];
      var pages := FetchAll([[first, second], [first, second]], SecondField, 1, None, fingerprint);
      Finished(pages) && Entries(pages) == [Scored(first, 5.0)]
  {
    var first, second := SampleRow(1, 5), SampleRow(1, 5) + [("c", Scalar(Int(0)))];
    var table := [first, second];
    var x, y := Scored(first, 5.0), Scored(second, 5.0);
    RankTwo(x, y);
    var page := Page([x], 1, Some(Cursor(x.MarkOf(), fingerprint)), 2);
    assert SearchPage([x, y], 1, None, fingerprint) == Ok(page);
    assert SeekPast([y], x.MarkOf()) == 1;
    assert SeekPast([x, y], x.MarkOf()) == 2;
    assert [x, y][2..2] == [];
    assert SearchPage([x, y], 1, page.next, fingerprint) == Ok(Page([], 3, None, 2));
    FetchAllSteps([table, table], SecondField, 1, None, fingerprint);
    assert [table, table][1..] == [table];
    FetchAllSteps([table], SecondField, 1, page.next, fingerprint);
  }

  /** A row whose score drops between two fetches is returned twice, under two marks. */
  lemma RescoredKeyReturnsTwice(fingerprint: int)
    ensures
      var first, second := [SampleRow(1, 9), SampleRow(2, 5)], [SampleRow(2, 5), SampleRow(1, 3)];
      Entries(FetchAll([first, second, second], SecondField, 1, None, fingerprint)) ==
        [Scored(SampleRow(1, 9), 9.0), Scored(SampleRow(2, 5), 5.0), Scored(SampleRow(1, 3), 3.0)]
  {
    hide SearchPage, ApplySearch, FetchAll, Finished, RankLeq, Before, SampleRow;
    var first, second := [SampleRow(1, 9), SampleRow(2, 5)], [SampleRow(2, 5), SampleRow(1, 3)];
    var stores := [first, second, second];
    assert stores[1..] == [second, second] && [second, second][1..] == [second];
    RescoredPages(fingerprint);
    FetchAllSteps(stores, SecondField, 1, None, fingerprint);
    FetchAllSteps([second, second], SecondField, 1, Some(Cursor(Scored(SampleRow(1, 9), 9.0).MarkOf(), fingerprint)), fingerprint);
    FetchAllSteps([second], SecondField, 1, Some(Cursor(Scored(SampleRow(2, 5), 5.0).MarkOf(), fingerprint)), fingerprint);
  }

  lemma RescoredPages(fingerprint: int)
    ensures
      var first, second := [SampleRow(1, 9), SampleRow(2, 5)], [SampleRow(2, 5), SampleRow(1, 3)];
      var x, y, z := Scored(SampleRow(1, 9), 9.0), Scored(SampleRow(2, 5), 5.0), Scored(SampleRow(1, 3), 3.0);
      var pastX, pastY := Some(Cursor(x.MarkOf(), fingerprint)), Some(Cursor(y.MarkOf(), fingerprint));
      && SearchPage(ApplySearch(first, SecondField), 1, None, fingerprint) == Ok(Page([x], 1, pastX, 2))
      && SearchPage(ApplySearch(second, SecondField), 1, pastX, fingerprint) == Ok(Page([y], 1, pastY, 2))
      && SearchPage(ApplySearch(second, SecondField), 1, pastY, fingerprint) == Ok(Page([z], 2, None, 2))
  {
    hide SearchPage, ApplySearch;
    var x, y, z := Scored(SampleRow(1, 9), 9.0), Scored(SampleRow(2, 5), 5.0), Scored(SampleRow(1, 3), 3.0);
    RankTwo(x, y);
    RankTwo(y, z);
    PagesOfTwo(x, y, x.MarkOf(), fingerprint);
    PagesOfTwo(y, z, x.MarkOf(), fingerprint);
    PagesOfTwo(y, z, y.MarkOf(), fingerprint);
  }

  /** The one-row pages of a two-row ranking. */
  lemma PagesOfTwo(x: Scored, y: Scored, after: Mark, fingerprint: int)
    requires Before(x.MarkOf(), y.MarkOf()) && Before(after, y.MarkOf())
    ensures
      var next := Some(Cursor(x.MarkOf(), fingerprint));
      && SearchPage([x, y], 1, None, fingerprint) == Ok(Page([x], 1, next, 2))
      && SearchPage([x, y], 1, Some(Cursor(after, fingerprint)), fingerprint) ==
        Ok(if Before(after, x.MarkOf()) then Page([x], 1, next, 2) else Page([y], 2, None, 2))
  {
    assert [x, y][0..1] == [x] && [x, y][1..2] == [y] && [x, y][1..] == [y];
    assert SeekPast([y], after) == 0;
  }

  lemma RankTwo(x: Scored, y: Scored)
    requires RankLeq(x, y) && SecondField([x.row, y.row])(x.row) == Some(x.score) && SecondField([x.row, y.row])(y.row) == Some(y.score)
    ensures ApplySearch([x.row, y.row], SecondField) == [x, y]
  {
    assert [x.row, y.row][1..] == [y.row] && [y.row][1..] == [];
    assert Candidates([y.row], SecondField([x.row, y.row])) == [y];
    assert [x, y][1..] == [y] && [y][1..] == [];
    assert Sort([y], RankLeq) == [y];
  }

  // ----- what is ranked and paged -----

  /** The stable key is the first scalar of the row, null if there is none. */
  lemma {:induction false} StableKeyIsFirstScalar(row: Row)
    ensures
      if StableKey(row).Null? then forall i :: 0 <= i < |row| ==> !(row[i].1.Scalar? && !row[i].1.value.Null?)
      else exists i :: 0 <= i < |row| && row[i].1 == Scalar(StableKey(row))
             && forall k :: 0 <= k < i ==> !(row[k].1.Scalar? && !row[k].1.value.Null?)
  {
    if row != [] && !(row[0].1.Scalar? && !row[0].1.value.Null?) {
      var rest := row[1..];
      StableKeyIsFirstScalar(rest);
      if StableKey(row).Null? {
        assert row == [row[0]] + rest;
      } else {
        var i :| 0 <= i < |rest| && rest[i].1 == Scalar(StableKey(row)) && forall k :: 0 <= k < i ==> !(rest[k].1.Scalar? && !rest[k].1.value.Null?);
        assert row[i + 1] == rest[i] && forall k :: 0 < k < i + 1 ==> row[k] == rest[k - 1];
      }
    }
  }

  /** A ranking holds every row that scores, as often as it is stored, with its score; higher scores come first,
      and among equal scores smaller keys. */
  lemma RankingIs(rows: seq<Row>, score: Scoring)
    ensures
      var ranked := ApplySearch(rows, score);
      && (forall e :: multiset(ranked)[e] == if score(rows)(e.row) == Some(e.score) then multiset(rows)[e.row] else 0)
      && forall i, j :: 0 <= i < j < |ranked| ==>
           || ranked[i].score > ranked[j].score
           || (ranked[i].score == ranked[j].score && Leq(StableKey(ranked[i].row), StableKey(ranked[j].row)))
  {
    hide StableKey;
    var candidates := Candidates(rows, score(rows));
    RankPreorder();
    SortCorrect(candidates, RankLeq);
    CandidatesCount(rows, score(rows));
    forall i, j | 0 <= i < j < |ApplySearch(rows, score)| ensures RankLeq(ApplySearch(rows, score)[i], ApplySearch(rows, score)[j]) {
    }
    forall v: Value ensures Leq(v, v) {
      LeqTotal(v, v);
    }
  }

  lemma {:induction false} CandidatesCount(rows: seq<Row>, score: Row -> Option<real>)
    ensures forall e :: multiset(Candidates(rows, score))[e] == if score(e.row) == Some(e.score) then multiset(rows)[e.row] else 0
  {
    if rows != [] {
      CandidatesCount(rows[1..], score);
      assert rows == [rows[0]] + rows[1..];
    }
  }

  /** A page size below one is refused, and so is the cursor of another search. */
  lemma PageRefusedExactly(ranked: seq<Scored>, pageSize: int, cursor: Option<Cursor>, fingerprint: int)
    ensures
      var r := SearchPage(ranked, pageSize, cursor, fingerprint);
      && (r == Err(BadPageSize) <==> pageSize <= 0)
      && (r == Err(ForeignCursor) <==> pageSize > 0 && cursor.Some? && cursor.value.fingerprint != fingerprint)
      && (r.Ok? ==> r.value.total == |ranked|)
  {
  }
}
