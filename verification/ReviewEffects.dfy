/** What an ingest leaves of each review, told from the page and the row that was stored before. */
module ReviewEffects {
  import opened Common
  import opened AppReviews

  // ---- Text ----

  predicate AllSpace(s: string) { forall c <- s :: IsSpace(c) }

  /** White space, the text, white space; the text has none at its ends. */
  ghost predicate IsTrimmed(value: string, text: string, before: string, after: string) {
    && value == before + text + after && AllSpace(before) && AllSpace(after)
    && (text != "" ==> !IsSpace(text[0]) && !IsSpace(text[|text| - 1]))
  }

  lemma {:induction false} TrimEndDrops(s: string) returns (after: string)
    ensures s == TrimEnd(s) + after && AllSpace(after)
    ensures TrimEnd(s) != "" ==> !IsSpace(TrimEnd(s)[|TrimEnd(s)| - 1])
  {
    after := "";
    if s != "" && IsSpace(s[|s| - 1]) {
      after := TrimEndDrops(s[..|s| - 1]);
      assert s == TrimEnd(s) + (after + [s[|s| - 1]]);
      after := after + [s[|s| - 1]];
    }
  }

  lemma {:induction false} TrimStartDrops(s: string) returns (before: string)
    ensures s == before + TrimStart(s) && AllSpace(before)
    ensures TrimStart(s) != "" ==> !IsSpace(TrimStart(s)[0])
  {
    before := "";
    if s != "" && IsSpace(s[0]) {
      before := TrimStartDrops(s[1..]);
      assert s == ([s[0]] + before) + TrimStart(s);
      before := [s[0]] + before;
    }
  }

  lemma TrimIs(s: string) returns (before: string, after: string)
    ensures IsTrimmed(s, Trim(s), before, after)
  {
    before := TrimStartDrops(s);
    after := TrimEndDrops(TrimStart(s));
    assert s == before + (Trim(s) + after);
    if Trim(s) != "" { assert Trim(s)[0] == TrimStart(s)[0]; }
  }

  /**
   * A text without its outer white space, and no text when nothing is left. A longer one is cut at the cap, and white
   * space before the cut goes too.
   */
  lemma CapTextIs(value: string, max: nat) returns (before: string, text: string, after: string, gap: string)
    ensures IsTrimmed(value, text, before, after)
    ensures CapText(Some(value), max).None? <==> AllSpace(value)
    ensures !AllSpace(value) && |text| <= max ==> CapText(Some(value), max) == Some(text)
    ensures !AllSpace(value) && |text| > max ==>
      var capped := CapText(Some(value), max).value;
      text[..max] == capped + gap && AllSpace(gap) && (capped != "" ==> !IsSpace(capped[|capped| - 1]))
  {
    text, gap := Trim(value), "";
    before, after := TrimIs(value);
    if text != "" {
      assert value[|before|] == text[0];
      assert text[0] in value;
    } else {
      assert value == before + after;
    }
    if |text| > max { gap := TrimEndDrops(text[..max]); }
  }

  // ---- The last report of each id ----

  /** No older than the page's limit. */
  predicate IsRecent(r: Reported, page: Page) {
    r.createdAt.Some? && page.now - r.createdAt.value <= page.maxAgeDays * 86_400_000
  }

  /** The `k`-th report is the last recent one of its id. */
  ghost predicate IsLastReport(page: Page, n: nat, k: nat)
    requires k < n <= |page.reviews|
  {
    && IsRecent(page.reviews[k], page)
    && forall j :: k < j < n && page.reviews[j].id == page.reviews[k].id ==> !IsRecent(page.reviews[j], page)
  }

  lemma {:induction false} LatestUpTo(page: Page, n: nat, k: nat)
    requires k < n <= |page.reviews| && IsLastReport(page, n, k)
    ensures var latest := Latest(page.reviews[..n], page);
      page.reviews[k].id in latest && latest[page.reviews[k].id] == page.reviews[k]
    decreases n
  {
    assert page.reviews[..n][..n - 1] == page.reviews[..n - 1];
    if k < n - 1 { LatestUpTo(page, n - 1, k); }
  }

  /** The reports that count are the last recent ones of their ids. */
  lemma LatestIs(page: Page, k: nat)
    requires k < |page.reviews| && IsLastReport(page, |page.reviews|, k)
    ensures var latest := Latest(page.reviews, page);
      page.reviews[k].id in latest && latest[page.reviews[k].id] == page.reviews[k]
  {
    assert page.reviews[..|page.reviews|] == page.reviews;
    LatestUpTo(page, |page.reviews|, k);
  }

  lemma {:induction false} LastReportExists(page: Page, n: nat, id: string) returns (k: nat)
    requires n <= |page.reviews| && exists j :: 0 <= j < n && page.reviews[j].id == id && IsRecent(page.reviews[j], page)
    ensures k < n && page.reviews[k].id == id && IsLastReport(page, n, k)
  {
    if page.reviews[n - 1].id == id && IsRecent(page.reviews[n - 1], page) { k := n - 1; } else {
      k := LastReportExists(page, n - 1, id);
    }
  }

  ghost predicate IsReported(page: Page, id: string) {
    exists j :: 0 <= j < |page.reviews| && page.reviews[j].id == id && IsRecent(page.reviews[j], page)
  }

  lemma ReportedIff(page: Page, id: string)
    ensures id in Latest(page.reviews, page) <==> IsReported(page, id)
  {
    if IsReported(page, id) {
      var k := LastReportExists(page, |page.reviews|, id);
      LatestIs(page, k);
    }
    if id in Latest(page.reviews, page) {
      var r := Latest(page.reviews, page)[id];
      var j :| 0 <= j < |page.reviews| && page.reviews[j] == r;
    }
  }

  // ---- The stored row ----

  predicate IsTerritory(code: string) { |code| == 2 && forall i :: 0 <= i < 2 ==> 'A' <= code[i] <= 'Z' }

  /** What is stored of a report: its texts capped, its territory if it is one, and the time it was hidden before. */
  predicate IsRowOf(r: Reported, page: Page, hiddenAt: Option<int>, row: Stored)
    requires r.createdAt.Some?
  {
    && row.workspace == page.workspace && row.resource == r.resource && row.rating == r.rating
    && row.createdAt == r.createdAt.value && row.ingestedAt == page.now && row.hiddenAt == hiddenAt
    && row.title == CapText(r.title, 300) && row.body == CapText(r.body, 4_000) && row.author == CapText(r.author, 100)
    && (row.territory.Some? ==> row.territory == r.territory)
    && (row.territory.Some? <==> r.territory.Some? && IsTerritory(r.territory.value))
  }

  /** The row of another workspace under the same key. */
  predicate IsForeign(table: Table, page: Page, key: Key) { key in table && table[key].workspace != page.workspace }

  /** Some window read the row's resource at its time, and no report of that resource, recent or not, has its id. */
  ghost predicate IsMissing(page: Page, key: Key, row: Stored) {
    exists w <- page.windows :: w.resource == row.resource && w.from <= row.createdAt && row.createdAt < w.to
      && forall r <- page.reviews :: !(r.id == key.id && r.resource == row.resource)
  }

  lemma GoneIff(table: Table, page: Page, key: Key)
    requires key in table
    ensures (exists w <- page.windows :: Gone(table, key, page, w)) <==>
      table[key].workspace == page.workspace && key.connection == page.connection && IsMissing(page, key, table[key])
  {
    if w :| w in page.windows && Gone(table, key, page, w) {
      forall r | r in page.reviews ensures !(r.id == key.id && r.resource == table[key].resource) {
      }
    }
  }

  lemma RowOfIs(r: Reported, page: Page, hiddenAt: Option<int>)
    requires r.createdAt.Some?
    ensures IsRowOf(r, page, hiddenAt, RowOf(r, page, hiddenAt))
  {
  }

  lemma ForeignRowStays(table: Table, page: Page, key: Key)
    requires IsForeign(table, page, key)
    ensures key in Ingested(table, page) && Ingested(table, page)[key] == table[key]
  {
    assert Upserted(table, page)[key] == table[key];
    assert forall w <- page.windows :: !Gone(Upserted(table, page), key, page, w);
  }

  /** The row of the last recent report is stored, over the old one of its workspace or as a new one. */
  lemma ReportIsStored(table: Table, page: Page, k: nat)
    requires k < |page.reviews| && IsLastReport(page, |page.reviews|, k)
    ensures var r, key := page.reviews[k], Key(page.connection, page.reviews[k].id);
      && key in Ingested(table, page)
      && (!IsForeign(table, page, key) ==>
            IsRowOf(r, page, if key in table then table[key].hiddenAt else None, Ingested(table, page)[key]))
      && (IsForeign(table, page, key) ==> Ingested(table, page)[key] == table[key])
  {
    LatestIs(page, k);
    var r, key := page.reviews[k], Key(page.connection, page.reviews[k].id);
    if IsForeign(table, page, key) {
      ForeignRowStays(table, page, key);
    } else {
      ReportedReviewsSurvive(table, page, r.id);
      RowOfIs(r, page, if key in table then table[key].hiddenAt else None);
    }
  }

  /** Every other row stays as it is, unless it is missing from a window of its own connection and workspace. */
  lemma UnreportedStaysIff(table: Table, page: Page, key: Key)
    requires key.connection != page.connection || !IsReported(page, key.id)
    ensures key in Ingested(table, page) <==>
      key in table
      && !(key.connection == page.connection && table[key].workspace == page.workspace && IsMissing(page, key, table[key]))
    ensures key in Ingested(table, page) ==> Ingested(table, page)[key] == table[key]
  {
    ReportedIff(page, key.id);
    var upserted := Upserted(table, page);
    if key in table { GoneIff(upserted, page, key); }
  }

  /** The rows that the upsert writes are those of reported ids that no other workspace has. */
  lemma WrittenAre(table: Table, page: Page)
    ensures forall id :: id in WrittenIds(table, page) <==> IsReported(page, id) && !IsForeign(table, page, Key(page.connection, id))
  {
    forall id ensures id in WrittenIds(table, page) <==> IsReported(page, id) && !IsForeign(table, page, Key(page.connection, id)) {
      ReportedIff(page, id);
    }
  }

  /** Hiding marks the row of the workspace, once. */
  lemma HiddenIs(table: Table, workspace: string, key: Key, now: int)
    ensures var next := Hidden(table, workspace, key, now);
      && next.Keys == table.Keys && (forall other <- table :: other != key ==> next[other] == table[other])
      && (key in table && table[key].workspace != workspace ==> next[key] == table[key])
      && (key in table && table[key].workspace == workspace ==>
            next[key] == table[key].(hiddenAt := Some(if table[key].hiddenAt.Some? then table[key].hiddenAt.value else now)))
  {
  }
}
