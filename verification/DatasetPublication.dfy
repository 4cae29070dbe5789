/** What a final delivery publishes, told from the rows of the generation before and the records that were sent. */
module DatasetPublication {
  import opened Common
  import opened DatasetTypes
  import opened DatasetMerge
  import opened DatasetStore
  import opened DatasetRuns
  import opened DatasetDeadlines

  /** A delivery that publishes a generation, and the store after it. */
  ghost predicate Publishes(s: Store, q: Input, next: Store) {
    Effective(s, q) && q.page.complete && next == Ingest(s, q).store
  }

  ghost predicate IsSent(pages: seq<Page>, d: Definition, k: Key) {
    exists x <- RecordSet(pages) :: RecordKey(d, x.values) == k
  }

  lemma OnlyWindowsReplace(s: Store, q: Input)
    requires Effective(s, q)
    ensures ValidDefinition(q.definition) && (q.definition.mode == ReplaceWindow <==> q.page.window.Some?)
  {
    var t, r, rows := EffectiveShape(s, q);
    AdmittedFacts(s, q);
  }

  // ---- Rows of the generation before ----

  lemma MergedUnsentRowStaysIff(s: Store, q: Input, next: Store, k: Key)
    requires Merges(s, q, next) && k in PreviousRows(s.generations) && q.page.window.None?
    requires !IsSent(PagesIn(next, q.page.refreshKey), q.definition, k)
    ensures var row, rows := PreviousRows(s.generations)[k], PreviousRows(next.generations);
      && (k in rows <==> q.definition.mode != Snapshot && IsKept(row, RetentionDays(q), q.now))
      && (k in rows ==> IsCarriedAs(row, q.definition, RetentionDays(q), rows[k]))
  {
    UnsentRowStaysIff(PreviousRows(s.generations), HeaderOf(Opened(s, q), q), PagesIn(next, q.page.refreshKey), k);
  }

  /**
   * A row of the generation before that the refresh did not send is published again exactly while neither its own
   * deadline nor the retention has ended it, in every mode but a snapshot, which keeps none; windows are told apart in
   * `PublishedOutsideWindowSurvives`. It is the same row, null-filled, and lasts no longer than before.
   */
  lemma PublishedUnsentRowStaysIff(s: Store, q: Input, next: Store, k: Key)
    requires Publishes(s, q, next) && k in PreviousRows(s.generations) && q.definition.mode != ReplaceWindow
    requires !IsSent(PagesIn(next, q.page.refreshKey), q.definition, k)
    ensures next.generations != []
    ensures var row, rows := PreviousRows(s.generations)[k], PreviousRows(next.generations);
      && (k in rows <==> q.definition.mode != Snapshot && IsKept(row, RetentionDays(q), q.now))
      && (k in rows ==> IsCarriedAs(row, q.definition, RetentionDays(q), rows[k]))
  {
    FinalDeliveryMerges(s, q);
    OnlyWindowsReplace(s, q);
    MergedUnsentRowStaysIff(s, q, next, k);
  }

  lemma MergedRowsComeFrom(s: Store, q: Input, next: Store, k: Key)
    requires Merges(s, q, next) && k in PreviousRows(next.generations)
    ensures (k in PreviousRows(s.generations) && q.definition.mode != Snapshot)
      || IsSent(PagesIn(next, q.page.refreshKey), q.definition, k)
  {
    RowsComeFrom(PreviousRows(s.generations), HeaderOf(Opened(s, q), q), PagesIn(next, q.page.refreshKey), k);
  }

  /** Every published row was sent or was published before; in a snapshot it was sent. */
  lemma PublishedRowsComeFrom(s: Store, q: Input, next: Store, k: Key)
    requires Publishes(s, q, next) && k in PreviousRows(next.generations)
    ensures (k in PreviousRows(s.generations) && q.definition.mode != Snapshot)
      || IsSent(PagesIn(next, q.page.refreshKey), q.definition, k)
  {
    FinalDeliveryMerges(s, q);
    MergedRowsComeFrom(s, q, next, k);
  }

  // ---- Records that were sent ----

  lemma MergedRecordIs(s: Store, q: Input, next: Store, x: Record)
    requires Merges(s, q, next) && x in RecordSet(PagesIn(next, q.page.refreshKey)) && q.page.window.None?
    ensures var previous, rows, k := PreviousRows(s.generations), PreviousRows(next.generations), RecordKey(q.definition, x.values);
      if IsDeleted(x) then k !in rows
      else
        && k in rows && rows[k].values == x.values
        && if q.definition.mode == Append && k in previous && IsKept(previous[k], RetentionDays(q), q.now)
           then IsCarriedAs(previous[k], q.definition, RetentionDays(q), rows[k])
           else rows[k] == Row(x.values, Opened(s, q).collectedAt, Opened(s, q).expiresAt)
  {
    var h := HeaderOf(Opened(s, q), q);
    if IsDeleted(x) {
      DeletedIsGone(PreviousRows(s.generations), h, PagesIn(next, q.page.refreshKey), x);
    } else {
      SentRowIs(PreviousRows(s.generations), h, PagesIn(next, q.page.refreshKey), x);
    }
  }

  /**
   * A tombstone's key is gone; any other record is published as it was sent, with the times of its refresh, or under
   * append with those of the kept row it repeats.
   */
  lemma PublishedRecordIs(s: Store, q: Input, next: Store, x: Record)
    requires Publishes(s, q, next) && q.definition.mode != ReplaceWindow && q.page.refreshKey in next.refreshes
    requires x in RecordSet(next.refreshes[q.page.refreshKey].pages)
    ensures var r, previous := next.refreshes[q.page.refreshKey], PreviousRows(s.generations);
      var rows, k := PreviousRows(next.generations), RecordKey(q.definition, x.values);
      if x.deleted == Some(true) then k !in rows
      else
        && k in rows && rows[k].values == x.values
        && if q.definition.mode == Append && k in previous && IsKept(previous[k], RetentionDays(q), q.now)
           then IsCarriedAs(previous[k], q.definition, RetentionDays(q), rows[k])
           else rows[k] == Row(x.values, r.collectedAt, r.expiresAt)
  {
    FinalDeliveryMerges(s, q);
    OnlyWindowsReplace(s, q);
    HeaderStays(s, q);
    MergedRecordIs(s, q, next, x);
  }

  // ---- Times and retention ----

  /** The days a delivery's rows are kept: the shortest of the declared ones, or the connection's choice, and the policy's. */
  lemma RetentionIs(q: Input)
    ensures var days, most, choice := RetentionDays(q), q.env.policy.maxRetentionDays, q.env.choice;
      && NoLater(days, most)
      && (choice.Some? ==> NoLater(days, choice.value) && days in {choice.value, most})
      && (choice.None? ==>
            && NoLater(days, q.definition.retentionDays)
            && (forall f <- q.definition.fields :: f.retention.Days? ==> NoLater(days, Some(f.retention.days)))
            && (days == most || days == q.definition.retentionDays
                || exists f <- q.definition.fields :: f.retention.Days? && days == Some(f.retention.days)))
  {
  }

  /** A delivery's rows end with the retention, or with the data they were made from where that is earlier. */
  lemma ExpiryIs(q: Input)
    ensures var e, collectedAt := ExpiresAt(q), if q.retained.Some? then q.retained.value.collectedAt else q.now;
      && NoLater(e, RetentionExpiry(collectedAt, RetentionDays(q)))
      && (q.retained.Some? ==> NoLater(e, q.retained.value.expiresAt))
      && (e == RetentionExpiry(collectedAt, RetentionDays(q)) || (q.retained.Some? && e == q.retained.value.expiresAt))
  {
  }

  /** A refresh has the version, window and times of the delivery that opened it; its start is that delivery's clock. */
  lemma OpenedBy(s: Store, q: Input, next: Store)
    requires Effective(s, q) && next == Ingest(s, q).store
    ensures q.page.refreshKey in next.refreshes
    ensures var r, key := next.refreshes[q.page.refreshKey], q.page.refreshKey;
      && (key !in s.refreshes ==>
            && r.schemaVersion == q.definition.version && r.window == q.page.window && r.createdAt == q.now
            && r.collectedAt == (if q.retained.Some? then q.retained.value.collectedAt else q.now)
            && r.expiresAt == ExpiresAt(q) && r.pages == [q.page])
      && (key in s.refreshes ==>
            r == s.refreshes[key].(pages := r.pages, rowCount := r.rowCount, lastPageKey := r.lastPageKey, complete := r.complete)
            && r.pages == s.refreshes[key].pages + [q.page])
      && forall other <- s.refreshes :: other != key ==> other in next.refreshes && next.refreshes[other] == s.refreshes[other]
    ensures forall other <- next.refreshes :: other == q.page.refreshKey || other in s.refreshes
  {
    var t, r, rows := EffectiveShape(s, q);
    RegisterKeepsPages(s, q.definition, q.env.fits);
  }

  /**
   * Only a final page publishes, one generation: of its version and refresh, begun when the refresh was opened, ending
   * with the last of its rows, or with the delivery where that is later. The answer is its number.
   */
  lemma PublishedGenerationIs(s: Store, q: Input, next: Store)
    requires Effective(s, q) && next == Ingest(s, q).store
    ensures !q.page.complete ==> next.generations == s.generations && Ingest(s, q).answer == Ok(Answer(None, false))
    ensures q.page.complete ==>
      && |next.generations| == |s.generations| + 1 && next.generations[..|s.generations|] == s.generations
      && Ingest(s, q).answer == Ok(Answer(Some(|s.generations| + 1), false))
      && q.page.refreshKey in next.refreshes
      && var g, r := next.generations[|s.generations|], next.refreshes[q.page.refreshKey];
         && g.schemaVersion == q.definition.version && g.refreshKey == q.page.refreshKey
         && g.sequence == |s.generations| + 1 && g.createdAt == q.now && g.startedAt == r.createdAt
         && IsLatest(g.expiresAt, ExpiresAt(q), g.rows)
  {
    var t, r, rows := EffectiveShape(s, q);
    RegisterKeepsPages(s, q.definition, q.env.fits);
  }
}
